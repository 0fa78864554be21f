/** The rolling authorization log: overlapping batches of log entries, filtered by a watermark. */
module RollingLog {
  import opened Basics
  import opened Lists

  /** A log entry: its index, whether it is a doorbell recognition, and its first data byte. */
  datatype Entry = Entry(index: nat, doorbell: bool, data0: nat)

  /** What the opener has rolled out: `rolled` and `rings` (true for "locked") in order of
      publication; `rolledAtZero` records that an entry was rolled while the watermark was zero. */
  datatype Log = Log(watermark: nat, rolled: seq<Entry>, rings: seq<bool>, rolledAtZero: bool)

  const BY_INDEX: Entry -> int := (e: Entry) => e.index

  predicate Locked(e: Entry) { e.data0 % 4 == 0 }

  /** A ring is "locked" if the two lowest bits of the data byte are clear. */
  lemma LockedIsTwoClearBits(e: Entry)
    ensures Locked(e) <==> e.data0 % 2 == 0 && (e.data0 / 2) % 2 == 0
  {
  }

  function Roll(s: Log, e: Entry): Log {
    if e.index <= s.watermark then s
    else Log(e.index, s.rolled + [e],
             s.rings + (if e.doorbell && s.watermark > 0 then [Locked(e)] else []),
             s.rolledAtZero || s.watermark == 0)
  }

  function RollAll(s: Log, batch: seq<Entry>): Log {
    if batch == [] then s else Roll(RollAll(s, batch[..|batch| - 1]), batch[|batch| - 1])
  }

  function Raise(s: Log, v: int): Log {
    if v > 0 && v > s.watermark then s.(watermark := v) else s
  }

  /** A raise leaves the larger of the watermark and the value. */
  lemma RaiseIsMaximum(s: Log, v: int)
    ensures Raise(s, v) == Log(if v <= s.watermark then s.watermark else v, s.rolled, s.rings, s.rolledAtZero)
  {
  }

  // ---------------------------------------------------------------- one batch

  ghost predicate HasIndex(entries: seq<Entry>, i: nat) {
    exists e :: e in entries && e.index == i
  }

  /** What a batch adds to the entries rolled. */
  function Added(s: Log, batch: seq<Entry>): (added: seq<Entry>)
    ensures RollAll(s, batch).rolled == s.rolled + added
  {
    if batch == [] then []
    else
      var before, e := batch[..|batch| - 1], batch[|batch| - 1];
      Added(s, before) + if e.index > RollAll(s, before).watermark then [e] else []
  }

  /** What a batch adds to the rings sent. */
  function Rung(s: Log, batch: seq<Entry>): (rung: seq<bool>)
    ensures RollAll(s, batch).rings == s.rings + rung
  {
    if batch == [] then []
    else
      var before, e := batch[..|batch| - 1], batch[|batch| - 1];
      var w := RollAll(s, before).watermark;
      Rung(s, before) + if e.index > w && e.doorbell && w > 0 then [Locked(e)] else []
  }

  /** Sorted or not, a batch adds strictly increasing entries above the old watermark, and the new
      watermark is the largest index of the batch or the old watermark. */
  lemma {:induction false} BatchExtends(s: Log, batch: seq<Entry>)
    ensures var added, w := Added(s, batch), RollAll(s, batch).watermark;
            && Increasing(added, BY_INDEX)
            && (forall e :: e in added ==> e in batch && s.watermark < e.index <= w)
            && (forall e :: e in batch ==> e.index <= w)
            && s.watermark <= w
            && (w == s.watermark || HasIndex(batch, w))
  {
    if batch != [] {
      var before, e := batch[..|batch| - 1], batch[|batch| - 1];
      assert batch == before + [e];
      BatchExtends(s, before);
    }
  }

  lemma HasIndexInSum(a: seq<Entry>, b: seq<Entry>, i: nat)
    requires HasIndex(a, i)
    ensures HasIndex(a + b, i)
  {
    var e :| e in a && e.index == i;
    assert e in a + b;
  }

  lemma NotAboveIsListed(s: Log, before: seq<Entry>, last: Entry)
    requires Sorted(before + [last], BY_INDEX) && s.watermark < last.index <= RollAll(s, before).watermark
    ensures HasIndex(before, last.index)
  {
    BatchExtends(s, before);
    var w := RollAll(s, before).watermark;
    var k :| 0 <= k < |before| && before[k].index == w;
    assert (before + [last])[k] == before[k] && (before + [last])[|before|] == last;
  }

  lemma HasIndexBefore(before: seq<Entry>, last: Entry, i: nat)
    requires HasIndex(before + [last], i) && i != last.index
    ensures HasIndex(before, i)
  {
    var e :| e in before + [last] && e.index == i;
    assert e in before;
  }

  lemma AddedStep(s: Log, before: seq<Entry>, last: Entry)
    ensures Added(s, before + [last])
         == Added(s, before) + if last.index > RollAll(s, before).watermark then [last] else []
  {
    assert (before + [last])[..|before|] == before;
  }

  lemma SortedFront(before: seq<Entry>, last: Entry)
    requires Sorted(before + [last], BY_INDEX)
    ensures Sorted(before, BY_INDEX)
  {
    assert forall i :: 0 <= i < |before| ==> (before + [last])[i] == before[i];
  }

  /** A sorted batch is rolled completely: an entry for every index above the old watermark. With
      BatchExtends that is exactly one entry for each. */
  lemma {:induction false} SortedBatchComplete(s: Log, batch: seq<Entry>, i: nat)
    requires Sorted(batch, BY_INDEX) && HasIndex(batch, i) && s.watermark < i
    ensures HasIndex(Added(s, batch), i)
  {
    var before, last := batch[..|batch| - 1], batch[|batch| - 1];
    assert batch == before + [last];
    SortedFront(before, last);
    AddedStep(s, before, last);
    if i == last.index && i > RollAll(s, before).watermark {
      assert last in Added(s, batch);
    } else {
      if i == last.index {
        NotAboveIsListed(s, before, last);
      } else {
        HasIndexBefore(before, last, i);
      }
      SortedBatchComplete(s, before, i);
      HasIndexInSum(Added(s, before), if last.index > RollAll(s, before).watermark then [last] else [], i);
    }
  }

  // ---------------------------------------------------------------- runs of batches and raises

  datatype Input = Batch(entries: seq<Entry>) | Retained(value: int)

  function Feed(s: Log, inputs: seq<Input>): Log {
    if inputs == [] then s
    else
      var before, i := Feed(s, inputs[..|inputs| - 1]), inputs[|inputs| - 1];
      match i
      case Batch(entries) => RollAll(before, entries)
      case Retained(value) => Raise(before, value)
  }

  /** Every entry is between the two watermarks. */
  ghost predicate Between(low: nat, rolled: seq<Entry>, high: nat) {
    forall e :: e in rolled ==> low < e.index <= high
  }

  /** Over every run of whole batches, with raises between them, the entries rolled are strictly
      increasing and lie above the first watermark and up to the last, and the watermark never falls. */
  lemma {:induction false} RunIsIncreasing(watermark: nat, inputs: seq<Input>)
    ensures var s := Feed(Log(watermark, [], [], false), inputs);
            Increasing(s.rolled, BY_INDEX) && Between(watermark, s.rolled, s.watermark) && watermark <= s.watermark
  {
    if inputs != [] {
      var s := Feed(Log(watermark, [], [], false), inputs[..|inputs| - 1]);
      RunIsIncreasing(watermark, inputs[..|inputs| - 1]);
      match inputs[|inputs| - 1] {
        case Batch(entries) =>
          BatchExtends(s, entries);
          JoinIncreasing(s.rolled, Added(s, entries), watermark, s.watermark, RollAll(s, entries).watermark);
        case Retained(_) =>
      }
    }
  }

  lemma JoinIncreasing(a: seq<Entry>, b: seq<Entry>, low: nat, middle: nat, high: nat)
    requires Increasing(a, BY_INDEX) && Increasing(b, BY_INDEX) && low <= middle <= high
    requires Between(low, a, middle) && Between(middle, b, high)
    ensures Increasing(a + b, BY_INDEX) && Between(low, a + b, high)
  {
    assert forall i :: 0 <= i < |a| ==> a[i] in a;
    assert forall i :: 0 <= i < |b| ==> b[i] in b;
  }

  function Doorbells(rolled: seq<Entry>): seq<bool> {
    if rolled == [] then []
    else Doorbells(rolled[..|rolled| - 1]) +
         if rolled[|rolled| - 1].doorbell then [Locked(rolled[|rolled| - 1])] else []
  }

  /** Rings are the doorbell entries rolled, in order, but for a first one rolled at watermark zero. */
  ghost predicate RingsAccounted(s: Log) {
    && (s.rolledAtZero ==> s.rolled != [])
    && (s.rolled != [] ==> s.watermark > 0)
    && (if s.rolledAtZero && s.rolled[0].doorbell
        then Doorbells(s.rolled) == [Locked(s.rolled[0])] + s.rings
        else Doorbells(s.rolled) == s.rings)
  }

  lemma RollAccountsRings(s: Log, e: Entry)
    requires RingsAccounted(s)
    ensures RingsAccounted(Roll(s, e))
  {
    var r := Roll(s, e);
    if e.index > s.watermark {
      assert r.rolled[..|r.rolled| - 1] == s.rolled;
      if s.rolled == [] {
        assert r.rolled[..0] == [] && Doorbells([]) == [];
      }
    }
  }

  lemma {:induction false} RollAllAccountsRings(s: Log, batch: seq<Entry>)
    requires RingsAccounted(s)
    ensures RingsAccounted(RollAll(s, batch))
  {
    if batch != [] {
      RollAllAccountsRings(s, batch[..|batch| - 1]);
      RollAccountsRings(RollAll(s, batch[..|batch| - 1]), batch[|batch| - 1]);
    }
  }

  /** Conservation: over every such run the rings sent are the doorbell entries rolled, one for one and
      each with its own "locked" flag, except that the very first entry rolled does not ring if the
      watermark was zero then. */
  lemma {:induction false} RingConservation(watermark: nat, inputs: seq<Input>)
    ensures var s := Feed(Log(watermark, [], [], false), inputs);
            && RingsAccounted(s)
            && (watermark > 0 ==> s.rings == Doorbells(s.rolled))
  {
    var s0 := Log(watermark, [], [], false);
    if inputs != [] {
      var before := Feed(s0, inputs[..|inputs| - 1]);
      RingConservation(watermark, inputs[..|inputs| - 1]);
      match inputs[|inputs| - 1] {
        case Batch(entries) => RollAllAccountsRings(before, entries);
        case Retained(_) =>
      }
    }
    NeverAtZero(s0, inputs);
  }

  lemma {:induction false} NeverAtZero(s: Log, inputs: seq<Input>)
    requires s.watermark > 0 ==> !s.rolledAtZero
    ensures s.watermark > 0 ==> Feed(s, inputs).watermark > 0 && !Feed(s, inputs).rolledAtZero
  {
    if inputs != [] {
      NeverAtZero(s, inputs[..|inputs| - 1]);
      match inputs[|inputs| - 1] {
        case Batch(entries) => RollAllNeverAtZero(Feed(s, inputs[..|inputs| - 1]), entries);
        case Retained(_) =>
      }
    }
  }

  lemma {:induction false} RollAllNeverAtZero(s: Log, batch: seq<Entry>)
    ensures s.watermark > 0 ==> RollAll(s, batch).watermark > 0 && RollAll(s, batch).rolledAtZero == s.rolledAtZero
  {
    if batch != [] {
      RollAllNeverAtZero(s, batch[..|batch| - 1]);
    }
  }

  lemma KeptByCut(retrieved: seq<Entry>, max: Int32)
    ensures forall i | 0 <= i < |retrieved| && (if max < 0 then i < 0x8000_0000 else i < max) ::
              retrieved[i] in Cut(retrieved, max)
    ensures forall f | f in Cut(retrieved, max) ::
              exists i :: 0 <= i < |retrieved| && (0 <= max ==> i < max) && retrieved[i] == f
  {
    var cut := Cut(retrieved, max);
    forall i | 0 <= i < |retrieved| && (if max < 0 then i < 0x8000_0000 else i < max) ensures retrieved[i] in cut {
      assert retrieved[i] == cut[i];
    }
    forall f | f in cut ensures exists i :: 0 <= i < |retrieved| && (0 <= max ==> i < max) && retrieved[i] == f {
      var i :| 0 <= i < |cut| && cut[i] == f;
      assert retrieved[i] == f;
    }
  }

  // ---------------------------------------------------------------- the opener

  class OpenerLog {
    var saveEnabled: bool
    var stored: nat
    var lastRollingLog: nat
    var rolled: seq<Entry>
    var rings: seq<bool>
    ghost var rolledAtZero: bool

    constructor (saveEnabled: bool, stored: nat)
      ensures this.saveEnabled == saveEnabled && this.stored == stored && Valid()
      ensures State() == Log(if saveEnabled then stored else 0, [], [], false)
    {
      this.saveEnabled, this.stored := saveEnabled, stored;
      lastRollingLog := if saveEnabled then stored else 0;
      rolled, rings, rolledAtZero := [], [], false;
    }

    ghost function State(): Log reads this { Log(lastRollingLog, rolled, rings, rolledAtZero) }

    predicate Valid() reads this { saveEnabled ==> stored == lastRollingLog }

    /** Publishes before it moves the watermark, so a ring is judged by the old one. */
    method PublishAuthorizationInfo(logEntries: seq<Entry>)
      requires Valid()
      modifies this`stored, this`lastRollingLog, this`rolled, this`rings, this`rolledAtZero
      ensures Valid() && State() == RollAll(old(State()), logEntries)
      ensures !saveEnabled ==> stored == old(stored)
    {
      for n := 0 to |logEntries|
        invariant Valid() && State() == RollAll(old(State()), logEntries[..n])
        invariant !saveEnabled ==> stored == old(stored)
      {
        var log := logEntries[n];
        assert logEntries[..n + 1][..n] == logEntries[..n];
        if log.index > lastRollingLog {
          rolled := rolled + [log];
          if log.doorbell && lastRollingLog > 0 {
            rings := rings + [log.data0 % 4 == 0];
          }
          rolledAtZero := rolledAtZero || lastRollingLog == 0;
          lastRollingLog := log.index;
          if saveEnabled {
            stored := lastRollingLog;
          }
        }
      }
      assert logEntries[..|logEntries|] == logEntries;
    }

    /** A retained `lastRollingLog` message, already parsed. */
    method OnLastRollingLog(value: int)
      requires Valid()
      modifies this`lastRollingLog
      ensures Valid() && State() == if saveEnabled then old(State()) else Raise(old(State()), value)
      ensures lastRollingLog == if saveEnabled || value <= old(lastRollingLog) then old(lastRollingLog) else value
    {
      if !saveEnabled && value > 0 && value > lastRollingLog {
        lastRollingLog := value;
      }
    }

    /** Cut first, then sort, then publish: nothing above the old watermark among the first
        `maxEntries` retrieved is left out, and nothing else is rolled. A negative setting keeps all
        of up to 2^31 entries. */
    method UpdateAuthData(retrieved: seq<Entry>, maxEntries: Int32)
      requires Valid()
      modifies this`stored, this`lastRollingLog, this`rolled, this`rings, this`rolledAtZero
      ensures Valid() && State() == RollAll(old(State()), Sort(Cut(retrieved, maxEntries), BY_INDEX))
      ensures old(rolled) <= rolled && Increasing(rolled[|old(rolled)|..], BY_INDEX)
      ensures forall i | 0 <= i < |retrieved| && (if maxEntries < 0 then i < 0x8000_0000 else i < maxEntries) ::
                retrieved[i].index > old(lastRollingLog) ==> HasIndex(rolled[|old(rolled)|..], retrieved[i].index)
      ensures forall f | f in rolled[|old(rolled)|..] ::
                && f.index > old(lastRollingLog)
                && exists i :: 0 <= i < |retrieved| && (0 <= maxEntries ==> i < maxEntries) && retrieved[i] == f
    {
      var log := Sort(Cut(retrieved, maxEntries), BY_INDEX);
      if |log| > 0 {
        PublishAuthorizationInfo(log);
      }
      SortKeepsMembers(Cut(retrieved, maxEntries), BY_INDEX);
      BatchExtends(old(State()), log);
      forall e | e in log && e.index > old(lastRollingLog)
        ensures HasIndex(Added(old(State()), log), e.index)
      {
        SortedBatchComplete(old(State()), log, e.index);
      }
      assert rolled[|old(rolled)|..] == Added(old(State()), log);
      KeptByCut(retrieved, maxEntries);
    }
  }

  // ---------------------------------------------------------------- the lock

  class LockLog {
    var saveEnabled: bool
    var stored: nat
    var lastRollingLog: nat
    var rolled: seq<Entry>

    constructor (saveEnabled: bool, stored: nat)
      ensures this.saveEnabled == saveEnabled && this.stored == stored && Valid() && rolled == []
    {
      this.saveEnabled, this.stored := saveEnabled, stored;
      lastRollingLog := if saveEnabled then stored else 0;
      rolled := [];
    }

    predicate Valid() reads this { saveEnabled ==> stored == lastRollingLog }

    /** Moves and stores the watermark before it publishes; the entries rolled are the opener's. */
    method PublishAuthorizationInfo(logEntries: seq<Entry>)
      requires Valid()
      modifies this`stored, this`lastRollingLog, this`rolled
      ensures Valid() && (!saveEnabled ==> stored == old(stored))
      ensures var s := RollAll(Log(old(lastRollingLog), old(rolled), [], false), logEntries);
              lastRollingLog == s.watermark && rolled == s.rolled
    {
      ghost var s0 := Log(lastRollingLog, rolled, [], false);
      for n := 0 to |logEntries|
        invariant Valid() && (!saveEnabled ==> stored == old(stored))
        invariant lastRollingLog == RollAll(s0, logEntries[..n]).watermark
        invariant rolled == RollAll(s0, logEntries[..n]).rolled
      {
        var log := logEntries[n];
        assert logEntries[..n + 1][..n] == logEntries[..n];
        if log.index > lastRollingLog {
          lastRollingLog := log.index;
          if saveEnabled {
            stored := lastRollingLog;
          }
          rolled := rolled + [log];
        }
      }
      assert logEntries[..|logEntries|] == logEntries;
    }
  }
}
