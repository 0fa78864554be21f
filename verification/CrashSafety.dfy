/** Crashes between any two micro-steps of the rolling log: what is repeated, and what is lost. */
module CrashSafety {
  import opened Lists
  import opened LogMachine
  import R = RollingLog

  function Elements(log: seq<nat>): set<nat> { set x | x in log }

  lemma {:induction false} IncreasingHasNoRepeats(log: seq<nat>)
    requires Increasing(log, ITSELF)
    ensures |Elements(log)| == |log|
  {
    if log != [] {
      var before, last := log[..|log| - 1], log[|log| - 1];
      IncreasingHasNoRepeats(before);
      assert Elements(log) == Elements(before) + {last};
      assert last !in Elements(before);
    } else {
      assert Elements(log) == {};
    }
  }

  lemma SubsetIsNotLarger(a: set<nat>, b: set<nat>)
    requires a <= b
    ensures |a| <= |b|
  {
    assert b == a + (b - a);
  }

  /** A crash now comes between the two halves of the entry at hand: its watermark is in flash and
      it is not published (lock), or the other way round (opener). */
  predicate Halfway(m: Machine) {
    Unpublished(m) || (m.order.PublishFirst? && m.save && Published(m))
  }

  /** How many crashes of a run came at such a moment. */
  function Interrupted(m: Machine, actions: seq<Action>): nat {
    if actions == [] then 0
    else
      var before, a := actions[..|actions| - 1], actions[|actions| - 1];
      Interrupted(m, before) + if a in {Crash, Reboot} && Halfway(Run(m, before)) then 1 else 0
  }

  lemma {:induction false} InterruptedAtMostCrashes(m: Machine, actions: seq<Action>)
    ensures m.history.crashes + Interrupted(m, actions) <= Run(m, actions).history.crashes
  {
    if actions != [] {
      InterruptedAtMostCrashes(m, actions[..|actions| - 1]);
    }
  }

  // ---------------------------------------------------------------- the lock never repeats

  ghost predicate LockSafe(m: Machine) {
    && m.order.PersistFirst? && m.save && !m.pc.Ring?
    && Increasing(m.log, ITSELF) && AtMost(m.log, m.flash)
    && (!m.pc.Test? ==> m.queue != [])
    && match m.pc
       case Test => m.ram == m.flash
       case Assign => m.ram == m.flash < Head(m)
       case Persist => m.flash < Head(m) == m.ram
       case PublishEntry => m.ram == m.flash == Head(m) && Below(m.log, Head(m))
       case _ => m.ram == m.flash == Head(m)
  }

  lemma LockStep(m: Machine, a: Action)
    requires LockSafe(m)
    ensures LockSafe(Apply(m, a))
  {
    if a.Advance? && m.pc.PublishEntry? {
      AppendIncreasing(m.log, Head(m));
    }
  }

  /** Over every run of batches and crashes between any two micro-steps, the lock's published
      indices are strictly increasing; none is published twice, in this boot or a later one. */
  lemma {:induction false} LockNeverRepeats(watermark: nat, actions: seq<Action>)
    ensures LockSafe(Run(Start(PersistFirst, true, watermark), actions))
    ensures Increasing(Run(Start(PersistFirst, true, watermark), actions).log, ITSELF)
  {
    if actions != [] {
      LockNeverRepeats(watermark, actions[..|actions| - 1]);
      LockStep(Run(Start(PersistFirst, true, watermark), actions[..|actions| - 1]), actions[|actions| - 1]);
    }
  }

  // ---------------------------------------------------------------- the opener repeats little

  ghost predicate OpenerSafe(m: Machine) {
    && m.order.PublishFirst? && m.save
    && Increasing(m.history.settled, ITSELF) && AtMost(m.history.settled, m.flash)
    && Elements(m.history.settled) <= Elements(m.log)
    && (!m.pc.Test? ==> m.queue != [] && Head(m) > m.flash)
    && m.ram == (if m.pc.Persist? then Head(m) else m.flash)
    && (Published(m) ==> Head(m) in m.log)
  }

  lemma OpenerStep(m: Machine, a: Action)
    requires OpenerSafe(m)
    ensures OpenerSafe(Apply(m, a))
  {
    if a.Advance? && m.pc.Persist? {
      AppendIncreasing(m.history.settled, Head(m));
    }
  }

  /** Every publication is settled, was interrupted by a crash, or is in flight. */
  ghost predicate OpenerCounted(m: Machine, interrupted: nat) {
    |m.log| == |m.history.settled| + interrupted + if Published(m) then 1 else 0
  }

  lemma OpenerCountStep(m: Machine, a: Action, interrupted: nat)
    requires OpenerSafe(m) && OpenerCounted(m, interrupted)
    ensures OpenerCounted(Apply(m, a), interrupted + if a in {Crash, Reboot} && Halfway(m) then 1 else 0)
  {
  }

  lemma {:induction false} OpenerStaysSafe(watermark: nat, actions: seq<Action>)
    ensures var m := Start(PublishFirst, true, watermark);
            OpenerSafe(Run(m, actions)) && OpenerCounted(Run(m, actions), Interrupted(m, actions))
  {
    if actions != [] {
      var m, before, a := Start(PublishFirst, true, watermark), actions[..|actions| - 1], actions[|actions| - 1];
      OpenerStaysSafe(watermark, before);
      OpenerStep(Run(m, before), a);
      OpenerCountStep(Run(m, before), a, Interrupted(m, before));
    }
  }

  /** Over every run the opener's publications exceed its distinct indices by at most one for each
      crash between the publication of an entry and the persisting of its watermark. Without such
      a crash nothing is published twice. */
  lemma OpenerRepeatsOncePerCrash(watermark: nat, actions: seq<Action>)
    ensures var m0 := Start(PublishFirst, true, watermark);
            var m := Run(m0, actions);
            |m.log| <= |Elements(m.log)| + Interrupted(m0, actions) <= |Elements(m.log)| + m.history.crashes
  {
    var m0 := Start(PublishFirst, true, watermark);
    var m := Run(m0, actions);
    OpenerStaysSafe(watermark, actions);
    InterruptedAtMostCrashes(m0, actions);
    PartIsNotLarger(m, m.history.settled, Published(m));
  }

  /** The entries of an increasing part of the log are distinct in it, with the one in flight. */
  lemma PartIsNotLarger(m: Machine, part: seq<nat>, inFlight: bool)
    requires Increasing(part, ITSELF) && Elements(part) <= Elements(m.log)
    requires inFlight ==> m.queue != [] && Head(m) in m.log && Below(part, Head(m))
    ensures |part| + (if inFlight then 1 else 0) <= |Elements(m.log)|
  {
    IncreasingHasNoRepeats(part);
    if inFlight {
      assert Head(m) !in Elements(part);
      SubsetIsNotLarger(Elements(part) + {Head(m)}, Elements(m.log));
    } else {
      SubsetIsNotLarger(Elements(part), Elements(m.log));
    }
  }

  // ---------------------------------------------------------------- with saving off

  /** The retained topic stands in for the flash. */
  ghost predicate TopicSafe(m: Machine) {
    && !m.save
    && Increasing(m.history.announced, ITSELF) && AtMost(m.history.announced, m.retained)
    && Elements(m.history.announced) <= Elements(m.log)
    && (m.pc.Test? ==> m.ram >= m.retained)
    && (!m.pc.Test? ==> m.queue != [])
    && (m.pc.Ring? ==> m.order.PublishFirst?)
    && (!m.pc.Test? && !Announced(m) ==> Head(m) > m.retained)
    && (!m.pc.Test? && Announced(m) ==> Head(m) == m.retained)
    && (Assigned(m) ==> m.ram >= Head(m))
    && (m.pc.PublishLast? ==> Head(m) in m.log)
    && |m.log| <= |m.history.announced| + m.history.crashes + if m.pc.PublishLast? then 1 else 0
  }

  predicate Announced(m: Machine) { m.order.PublishFirst? && m.pc in {Ring, Assign, Persist} }

  lemma TopicStep(m: Machine, a: Action)
    requires TopicSafe(m) && a != Crash
    ensures TopicSafe(Apply(m, a))
  {
    if a.Advance? && m.pc.PublishLast? {
      AppendIncreasing(m.history.announced, Head(m));
    }
  }

  lemma {:induction false} TopicStaysSafe(order: Order, actions: seq<Action>)
    requires Crash !in actions
    ensures TopicSafe(Run(Start(order, false, 0), actions))
  {
    if actions != [] {
      var before, a := actions[..|actions| - 1], actions[|actions| - 1];
      assert a in actions && forall b :: b in before ==> b in actions;
      TopicStaysSafe(order, before);
      TopicStep(Run(Start(order, false, 0), before), a);
    }
  }

  /** With saving off, if after each crash the retained watermark arrives before the next batch,
      lock and opener alike repeat at most one publication for each crash. */
  lemma UnsavedRepeatsOncePerCrash(order: Order, actions: seq<Action>)
    requires Crash !in actions
    ensures var m := Run(Start(order, false, 0), actions);
            |m.log| <= |Elements(m.log)| + m.history.crashes
  {
    TopicStaysSafe(order, actions);
    var m := Run(Start(order, false, 0), actions);
    PartIsNotLarger(m, m.history.announced, m.pc.PublishLast?);
  }

  /** What publishing these indices after that log repeats. */
  ghost predicate Repeats(log: seq<nat>, more: seq<nat>) {
    exists x :: x in log && x in more
  }

  /** A crash, the retained value that arrives first (zero if none does), and a batch. */
  function Restart(value: nat, batch: seq<R.Entry>): seq<Action> { [Crash, Raise(value), Deliver(batch)] }

  /** With saving off, whether a restart repeats anything depends on the value that arrives before
      the first batch: if none does (zero), everything in the batch comes again. */
  lemma UnsavedRestart(m: Machine, value: nat, batch: seq<R.Entry>)
    requires !m.save && Sorted(batch, R.BY_INDEX)
    ensures var effect := AfterRestart(value, batch);
            && (exists n: nat :: WorkedOff(m, Run(m, Restart(value, batch) + Advances(n)), effect))
            && (Repeats(m.log, effect.log) <==> exists x :: x in m.log && x > value && R.HasIndex(batch, x))
  {
    var up, effect := Run(m, Restart(value, batch)), AfterRestart(value, batch);
    RestartState(m, value, batch);
    UndisturbedIsRollAll(up, R.Log(value, [], [], false));
    var n: nat :| WorkedOff(up, Run(up, Advances(n)), effect);
    RunOfSum(m, Restart(value, batch), Advances(n));
    assert WorkedOff(m, Run(m, Restart(value, batch) + Advances(n)), effect);
    forall x: nat ensures x in effect.log <==> x > value && R.HasIndex(batch, x) {
      RestartPublishesOnly(value, batch, x);
      RestartPublishes(value, batch, x);
    }
  }

  lemma RestartState(m: Machine, value: nat, batch: seq<R.Entry>)
    requires !m.save
    ensures var up := Run(m, Restart(value, batch));
            && up.pc.Test? && up.queue == batch && up.ram == value
            && up.log == m.log && up.rings == m.rings && up.order == m.order && !up.save
            && up.flash == m.flash && up.retained == m.retained
  {
    var a := Restart(value, batch);
    assert a == a[..3];
    RunPrefix(m, a, 0);
    RunPrefix(m, a, 1);
    RunPrefix(m, a, 2);
  }

  function AfterRestart(value: nat, batch: seq<R.Entry>): Effect {
    Rolled(R.Log(value, [], [], false), batch)
  }

  lemma RestartPublishesOnly(value: nat, batch: seq<R.Entry>, x: nat)
    ensures x in AfterRestart(value, batch).log ==> x > value && R.HasIndex(batch, x)
  {
    var added := R.Added(R.Log(value, [], [], false), batch);
    R.BatchExtends(R.Log(value, [], [], false), batch);
    if k :| 0 <= k < |added| && Indices(added)[k] == x {
      assert added[k] in batch;
    }
  }

  lemma RestartPublishes(value: nat, batch: seq<R.Entry>, x: nat)
    requires Sorted(batch, R.BY_INDEX)
    ensures x > value && R.HasIndex(batch, x) ==> x in AfterRestart(value, batch).log
  {
    if x > value && R.HasIndex(batch, x) {
      R.SortedBatchComplete(R.Log(value, [], [], false), batch, x);
      IndexIsListed(R.Added(R.Log(value, [], [], false), batch), x);
    }
  }

  lemma IndexIsListed(entries: seq<R.Entry>, x: nat)
    requires R.HasIndex(entries, x)
    ensures x in Indices(entries)
  {
    var k :| 0 <= k < |entries| && entries[k].index == x;
    assert Indices(entries)[k] == x;
  }

  // ---------------------------------------------------------------- nothing is lost, or little

  /** Up to its last index the batch has everything the device logged above the watermark. */
  ghost predicate Covers(batch: seq<R.Entry>, device: set<nat>, watermark: nat) {
    forall d :: d in device && batch != [] && watermark < d <= batch[|batch| - 1].index ==> R.HasIndex(batch, d)
  }

  /** Every batch in the run is sorted and covers the device's log from the watermark on. */
  ghost predicate WellDelivered(m: Machine, actions: seq<Action>, device: set<nat>) {
    forall i :: 0 <= i < |actions| && actions[i].Deliver? ==>
      Sorted(actions[i].batch, R.BY_INDEX) && Covers(actions[i].batch, device, Run(m, actions[..i]).flash)
  }

  /** What is taken care of once its watermark is in flash. */
  function Kept(m: Machine): seq<nat> { if m.order.PersistFirst? then m.log else m.history.settled }

  ghost predicate Accounted(m: Machine, device: set<nat>, watermark: nat) {
    forall d :: d in device && watermark < d <= m.flash ==>
      d in Kept(m) || d in m.history.lost || (Unpublished(m) && d == Head(m))
  }

  ghost predicate Gapless(m: Machine, device: set<nat>, watermark: nat) {
    Sorted(m.queue, R.BY_INDEX) && Covers(m.queue, device, m.flash) && Accounted(m, device, watermark)
  }

  lemma DropHead(queue: seq<R.Entry>, device: set<nat>, watermark: nat, raised: nat)
    requires queue != [] && Sorted(queue, R.BY_INDEX) && Covers(queue, device, watermark)
    requires watermark <= raised && queue[0].index <= raised
    ensures Sorted(queue[1..], R.BY_INDEX) && Covers(queue[1..], device, raised)
  {
    forall d | d in device && queue[1..] != [] && raised < d <= queue[|queue| - 1].index
      ensures R.HasIndex(queue[1..], d)
    {
      var e :| e in queue && e.index == d;
      assert queue == [queue[0]] + queue[1..] && e in queue[1..];
    }
  }

  lemma OnlyHeadIsNext(m: Machine, device: set<nat>, d: nat)
    requires m.queue != [] && Sorted(m.queue, R.BY_INDEX) && Covers(m.queue, device, m.flash)
    requires d in device && m.flash < d <= Head(m)
    ensures d == Head(m)
  {
    assert Head(m) <= m.queue[|m.queue| - 1].index;
    var e :| e in m.queue && e.index == d;
  }

  lemma AdvanceKeepsAccounted(m: Machine, device: set<nat>, watermark: nat)
    requires Gapless(m, device, watermark) && (LockSafe(m) || OpenerSafe(m))
    ensures Accounted(AdvanceOne(m), device, watermark)
  {
    if m.queue != [] && m.pc.Persist? {
      forall d | d in device && m.flash < d <= m.ram ensures d == Head(m) {
        OnlyHeadIsNext(m, device, d);
      }
    }
  }

  lemma AdvanceKeepsGapless(m: Machine, device: set<nat>, watermark: nat)
    requires Gapless(m, device, watermark) && (LockSafe(m) || OpenerSafe(m))
    ensures Gapless(AdvanceOne(m), device, watermark)
  {
    AdvanceKeepsAccounted(m, device, watermark);
    if m.queue != [] && AdvanceOne(m).pc.Test? {
      DropHead(m.queue, device, m.flash, AdvanceOne(m).flash);
    }
  }

  lemma {:induction false} RunIsGapless(m: Machine, actions: seq<Action>, device: set<nat>, watermark: nat)
    requires m == Start(m.order, true, watermark) && WellDelivered(m, actions, device)
    ensures Gapless(Run(m, actions), device, watermark)
    ensures m.order.PublishFirst? ==> Run(m, actions).history.lost == {}
  {
    if actions != [] {
      var before, a := actions[..|actions| - 1], actions[|actions| - 1];
      forall i | 0 <= i < |before| ensures before[..i] == actions[..i] {}
      RunIsGapless(m, before, device, watermark);
      OrderIsFixed(m, before);
      if m.order.PersistFirst? {
        LockNeverRepeats(watermark, before);
      } else {
        OpenerStaysSafe(watermark, before);
      }
      if a.Advance? {
        AdvanceKeepsGapless(Run(m, before), device, watermark);
      }
    }
  }

  /** The opener never loses an entry: whatever the device logged above the first watermark and up
      to the one in flash has been published. */
  lemma OpenerLosesNothing(watermark: nat, actions: seq<Action>, device: set<nat>)
    requires WellDelivered(Start(PublishFirst, true, watermark), actions, device)
    ensures var m := Run(Start(PublishFirst, true, watermark), actions);
            forall d :: d in device && watermark < d <= m.flash ==> d in m.log
  {
    var m0 := Start(PublishFirst, true, watermark);
    RunIsGapless(m0, actions, device, watermark);
    OrderIsFixed(m0, actions);
    OpenerStaysSafe(watermark, actions);
    var m := Run(m0, actions);
    forall d | d in m.history.settled ensures d in m.log {
      assert d in Elements(m.history.settled);
    }
  }

  // ---------------------------------------------------------------- exactly what the lock loses

  /** The device's entries between two watermarks that were never published. */
  function Missing(m: Machine, device: set<nat>, watermark: nat): set<nat> {
    set d | d in device && watermark < d <= m.flash && d !in m.log
  }

  /** What a crash cost is in flash, was not published, and will not be. */
  ghost predicate Mourned(m: Machine, watermark: nat, interrupted: nat) {
    && watermark <= m.flash && (m.pc.PublishEntry? ==> watermark < m.flash)
    && |m.history.lost| == interrupted
    && forall d :: d in m.history.lost ==> Gone(m, d) && watermark < d
  }

  ghost predicate Gone(m: Machine, d: nat) {
    d <= m.flash && d !in m.log && (m.pc.PublishEntry? ==> d < m.flash)
  }

  lemma GoneStep(m: Machine, a: Action, d: nat)
    requires LockSafe(m) && Gone(m, d)
    ensures Gone(Apply(m, a), d)
  {
  }

  lemma MournStep(m: Machine, a: Action, watermark: nat, interrupted: nat)
    requires LockSafe(m) && Mourned(m, watermark, interrupted)
    ensures Mourned(Apply(m, a), watermark, interrupted + if a in {Crash, Reboot} && Halfway(m) then 1 else 0)
  {
    forall d | d in m.history.lost ensures Gone(Apply(m, a), d) {
      GoneStep(m, a, d);
    }
    if Unpublished(m) {
      assert Head(m) !in m.history.lost && Head(m) !in m.log;
    }
  }

  lemma {:induction false} LockMourns(watermark: nat, actions: seq<Action>)
    ensures var m := Start(PersistFirst, true, watermark);
            Mourned(Run(m, actions), watermark, Interrupted(m, actions))
  {
    if actions != [] {
      var m, before := Start(PersistFirst, true, watermark), actions[..|actions| - 1];
      LockMourns(watermark, before);
      LockNeverRepeats(watermark, before);
      MournStep(Run(m, before), actions[|actions| - 1], watermark, Interrupted(m, before));
    }
  }

  /** All indices delivered are the device's. */
  ghost predicate FromDevice(actions: seq<Action>, device: set<nat>) {
    forall i, e :: 0 <= i < |actions| && actions[i].Deliver? && e in actions[i].batch ==> e.index in device
  }

  ghost predicate OnDevice(m: Machine, device: set<nat>) {
    (forall e :: e in m.queue ==> e.index in device) && m.history.lost <= device && Elements(m.log) <= device
  }

  lemma DeviceStep(m: Machine, a: Action, device: set<nat>)
    requires OnDevice(m, device)
    requires a.Deliver? ==> forall e :: e in a.batch ==> e.index in device
    ensures OnDevice(Apply(m, a), device)
  {
  }

  lemma {:induction false} StaysOnDevice(m: Machine, actions: seq<Action>, device: set<nat>)
    requires FromDevice(actions, device) && OnDevice(m, device)
    ensures OnDevice(Run(m, actions), device)
  {
    if actions != [] {
      var before := actions[..|actions| - 1];
      forall i, e | 0 <= i < |before| && before[i].Deliver? && e in before[i].batch ensures e.index in device {
        assert actions[i] == before[i];
      }
      StaysOnDevice(m, before, device);
      DeviceStep(Run(m, before), actions[|actions| - 1], device);
    }
  }

  /** Exactly what the lock loses: an entry of the device up to the watermark in flash is missing if
      and only if a crash fell between its persisting and its publication. If the batches are the
      device's there are as many missing as such crashes, so none is if there was no such crash. */
  lemma LockLosesExactly(watermark: nat, actions: seq<Action>, device: set<nat>)
    requires WellDelivered(Start(PersistFirst, true, watermark), actions, device)
    requires !Run(Start(PersistFirst, true, watermark), actions).pc.PublishEntry?
    ensures var m0 := Start(PersistFirst, true, watermark);
            var m := Run(m0, actions);
            && Missing(m, device, watermark) == m.history.lost * device
            && (FromDevice(actions, device) ==> |Missing(m, device, watermark)| == Interrupted(m0, actions))
  {
    var m0 := Start(PersistFirst, true, watermark);
    var m := Run(m0, actions);
    RunIsGapless(m0, actions, device, watermark);
    LockNeverRepeats(watermark, actions);
    LockMourns(watermark, actions);
    assert Missing(m, device, watermark) == m.history.lost * device;
    if FromDevice(actions, device) {
      StaysOnDevice(m0, actions, device);
      assert m.history.lost * device == m.history.lost;
    }
  }

  /** So the lock loses at most one entry for each crash (and has one it is about to publish). */
  lemma LockLosesOncePerCrash(watermark: nat, actions: seq<Action>, device: set<nat>)
    requires WellDelivered(Start(PersistFirst, true, watermark), actions, device)
    ensures var m := Run(Start(PersistFirst, true, watermark), actions);
            |Missing(m, device, watermark)| <= m.history.crashes + if m.pc.PublishEntry? then 1 else 0
  {
    var m0 := Start(PersistFirst, true, watermark);
    var m := Run(m0, actions);
    RunIsGapless(m0, actions, device, watermark);
    LockNeverRepeats(watermark, actions);
    LockMourns(watermark, actions);
    InterruptedAtMostCrashes(m0, actions);
    SubsetIsNotLarger(Missing(m, device, watermark), m.history.lost + if m.pc.PublishEntry? then {Head(m)} else {});
  }

  // ---------------------------------------------------------------- exactly what the opener repeats

  lemma {:induction false} SettledIsAbove(watermark: nat, actions: seq<Action>)
    ensures var m := Run(Start(PublishFirst, true, watermark), actions);
            m.flash >= watermark && forall x :: x in m.log ==> x > watermark
  {
    if actions != [] {
      OpenerStaysSafe(watermark, actions[..|actions| - 1]);
      SettledIsAbove(watermark, actions[..|actions| - 1]);
    }
  }

  /** Exactly what the opener repeats: once the watermark in flash has caught up with everything
      published, there are as many repeats as crashes between a publication and its persisting. */
  lemma OpenerRepeatsExactly(watermark: nat, actions: seq<Action>, device: set<nat>)
    requires WellDelivered(Start(PublishFirst, true, watermark), actions, device) && FromDevice(actions, device)
    requires var m := Run(Start(PublishFirst, true, watermark), actions);
             AtMost(m.log, m.flash)
    ensures var m0 := Start(PublishFirst, true, watermark);
            var m := Run(m0, actions);
            |m.log| == |Elements(m.log)| + Interrupted(m0, actions)
  {
    var m0 := Start(PublishFirst, true, watermark);
    var m := Run(m0, actions);
    RunIsGapless(m0, actions, device, watermark);
    OrderIsFixed(m0, actions);
    OpenerStaysSafe(watermark, actions);
    SettledIsAbove(watermark, actions);
    StaysOnDevice(m0, actions, device);
    forall x | x in Elements(m.log) ensures x in Elements(m.history.settled) {
      assert x in device && watermark < x <= m.flash;
    }
    assert Elements(m.log) == Elements(m.history.settled);
    IncreasingHasNoRepeats(m.history.settled);
  }

  // ---------------------------------------------------------------- the bounds are reached

  /** A batch of one entry and n micro-steps. */
  function Batch(e: R.Entry, n: nat): seq<Action> { [Deliver([e])] + Advances(n) }

  function Delivered(m: Machine, e: R.Entry): Machine { Apply(m, Deliver([e])) }

  lemma OneAction(m: Machine, a: Action)
    ensures Run(m, [a]) == Apply(m, a)
  {
    assert [a][..0] == [];
  }

  lemma BatchIsRun(m: Machine, e: R.Entry, n: nat)
    ensures Run(m, Batch(e, n)) == Advanced(Delivered(m, e), n)
  {
    OneAction(m, Deliver([e]));
    RunOfSum(m, [Deliver([e])], Advances(n));
    AdvancedIsRun(Delivered(m, e), n);
  }

  /** A batch of one entry, a crash n micro-steps into it, the batch again, and k micro-steps. */
  function BatchTwice(e: R.Entry, n: nat, k: nat): seq<Action> { Batch(e, n) + [Crash] + Batch(e, k) }

  lemma TwoBatches(m: Machine, e: R.Entry, n: nat, k: nat)
    ensures Run(m, BatchTwice(e, n, k)) == Advanced(Delivered(Crashed(Advanced(Delivered(m, e), n)), e), k)
  {
    var halfway := Run(m, Batch(e, n));
    RunOfSum(m, Batch(e, n) + [Crash], Batch(e, k));
    RunOfSum(m, Batch(e, n), [Crash]);
    OneAction(halfway, Crash);
    BatchIsRun(m, e, n);
    BatchIsRun(Crashed(halfway), e, k);
  }

  lemma LockPersists(m: Machine)
    requires m.order.PersistFirst? && m.save && m.pc.Test? && m.queue != [] && Head(m) > m.ram
    ensures Advanced(m, 3) == m.(ram := Head(m), flash := Head(m), pc := PublishEntry)
  {
    var half := AdvanceOne(AdvanceOne(m));
    assert half == m.(ram := Head(m), pc := Persist);
    assert Advanced(m, 3) == Advanced(half, 1) == Advanced(AdvanceOne(half), 0);
  }

  /** One crash can cost the lock an entry for good. */
  lemma LockCanLose(e: R.Entry)
    requires e.index > 0
    ensures var m := Run(Start(PersistFirst, true, 0), BatchTwice(e, 3, 1));
            m.log == [] && m.flash == e.index && m.history.crashes == 1 && m.queue == []
  {
    var m := Start(PersistFirst, true, 0);
    TwoBatches(m, e, 3, 1);
    LockPersists(Delivered(m, e));
    var again := Delivered(Crashed(Advanced(Delivered(m, e), 3)), e);
    assert Advanced(again, 1) == Advanced(AdvanceOne(again), 0);
  }

  lemma OpenerPublishes(m: Machine)
    requires m.order.PublishFirst? && m.pc.Test? && m.queue != [] && Head(m) > m.ram
    ensures var after := Advanced(m, 2);
            && after.log == m.log + [Head(m)] && after.history.crashes == m.history.crashes
            && after.flash == m.flash && after.save == m.save && after.order == m.order
  {
    var tested := AdvanceOne(m);
    assert Advanced(m, 2) == Advanced(tested, 1) == Advanced(AdvanceOne(tested), 0);
  }

  /** One crash can make the opener publish an entry twice. */
  lemma OpenerCanRepeat(e: R.Entry)
    requires e.index > 0
    ensures var m := Run(Start(PublishFirst, true, 0), BatchTwice(e, 2, 2));
            m.log == [e.index, e.index] && m.history.crashes == 1
  {
    var m := Start(PublishFirst, true, 0);
    TwoBatches(m, e, 2, 2);
    OpenerPublishes(Delivered(m, e));
    OpenerPublishes(Delivered(Crashed(Advanced(Delivered(m, e), 2)), e));
  }
}
