/** Polling the opener's state: failed queries are retried after a fixed delay, then ever later, and
    status signals of the device bring queries forward. */
module PollBackoff {
  import opened Basics

  /** The settings after `readSettings` has replaced unusable ones. */
  datatype Config = Config(retries: nat, delay: nat, interval: int)

  function ReadConfig(nrOfRetries: int, retryDelay: int, intervalLockstate: int): (c: Config)
    ensures c.delay >= 100 && c.interval != 0
    ensures 0 <= nrOfRetries != 200 ==> c.retries == nrOfRetries
    ensures retryDelay >= 100 ==> c.delay == retryDelay
    ensures intervalLockstate != 0 ==> c.interval == intervalLockstate
    ensures nrOfRetries < 0 || nrOfRetries == 200 ==> c.retries == 3
    ensures retryDelay < 100 ==> c.delay == 100
    ensures intervalLockstate == 0 ==> c.interval == 1800
  {
    Config(if nrOfRetries < 0 || nrOfRetries == 200 then 3 else nrOfRetries,
           if retryDelay < 100 then 100 else retryDelay,
           if intervalLockstate == 0 then 60 * 30 else intervalLockstate)
  }

  /** What the device answers: nothing usable, or a state with what becomes of it: whether the status
      stays updated, and whether the next query is brought forward for an undefined lock state. */
  datatype Reply = Failed | Answered(updated: bool, undefined: bool)

  /** One pass of the loop: its clock reading, the reading when the reply is in, whether a
      query command is waiting, and the reply if the device is asked. */
  datatype Pass = Pass(ts: int, done: int, query: bool, reply: Reply)

  /** A pass, or a signal of the device: that its status has changed, or that it takes this back. */
  datatype Event = Tick(pass: Pass) | StatusUpdated | StatusReset

  /** `signals` counts the status signals since they were last taken back. */
  datatype Poll = Poll(next: int, failures: int, statusUpdated: bool, signals: nat)

  const MAX_SIGNALS := 5

  predicate OnTime(p: Poll, s: Pass) { p.next == 0 || s.ts >= p.next }

  predicate Queries(p: Poll, s: Pass) { p.statusUpdated || OnTime(p, s) || s.query }

  /** The wait set by the k-th failure in a row. */
  function Wait(c: Config, k: int): int {
    if k < c.retries + 1 then c.delay else k * 333
  }

  function Step(c: Config, p: Poll, e: Event): Poll {
    match e
    case StatusUpdated =>
      if !p.statusUpdated && p.signals < MAX_SIGNALS then p.(signals := p.signals + 1, statusUpdated := true) else p
    case StatusReset => p.(signals := 0)
    case Tick(s) =>
      if !Queries(p, s) then p
      else match s.reply
        case Failed => p.(next := s.done + Wait(c, p.failures + 1), failures := p.failures + 1, statusUpdated := false)
        case Answered(updated, undefined) =>
          var next := s.ts + c.interval * 1000;
          p.(next := if undefined && next > s.done + 60000 then s.done + 60000 else next,
             failures := 0, statusUpdated := updated)
  }

  /** A run and what it did: the clock readings at which the device was asked, how many of these
      queries came before their time, the waits the others respected (the first one's apart), and how
      often the device took its signals back. */
  datatype Trace = Trace(poll: Poll, asked: seq<int>, early: nat, waits: int, resets: nat)

  function Follow(c: Config, p: Poll, events: seq<Event>): Trace {
    if events == [] then Trace(p, [], 0, 0, 0)
    else
      var t, e := Follow(c, p, events[..|events| - 1]), events[|events| - 1];
      var next := t.(poll := Step(c, t.poll, e), resets := if e.StatusReset? then t.resets + 1 else t.resets);
      if !e.Tick? || !Queries(t.poll, e.pass) then next
      else
        next.(asked := t.asked + [e.pass.ts],
              early := if OnTime(t.poll, e.pass) then t.early else t.early + 1,
              waits := if t.asked != [] && OnTime(t.poll, e.pass) then t.waits + Wait(c, t.poll.failures) else t.waits)
  }

  // ---------------------------------------------------------------- failing runs

  /** The clock when the last pass was over. */
  function Latest(events: seq<Event>): int {
    if events == [] then 0
    else if events[|events| - 1].Tick? then events[|events| - 1].pass.done
    else Latest(events[..|events| - 1])
  }

  /** No query command is waiting, the device never answers, the clock is positive and does not run
      backwards; signals come at any time. */
  predicate Fruitless(events: seq<Event>) {
    events == [] ||
    (var before, e := events[..|events| - 1], events[|events| - 1];
     Fruitless(before) && (e.Tick? ==> Unanswered(e.pass) && Latest(before) <= e.pass.ts))
  }

  predicate Unanswered(s: Pass) { !s.query && s.reply == Failed && 0 < s.ts <= s.done }

  /** The failure count counts the queries, and the next one is due when the wait has passed. */
  lemma {:induction false} FruitlessState(c: Config, p: Poll, events: seq<Event>)
    requires Fruitless(events) && p.failures >= 0
    ensures var t := Follow(c, p, events);
            && t.poll.failures == p.failures + |t.asked|
            && (t.asked != [] ==>
                  var last := t.asked[|t.asked| - 1];
                  t.poll.next > 0 && t.poll.next >= last + Wait(c, t.poll.failures) && Latest(events) >= last)
  {
    if events != [] {
      FruitlessState(c, p, events[..|events| - 1]);
    }
  }

  /** Back-off: in a run of failed queries, from the first to the last lie at least the waits of those
      between them that were not brought forward by a signal. */
  lemma {:induction false} BackOff(c: Config, p: Poll, events: seq<Event>)
    requires Fruitless(events) && p.failures >= 0
    ensures var t := Follow(c, p, events);
            if t.asked == [] then t.waits == 0 else t.asked[|t.asked| - 1] - t.asked[0] >= t.waits
  {
    if events != [] {
      var before := events[..|events| - 1];
      BackOff(c, p, before);
      FruitlessState(c, p, before);
    }
  }

  function One(b: bool): nat { if b then 1 else 0 }

  /** Between two of the device's resets at most five signals count, so in a failing run at most five
      queries come early (and one more if the run starts with a signal pending). */
  lemma {:induction false} EarlyQueriesAreFew(c: Config, p: Poll, events: seq<Event>)
    requires Fruitless(events) && p.signals <= MAX_SIGNALS
    ensures var t := Follow(c, p, events);
            && t.poll.signals <= MAX_SIGNALS
            && t.early + One(t.poll.statusUpdated) + p.signals
                 <= One(p.statusUpdated) + MAX_SIGNALS * t.resets + t.poll.signals
  {
    if events != [] {
      EarlyQueriesAreFew(c, p, events[..|events| - 1]);
    }
  }

  /** Waits set by the failures after `from`, up to the one before failure `to`. */
  function WaitSum(c: Config, from: nat, to: nat): int {
    if to <= from + 1 then 0 else WaitSum(c, from, to - 1) + Wait(c, to - 1)
  }

  /** Without early queries the waits are all those the failures set. */
  lemma {:induction false} AllWaitsCount(c: Config, p: Poll, events: seq<Event>)
    requires Fruitless(events) && p.failures >= 0 && Follow(c, p, events).early == 0
    ensures Follow(c, p, events).waits == WaitSum(c, p.failures, p.failures + |Follow(c, p, events).asked|)
  {
    if events != [] {
      AllWaitsCount(c, p, events[..|events| - 1]);
      FruitlessState(c, p, events[..|events| - 1]);
    }
  }

  /** The waits grow as a square: past the retries each is 333 ms longer than the last. Each early
      query costs at most one of the longest. */
  lemma {:induction false} WaitsGrowAsASquare(c: Config, p: Poll, events: seq<Event>)
    requires Fruitless(events) && p.failures == 0
    ensures var t := Follow(c, p, events);
            t.waits >= 0 && Enough(c.retries, |t.asked|, t.early, t.waits)
  {
    if events != [] {
      var before, e := events[..|events| - 1], events[|events| - 1];
      WaitsGrowAsASquare(c, p, before);
      FruitlessState(c, p, before);
      var t := Follow(c, p, before);
      if e.Tick? && Queries(t.poll, e.pass) {
        OneMoreQuery(c, |t.asked|, t.early, t.waits, OnTime(t.poll, e.pass));
      }
    } else {
      MulMonotone(0, c.retries + 1, 0, c.retries);
    }
  }

  /** Twice these waits are at least 333 ms * (m(m-1) - r(r+1) - 2e(m-1)). */
  predicate Enough(r: nat, m: nat, e: nat, waits: int) {
    m == 0 || 2 * waits >= 333 * (m * (m - 1) - (r + 1) * r - 2 * e * (m - 1))
  }

  lemma OneMoreQuery(c: Config, m: nat, e: nat, waits: int, onTime: bool)
    requires waits >= 0 && Enough(c.retries, m, e, waits)
    ensures onTime ==> Enough(c.retries, m + 1, e, if m > 0 then waits + Wait(c, m) else waits)
    ensures !onTime ==> Enough(c.retries, m + 1, e + 1, waits)
  {
    var r := c.retries;
    MulMonotone(0, e, 0, m);
    assert 2 * (e + 1) * m == 2 * e * m + 2 * m;
    if m <= r {
      MulMonotone(m + 1, r + 1, m, r);
    } else {
      assert (m + 1) * m == m * (m - 1) + 2 * m;
      assert 2 * e * m == 2 * e * (m - 1) + 2 * e;
    }
  }

  /** From a cleared failure count, m failed queries in a row take quadratic time, less what the early
      ones save: at most five of them for each time the device took its signals back, and six. */
  lemma QuadraticBackOff(c: Config, p: Poll, events: seq<Event>)
    requires Fruitless(events) && p.failures == 0 && p.signals <= MAX_SIGNALS
    ensures var t := Follow(c, p, events);
            && t.early <= MAX_SIGNALS * (t.resets + 1) + 1
            && (t.asked != [] ==> Enough(c.retries, |t.asked|, t.early, t.asked[|t.asked| - 1] - t.asked[0]))
  {
    BackOff(c, p, events);
    EarlyQueriesAreFew(c, p, events);
    WaitsGrowAsASquare(c, p, events);
  }

  /** One answer ends the back-off: whatever failed before it, the failing run after it is spaced as
      one from the start. */
  lemma AnswerResets(c: Config, p: Poll, answered: Pass, events: seq<Event>)
    requires Queries(p, answered) && answered.reply.Answered? && p.signals <= MAX_SIGNALS && Fruitless(events)
    ensures var t := Follow(c, Step(c, p, Tick(answered)), events);
            var m := |t.asked|;
            && (m > 0 ==> Enough(c.retries, m, t.early, t.asked[m - 1] - t.asked[0]))
            && (m > 0 && t.early == 0 ==> t.asked[m - 1] - t.asked[0] >= WaitSum(c, 0, m))
  {
    var q := Step(c, p, Tick(answered));
    QuadraticBackOff(c, q, events);
    BackOff(c, q, events);
    if Follow(c, q, events).early == 0 {
      AllWaitsCount(c, q, events);
    }
  }

  // ---------------------------------------------------------------- after an answer

  /** Neither a status signal nor a query command comes; signals may be taken back. */
  predicate Calm(events: seq<Event>) {
    forall i :: 0 <= i < |events| ==> !events[i].StatusUpdated? && (events[i].Tick? ==> !events[i].pass.query)
  }

  /** While nothing brings a query forward, the device is asked by the first pass from the due time on. */
  lemma {:induction false} AskedWhenDue(c: Config, p: Poll, events: seq<Event>)
    requires !p.statusUpdated && p.next != 0 && Calm(events)
    ensures var t := Follow(c, p, events);
            && (t.asked == [] <==> forall i :: 0 <= i < |events| && events[i].Tick? ==> events[i].pass.ts < p.next)
            && (t.asked == [] ==> t.poll == p.(signals := t.poll.signals))
  {
    if events != [] {
      var before, e := events[..|events| - 1], events[|events| - 1];
      assert forall i :: 0 <= i < |before| ==> before[i] == events[i];
      AskedWhenDue(c, p, before);
    }
  }

  /** Over every calm run after a settled answer, the next query is due `interval` seconds after the
      query, but no later than a minute after the answer if the opener's state is undefined. The device
      is left alone while the clock is before that, and asked by the first pass that finds it reached. */
  lemma AskedAgainWhenDue(c: Config, p: Poll, answered: Pass, events: seq<Event>, next: Pass, due: int)
    requires Queries(p, answered) && answered.reply.Answered? && !answered.reply.updated
    requires Calm(events) && !next.query
    requires due != 0 && due == if answered.reply.undefined && answered.done + 60000 < answered.ts + 1000 * c.interval
                                then answered.done + 60000 else answered.ts + 1000 * c.interval
    ensures var t := Follow(c, Step(c, p, Tick(answered)), events);
            && (t.asked == [] <==> forall i :: 0 <= i < |events| && events[i].Tick? ==> events[i].pass.ts < due)
            && (t.asked == [] ==> (Queries(t.poll, next) <==> next.ts >= due))
  {
    AskedWhenDue(c, Step(c, p, Tick(answered)), events);
  }

  /** After an answer that leaves the status to be updated the next pass asks again; after a failure the
      next pass is due `delay` later up to the configured retries, then 333 ms later for each failure. */
  lemma AskedAgainAtOnce(c: Config, p: Poll, s: Pass, next: Pass)
    requires Queries(p, s)
    ensures s.reply.Answered? && s.reply.updated ==> Queries(Step(c, p, Tick(s)), next)
    ensures s.reply.Failed? && !next.query && p.failures >= 0 && s.done > 0 ==>
              var k := p.failures + 1;
              var due := s.done + if k <= c.retries then c.delay else 333 * k;
              Queries(Step(c, p, Tick(s)), next) <==> next.ts >= due
  {
  }

  // ---------------------------------------------------------------- the code

  class OpenerPolling {
    const config: Config
    var nextLockStateUpdateTs: int
    var retryLockstateCount: int
    var statusUpdated: bool
    var newSignal: nat

    constructor (nrOfRetries: int, retryDelay: int, intervalLockstate: int)
      ensures config == ReadConfig(nrOfRetries, retryDelay, intervalLockstate) && State() == Poll(0, 0, false, 0)
    {
      config := ReadConfig(nrOfRetries, retryDelay, intervalLockstate);
      nextLockStateUpdateTs, retryLockstateCount, statusUpdated, newSignal := 0, 0, false, 0;
    }

    function State(): Poll
      reads this
    {
      Poll(nextLockStateUpdateTs, retryLockstateCount, statusUpdated, newSignal)
    }

    /** A signal counts unless one is pending or five have counted since they were taken back. */
    method Notify(event: Event)
      requires !event.Tick?
      modifies this`statusUpdated, this`newSignal
      ensures State() == Step(config, old(State()), event)
      ensures var counts := event.StatusUpdated? && !old(statusUpdated) && old(newSignal) < 5;
              && statusUpdated == (old(statusUpdated) || counts)
              && newSignal == if event.StatusReset? then 0 else old(newSignal) + if counts then 1 else 0
    {
      if event == StatusReset {
        newSignal := 0;
      } else if !statusUpdated && newSignal < 5 {
        newSignal := newSignal + 1;
        statusUpdated := true;
      }
    }

    method Update(s: Pass)
      modifies this`nextLockStateUpdateTs, this`retryLockstateCount, this`statusUpdated
      ensures State() == Step(config, old(State()), Tick(s))
      ensures var asks := old(statusUpdated) || old(nextLockStateUpdateTs) == 0
                          || s.ts >= old(nextLockStateUpdateTs) || s.query;
              && (!asks ==> State() == old(State()))
              && (asks && s.reply.Answered? ==>
                    retryLockstateCount == 0 && statusUpdated == s.reply.updated
                    && nextLockStateUpdateTs ==
                         if s.reply.undefined && s.done + 60000 < s.ts + 1000 * config.interval then s.done + 60000
                         else s.ts + 1000 * config.interval)
              && (asks && s.reply.Failed? ==>
                    retryLockstateCount == old(retryLockstateCount) + 1 && !statusUpdated
                    && nextLockStateUpdateTs == s.done +
                         if retryLockstateCount <= config.retries then config.delay else 333 * retryLockstateCount)
    {
      if statusUpdated || nextLockStateUpdateTs == 0 || s.ts >= nextLockStateUpdateTs || s.query {
        nextLockStateUpdateTs := s.ts + config.interval * 1000;
        statusUpdated := UpdateKeyTurnerState(s.reply, s.done);
      }
    }

    method UpdateKeyTurnerState(reply: Reply, now: int) returns (updateStatus: bool)
      modifies this`nextLockStateUpdateTs, this`retryLockstateCount
      ensures reply == Failed ==>
                !updateStatus && retryLockstateCount == old(retryLockstateCount) + 1
                && nextLockStateUpdateTs == now + Wait(config, retryLockstateCount)
      ensures reply.Answered? ==>
                updateStatus == reply.updated && retryLockstateCount == 0
                && nextLockStateUpdateTs ==
                     if reply.undefined && old(nextLockStateUpdateTs) > now + 60000 then now + 60000
                     else old(nextLockStateUpdateTs)
    {
      if reply == Failed {
        retryLockstateCount := retryLockstateCount + 1;
        if retryLockstateCount < config.retries + 1 {
          nextLockStateUpdateTs := now + config.delay;
        } else {
          nextLockStateUpdateTs := now + retryLockstateCount * 333;
        }
        return false;
      }
      retryLockstateCount := 0;
      if reply.undefined && nextLockStateUpdateTs > now + 60000 {
        nextLockStateUpdateTs := now + 60000;
      }
      updateStatus := reply.updated;
    }
  }
}
