/** The failed-code lock-out: a check is refused until count^5 ms after the previous one,
    and an idle guard forgets one failure per tick once 120000*count ms have passed. */
module LockOut {
  import opened Basics
  import opened Lists

  const DECAY_MS := 120000

  /** What the sliding-window bound allows on top of one wrong code per DECAY_MS, in ms. */
  const BURST_MS := 1099175

  function Pow5(n: int): int { n * n * n * n * n }

  /** The two fields behind every code check: `_invalidCount` and `_lastCodeCheck`. */
  datatype Guard = Guard(count: int, last: int)

  /** One step of the protocol. A check reads the clock twice: once for the comparison and once
      for the stamp. A tick compares a reading `ts` that may be older than the moment `at` it acts. */
  datatype Event =
    | Check(asked: int, stamped: int, right: bool)
    | Tick(ts: int, at: int)

  predicate Open(g: Guard, asked: int) {
    Pow5(g.count) + g.last <= asked
  }

  function Step(g: Guard, e: Event): Guard {
    match e
    case Check(asked, stamped, right) =>
      if !Open(g, asked) then g.(last := stamped)
      else if right then Guard(0, stamped)
      else Guard(g.count + 1, stamped)
    case Tick(ts, _) =>
      if g.count > 0 && ts - DECAY_MS * g.count > g.last then g.(count := g.count - 1) else g
  }

  predicate Accepts(g: Guard, e: Event) {
    e.Check? && Open(g, e.asked) && e.right
  }

  function Steps(g: Guard, es: seq<Event>): Guard {
    if es == [] then g else Step(Steps(g, es[..|es| - 1]), es[|es| - 1])
  }

  // ---------------------------------------------------------------- runs and their books

  function Moment(e: Event): int { if e.Check? then e.stamped else e.at }

  function Clock(start: int, es: seq<Event>): int {
    if es == [] then start else Moment(es[|es| - 1])
  }

  /** The clock never runs backwards along the run. */
  predicate Timely(start: int, es: seq<Event>) {
    es == [] ||
    var before, e := es[..|es| - 1], es[|es| - 1];
    Timely(start, before) &&
    match e
    case Check(asked, stamped, _) => Clock(start, before) <= asked <= stamped
    case Tick(ts, at) => ts <= at && Clock(start, before) <= at
  }

  /** The guard with the history of its current window. A window opens with the run or with the
      latest accepted code; `since` and `base` are the check time and count it opened with, `first`
      is when its first wrong code was evaluated, `anchor` the count right after the latest check. */
  datatype Book = Book(guard: Guard, since: int, base: int, first: int, anchor: int, wrong: int, decays: int)

  function OpenBook(g: Guard): Book {
    Book(g, g.last, g.count, g.last, g.count, 0, 0)
  }

  function Record(b: Book, e: Event): Book {
    var g := Step(b.guard, e);
    if Accepts(b.guard, e) then OpenBook(g)
    else if e.Check? && Open(b.guard, e.asked) then
      b.(guard := g, anchor := g.count, wrong := b.wrong + 1, first := if b.wrong == 0 then g.last else b.first)
    else if e.Check? then
      b.(guard := g, anchor := g.count)
    else
      b.(guard := g, decays := b.decays + b.guard.count - g.count)
  }

  function Run(g: Guard, es: seq<Event>): Book {
    if es == [] then OpenBook(g) else Record(Run(g, es[..|es| - 1]), es[|es| - 1])
  }

  lemma {:induction false} RunGuardsAreSteps(g: Guard, es: seq<Event>)
    ensures Run(g, es).guard == Steps(g, es)
  {
    if es != [] {
      RunGuardsAreSteps(g, es[..|es| - 1]);
    }
  }

  // ---------------------------------------------------------------- potentials

  /** Sum of i^5 for i < n: the least time n wrong codes in a row can take. */
  function S(n: nat): int {
    if n == 0 then 0 else S(n - 1) + Pow5(n - 1)
  }

  /** S with each step capped at one decay interval. */
  function Cap(n: nat): int {
    if n == 0 then 0
    else Cap(n - 1) + if Pow5(n - 1) <= DECAY_MS then Pow5(n - 1) else DECAY_MS
  }

  lemma Pow5Monotone(a: nat, b: nat)
    requires a <= b
    ensures 0 <= Pow5(a) <= Pow5(b)
  {
    MulMonotone(a, b, a, b);
    MulMonotone(a * a, b * b, a, b);
    MulMonotone(a * a * a, b * b * b, a, b);
    MulMonotone(a * a * a * a, b * b * b * b, a, b);
  }

  lemma {:induction false} SMonotone(m: nat, n: nat)
    requires m <= n
    ensures 0 <= S(m) <= S(n)
  {
    if n > 0 {
      Pow5Monotone(0, n - 1);
      if m < n {
        SMonotone(m, n - 1);
      } else {
        SMonotone(m - 1, n - 1);
      }
    }
  }

  function Pow2(n: int): int { n * n }
  function Pow4(n: int): int { n * n * n * n }
  function Pow6(n: int): int { n * n * n * n * n * n }

  lemma Successor(m: int)
    ensures Pow2(m + 1) == m * m + 2 * m + 1
    ensures Pow4(m + 1) == Pow4(m) + 4 * (m * m * m) + 6 * (m * m) + 4 * m + 1
    ensures Pow5(m + 1) == Pow5(m) + 5 * Pow4(m) + 10 * (m * m * m) + 10 * (m * m) + 5 * m + 1
    ensures Pow6(m + 1) == Pow6(m) + 6 * Pow5(m) + 15 * Pow4(m) + 20 * (m * m * m) + 15 * (m * m) + 6 * m + 1
  {
    var n, m2, m3, m4, m5 := m + 1, m * m, m * m * m, Pow4(m), Pow5(m);
    assert n * n == m2 + 2 * m + 1;
    assert n * n * n == (m2 + 2 * m + 1) * n == m3 + 3 * m2 + 3 * m + 1;
    assert n * n * n * n == (m3 + 3 * m2 + 3 * m + 1) * n == m4 + 4 * m3 + 6 * m2 + 4 * m + 1;
    assert n * n * n * n * n == (m4 + 4 * m3 + 6 * m2 + 4 * m + 1) * n
        == m5 + 5 * m4 + 10 * m3 + 10 * m2 + 5 * m + 1;
    assert Pow6(n) == (m5 + 5 * m4 + 10 * m3 + 10 * m2 + 5 * m + 1) * n;
  }

  lemma {:induction false} SClosedForm(n: nat)
    ensures 12 * S(n) == 2 * Pow6(n) - 6 * Pow5(n) + 5 * Pow4(n) - Pow2(n)
  {
    if n > 0 {
      SClosedForm(n - 1);
      Successor(n - 1);
    }
  }

  lemma {:induction false} CapBounds(n: nat)
    ensures DECAY_MS * n - BURST_MS <= Cap(n) <= DECAY_MS * n
    ensures 0 <= Cap(n) && (n > 0 ==> Cap(n) <= DECAY_MS * (n - 1))
  {
    if n > 0 {
      CapBounds(n - 1);
      Pow5Monotone(0, n - 1);
      if n <= 11 {
        assert Cap(0) == 0 && Cap(1) == 0 && Cap(2) == 1 && Cap(3) == 33;
        assert Cap(4) == 276 && Cap(5) == 1300 && Cap(6) == 4425;
        assert Cap(7) == 12201 && Cap(8) == 29008 && Cap(9) == 61776;
        assert Cap(10) == 120825 && Cap(11) == 220825;
      } else {
        Pow5Monotone(11, n - 1);
      }
    }
  }

  // ---------------------------------------------------------------- the invariant of a window

  /** Decays booked before the latest check; the rest fell into the gap since. */
  function SettledDecays(b: Book): int { b.decays - (b.anchor - b.guard.count) }

  ghost predicate Kept(b: Book, now: int) {
    && 0 <= b.guard.count <= b.anchor && 0 <= b.base
    && b.guard.last <= now
    && (b.guard.count < b.anchor ==> b.guard.last + DECAY_MS * b.anchor < now)
    && b.wrong == b.guard.count - b.base + b.decays
    && S(b.anchor) - S(b.base) + DECAY_MS * SettledDecays(b) <= b.guard.last - b.since
    && (b.wrong > 0 ==> DECAY_MS * b.wrong + Cap(b.anchor) - DECAY_MS * b.anchor <= b.guard.last - b.first)
    && b.wrong >= 0
  }

  lemma RecordKeeps(b: Book, e: Event, now: int)
    requires Kept(b, now)
    requires match e
             case Check(asked, stamped, _) => now <= asked <= stamped
             case Tick(ts, at) => ts <= at && now <= at
    ensures Kept(Record(b, e), Moment(e))
  {
    var k, c := b.anchor, b.guard.count;
    if e.Check? && !Accepts(b.guard, e) {
      Pow5Monotone(0, c);
      CapBounds(c);
      CapBounds(c + 1);
      CapBounds(k);
      if c < k {
        SMonotone(c, k);
        SMonotone(c + 1, k);
      }
    }
  }

  lemma {:induction false} RunKeeps(g: Guard, start: int, es: seq<Event>)
    requires 0 <= g.count && g.last <= start && Timely(start, es)
    ensures Kept(Run(g, es), Clock(start, es))
  {
    if es != [] {
      RunKeeps(g, start, es[..|es| - 1]);
      RecordKeeps(Run(g, es[..|es| - 1]), es[|es| - 1], Clock(start, es[..|es| - 1]));
    }
  }

  // ---------------------------------------------------------------- main results

  /** Sliding-window rate limit. From any guard, over any interleaving of checks, refused checks
      and ticks without an accepted code, the wrong codes evaluated between the first of them and
      the latest check are at most one per DECAY_MS, plus a burst worth BURST_MS. */
  lemma RateLimit(g: Guard, start: int, es: seq<Event>)
    requires 0 <= g.count && g.last <= start && Timely(start, es)
    ensures var b := Run(g, es);
            b.wrong > 0 ==> DECAY_MS * b.wrong <= b.guard.last - b.first + BURST_MS
  {
    RunKeeps(g, start, es);
    CapBounds(Run(g, es).anchor);
  }

  /** Right after a check, with the window opened at count zero: back-off and decay intervals
      paid so far fit in the time elapsed, and every wrong code is either still counted or decayed. */
  lemma Potential(g: Guard, start: int, es: seq<Event>)
    requires g.count == 0 && g.last <= start && Timely(start, es)
    requires es != [] && es[|es| - 1].Check?
    ensures var b := Run(g, es);
            && 0 <= b.guard.count
            && S(b.guard.count) + DECAY_MS * b.decays <= b.guard.last - b.since
            && b.wrong == b.guard.count + b.decays
  {
    RunKeeps(g, start, es);
    BaseIsZero(g, es);
  }

  lemma {:induction false} BaseIsZero(g: Guard, es: seq<Event>)
    requires g.count == 0
    ensures Run(g, es).base == 0
  {
    if es != [] {
      BaseIsZero(g, es[..|es| - 1]);
    }
  }

  lemma {:induction false} WindowOpensAfter(g: Guard, start: int, es: seq<Event>)
    requires g.last <= start && Timely(start, es)
    ensures g.last <= Run(g, es).since && Run(g, es).guard.last <= Clock(start, es)
    ensures start <= Clock(start, es)
  {
    if es != [] {
      WindowOpensAfter(g, start, es[..|es| - 1]);
    }
  }

  /** From boot (count and check time zero), accepted codes included: the count is never negative
      and n failures on the counter mean S(n) ms of uptime. */
  lemma CountPaysUptime(start: int, es: seq<Event>)
    requires 0 <= start && Timely(start, es)
    ensures var g := Steps(Guard(0, 0), es);
            0 <= g.count && S(g.count) <= g.last <= Clock(start, es)
  {
    var g0 := Guard(0, 0);
    RunGuardsAreSteps(g0, es);
    RunKeeps(g0, start, es);
    BaseIsZero(g0, es);
    WindowOpensAfter(g0, start, es);
    var b := Run(g0, es);
    SMonotone(b.guard.count, b.anchor);
    SettledDecaysNonNegative(g0, start, es);
  }

  lemma {:induction false} SettledDecaysNonNegative(g: Guard, start: int, es: seq<Event>)
    requires 0 <= g.count && g.last <= start && Timely(start, es)
    ensures SettledDecays(Run(g, es)) >= 0
  {
    if es != [] {
      SettledDecaysNonNegative(g, start, es[..|es| - 1]);
      RunKeeps(g, start, es[..|es| - 1]);
    }
  }

  /** With the clock in int64 range no reachable count exceeds 1952, so the 32-bit product
      120000 * count and the 32-bit increment of the count cannot overflow. */
  lemma NoOverflow(start: int, es: seq<Event>)
    requires 0 <= start && Timely(start, es) && Clock(start, es) < 0x8000_0000_0000_0000
    ensures var g := Steps(Guard(0, 0), es);
            0 <= g.count <= 1952 && DECAY_MS * g.count < 0x8000_0000 && g.count + 1 < 0x8000_0000
  {
    CountPaysUptime(start, es);
    var g := Steps(Guard(0, 0), es);
    if g.count > 1952 {
      SMonotone(1953, g.count);
      SClosedForm(1953);
      assert false;
    }
  }

  /** Up to 2^52 ms of uptime every term of the floating-point comparison pow(count, 5) + last
      is an integer of at most 53 bits, so a double holds it. The sum is then exact if `pow` returns a
      fifth power that a double holds without an error of its own, as it should and need not. */
  lemma DoublesAreExact(start: int, es: seq<Event>)
    requires 0 <= start && Timely(start, es) && Clock(start, es) <= 0x10_0000_0000_0000
    ensures var g := Steps(Guard(0, 0), es);
            0 <= Pow5(g.count) <= Pow5(g.count) + g.last <= 0x20_0000_0000_0000
  {
    CountPaysUptime(start, es);
    var g := Steps(Guard(0, 0), es);
    SMonotone(0, g.count);
    if g.count > 548 {
      SMonotone(549, g.count);
      SClosedForm(549);
      assert false;
    }
    Pow5Monotone(g.count, 548);
  }

  // ---------------------------------------------------------------- the bounds are reached

  /** n wrong codes, each at the first moment it is evaluated. */
  function Fastest(n: nat): seq<Event> {
    if n == 0 then [] else Fastest(n - 1) + [Check(S(n), S(n), false)]
  }

  /** S is attained: n wrong codes can be evaluated within S(n) ms. At n = 11 this meets
      RateLimit with equality, so a smaller burst would not do. */
  lemma {:induction false} FastestIsEvaluated(n: nat)
    ensures Timely(0, Fastest(n)) && Clock(0, Fastest(n)) == S(n)
    ensures Run(Guard(0, 0), Fastest(n)) == Book(Guard(n, S(n)), 0, 0, 0, n, n, 0)
    ensures n == 11 ==> DECAY_MS * n == S(n) + BURST_MS
  {
    if n > 0 {
      FastestIsEvaluated(n - 1);
      assert Fastest(n)[..|Fastest(n)| - 1] == Fastest(n - 1);
      SMonotone(n - 1, n);
      if n == 11 {
        SClosedForm(11);
      }
    }
  }

  /** One wrong code, and n times a wait of one millisecond more than the decay interval, a tick
      and another wrong code. */
  function Steady(n: nat): seq<Event> {
    if n == 0 then [Check(0, 0, false)]
    else
      var t := (DECAY_MS + 1) * n;
      Steady(n - 1) + [Tick(t, t)] + [Check(t, t, false)]
  }

  /** One wrong code every DECAY_MS + 1 ms can go on for ever, so no interval longer than that
      would do, whatever the burst. */
  lemma {:induction false} SteadyIsEvaluated(n: nat)
    ensures var t := (DECAY_MS + 1) * n;
            && Timely(0, Steady(n)) && Clock(0, Steady(n)) == t
            && Run(Guard(0, 0), Steady(n)) == Book(Guard(1, t), 0, 0, 0, 1, n + 1, n)
  {
    var es := Steady(n);
    if n > 0 {
      SteadyIsEvaluated(n - 1);
      var t := (DECAY_MS + 1) * n;
      var ticked := Steady(n - 1) + [Tick(t, t)];
      assert es[..|es| - 1] == ticked && ticked[..|ticked| - 1] == Steady(n - 1);
      assert Timely(0, ticked) && Clock(0, ticked) == t;
    } else {
      assert es[..0] == [];
    }
  }

  // ---------------------------------------------------------------- release and refusal

  function Ticks(ts: seq<int>): (es: seq<Event>)
    ensures |es| == |ts|
  {
    seq(|ts|, i requires 0 <= i < |ts| => Tick(ts[i], ts[i]))
  }

  /** The ticks that come more than DECAY_MS * count after the latest check. */
  function Late(g: Guard, ts: seq<int>): nat {
    if ts == [] then 0
    else Late(g, ts[..|ts| - 1]) + if ts[|ts| - 1] > g.last + DECAY_MS * g.count then 1 else 0
  }

  /** Release, exactly: without checks no tick up to last + 120000*count changes the guard, and
      every later one takes a failure off, because the threshold falls with the count. */
  lemma {:induction false} Release(g: Guard, ts: seq<int>)
    requires 0 <= g.count && Sorted(ts, ITSELF)
    ensures Steps(g, Ticks(ts)) ==
            g.(count := if Late(g, ts) <= g.count then g.count - Late(g, ts) else 0)
  {
    if ts != [] {
      var before := ts[..|ts| - 1];
      Release(g, before);
      assert Ticks(ts)[..|ts| - 1] == Ticks(before);
      if Late(g, before) > 0 {
        LateIsForGood(g, before, ts[|ts| - 1]);
      }
    }
  }

  lemma {:induction false} LateIsForGood(g: Guard, ts: seq<int>, t: int)
    requires Sorted(ts + [t], ITSELF) && Late(g, ts) > 0
    ensures t > g.last + DECAY_MS * g.count
  {
    var before, u := ts[..|ts| - 1], ts[|ts| - 1];
    assert (ts + [t])[|ts| - 1] == u && (ts + [t])[|ts|] == t;
    if u <= g.last + DECAY_MS * g.count {
      assert forall i :: 0 <= i < |ts| ==> (ts + [t])[i] == ts[i];
      LateIsForGood(g, before, u);
    }
  }

  /** When the latest attempt of a run was made, refused or not; `last` if there is none. */
  function LatestAttempt(last: int, es: seq<Event>): int {
    if es == [] then last
    else if es[|es| - 1].Check? then es[|es| - 1].stamped
    else LatestAttempt(last, es[..|es| - 1])
  }

  /** Over every run the guard waits from the latest attempt, whatever came of it: a refused check
      starts the wait again. */
  lemma {:induction false} WaitsFromLatestAttempt(g: Guard, es: seq<Event>)
    ensures Steps(g, es).last == LatestAttempt(g.last, es)
  {
    if es != [] {
      WaitsFromLatestAttempt(g, es[..|es| - 1]);
    }
  }

  /** Every check comes less than count^5 ms after the attempt before it, for the count at the start;
      ticks may come at any time. */
  predicate Hasty(g: Guard, es: seq<Event>) {
    es == [] ||
    var before, e := es[..|es| - 1], es[|es| - 1];
    Hasty(g, before) && (e.Check? ==> e.asked < LatestAttempt(g.last, before) + Pow5(g.count))
  }

  predicate AllRefused(g: Guard, es: seq<Event>) {
    es == [] ||
    var before, e := es[..|es| - 1], es[|es| - 1];
    AllRefused(g, before) && (e.Check? ==> !Open(Steps(g, before), e.asked))
  }

  /** Up to a count of 18 the wait is over before a failure can decay. */
  lemma BackOffBeforeDecay(n: nat)
    ensures n <= 18 ==> Pow5(n) <= DECAY_MS * n
    ensures n >= 19 ==> Pow5(n) > DECAY_MS * n + 1
  {
    if n <= 18 {
      MulMonotone(n, 18, n, 18);
      MulMonotone(n * n, 324, n * n, 324);
      assert Pow5(n) == (n * n) * (n * n) * n;
      MulMonotone((n * n) * (n * n), DECAY_MS, n, n);
    } else {
      MulMonotone(19, n, 19, n);
      MulMonotone(361, n * n, 361, n * n);
      assert Pow5(n) == (n * n) * (n * n) * n;
      MulMonotone(130321, (n * n) * (n * n), n, n);
    }
  }

  lemma {:induction false} HastyKeepsCount(g: Guard, start: int, es: seq<Event>)
    requires 0 <= g.count <= 18 && Timely(start, es) && Hasty(g, es)
    ensures AllRefused(g, es)
    ensures var s := Steps(g, es);
            && s.count <= g.count
            && (s.count < g.count ==> LatestAttempt(g.last, es) + DECAY_MS * g.count < Clock(start, es))
  {
    WaitsFromLatestAttempt(g, es);
    if es != [] {
      HastyKeepsCount(g, start, es[..|es| - 1]);
      WaitsFromLatestAttempt(g, es[..|es| - 1]);
      BackOffBeforeDecay(g.count);
    }
  }

  function Copies(t: int, n: nat): (ts: seq<int>)
    ensures |ts| == n
  {
    seq(n, i => t)
  }

  /** As many late ticks at one moment as there are failures, and then a right code. */
  function WaitAndEnter(g: Guard): seq<Event>
    requires 0 <= g.count
  {
    var t := g.last + DECAY_MS * g.count + 1;
    Ticks(Copies(t, g.count)) + [Check(t, t, true)]
  }

  lemma {:induction false} TicksAtOnce(g: Guard, t: int, n: nat)
    requires t > g.last + DECAY_MS * g.count
    ensures Late(g, Copies(t, n)) == n
    ensures Timely(t, Ticks(Copies(t, n))) && Clock(t, Ticks(Copies(t, n))) == t && Hasty(g, Ticks(Copies(t, n)))
  {
    if n > 0 {
      TicksAtOnce(g, t, n - 1);
      assert Copies(t, n)[..n - 1] == Copies(t, n - 1);
      assert Ticks(Copies(t, n))[..n - 1] == Ticks(Copies(t, n - 1));
    }
  }

  /** From a count of 19 on a hasty caller gets in: the failures decay before the wait is over. */
  lemma WaitAndEnterIsAccepted(g: Guard)
    requires 19 <= g.count
    ensures var t, es := g.last + DECAY_MS * g.count + 1, WaitAndEnter(g);
            && Timely(t, es) && Hasty(g, es) && !AllRefused(g, es)
            && Steps(g, es) == Guard(0, t)
  {
    var t, es := g.last + DECAY_MS * g.count + 1, WaitAndEnter(g);
    var ticks := Ticks(Copies(t, g.count));
    assert es[..|es| - 1] == ticks;
    TicksAtOnce(g, t, g.count);
    Release(g, Copies(t, g.count));
    WaitsFromLatestAttempt(g, ticks);
    BackOffBeforeDecay(g.count);
  }

  predicate HastyRun(g: Guard, start: int, es: seq<Event>) {
    Timely(start, es) && Hasty(g, es)
  }

  /** A refused check starts the wait again. So a caller who never lets count^5 ms pass since its
      previous attempt is refused every time, whatever codes it offers and whatever ticks come in
      between, exactly if the count it starts from is at most 18. */
  lemma HastyCallerStaysOut(g: Guard)
    requires 0 <= g.count
    ensures (forall start: int, es: seq<Event> :: HastyRun(g, start, es) ==> AllRefused(g, es)) <==> g.count <= 18
  {
    if g.count <= 18 {
      forall start: int, es: seq<Event> | HastyRun(g, start, es) ensures AllRefused(g, es) {
        HastyKeepsCount(g, start, es);
      }
    } else {
      WaitAndEnterIsAccepted(g);
      assert HastyRun(g, g.last + DECAY_MS * g.count + 1, WaitAndEnter(g));
    }
  }
}
