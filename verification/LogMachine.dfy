/** The loop over a batch of log entries as a machine of micro-steps, which watermark raises and
    crashes may come between. The lock persists the watermark before it publishes an entry; the
    opener publishes first, and rings in between. */
module LogMachine {
  import opened Lists
  import R = RollingLog

  datatype Order = PersistFirst | PublishFirst

  /** Where the loop over the batch stands: at the test of the next entry, or before a micro-step. */
  datatype Pc = Test | Assign | Persist | PublishEntry | PublishLast | Ring

  /** `ram` and `flash` are the two copies of the watermark, `queue` the rest of the batch, `log`
      every index published and `rings` every ring sent since the hub was set up, `retained` the
      `lastRollingLog` topic. */
  datatype Machine = Machine(
    order: Order, save: bool, ram: nat, flash: nat, pc: Pc, queue: seq<R.Entry>,
    log: seq<nat>, rings: seq<bool>, retained: nat, history: History)

  /** `crashes` so far; `settled` are the indices whose watermark reached flash after their
      publication, `announced` those whose watermark reached the topic, `lost` those in flash that a
      crash kept from being published. `bells` are the locked flags of the doorbell entries the
      opener published, `quiet` those whose ring test found the watermark zero, `cut` those a crash
      kept from their ring test. */
  datatype History = History(
    crashes: nat, settled: seq<nat>, announced: seq<nat>, lost: set<nat>,
    bells: seq<bool>, quiet: seq<bool>, cut: seq<bool>)

  /** A reboot is a crash after which the retained watermark arrives before the next batch. */
  datatype Action = Deliver(batch: seq<R.Entry>) | Advance | Crash | Reboot | Raise(value: int)

  function FirstStep(order: Order): Pc { if order.PersistFirst? then Assign else PublishEntry }

  function Head(m: Machine): nat
    requires m.queue != []
  {
    m.queue[0].index
  }

  function AdvanceOne(m: Machine): Machine {
    if m.queue == [] then m
    else
      var e, h := m.queue[0], m.history;
      match m.pc
      case Test =>
        if e.index > m.ram then m.(pc := FirstStep(m.order)) else m.(queue := m.queue[1..])
      case Assign =>
        m.(ram := e.index, pc := Persist)
      case Persist =>
        var p := if m.save then m.(flash := m.ram) else m;
        if m.order.PersistFirst? then p.(pc := PublishEntry)
        else p.(pc := Test, queue := m.queue[1..], history := h.(settled := h.settled + [e.index]))
      case PublishEntry =>
        var bells := if m.order.PublishFirst? && e.doorbell then h.bells + [R.Locked(e)] else h.bells;
        m.(log := m.log + [e.index], pc := PublishLast, history := h.(bells := bells))
      case PublishLast =>
        var p := m.(retained := e.index, history := h.(announced := h.announced + [e.index]));
        if m.order.PublishFirst? then p.(pc := Ring) else p.(pc := Test, queue := m.queue[1..])
      case Ring =>
        if !e.doorbell then m.(pc := Assign)
        else if m.ram > 0 then m.(pc := Assign, rings := m.rings + [R.Locked(e)])
        else m.(pc := Assign, history := h.(quiet := h.quiet + [R.Locked(e)]))
  }

  function Apply(m: Machine, a: Action): Machine {
    match a
    case Deliver(batch) => if m.pc.Test? && m.queue == [] then m.(queue := batch) else m
    case Advance => AdvanceOne(m)
    case Crash => Crashed(m)
    case Reboot => Raised(Crashed(m), m.retained)
    case Raise(value) => Raised(m, value)
  }

  function Crashed(m: Machine): Machine {
    var h := m.history;
    m.(ram := if m.save then m.flash else 0, pc := Test, queue := [],
       history := h.(crashes := h.crashes + 1,
                     lost := if Unpublished(m) then h.lost + {Head(m)} else h.lost,
                     cut := if BellPending(m) then h.cut + [R.Locked(m.queue[0])] else h.cut))
  }

  function Raised(m: Machine, value: int): Machine {
    if !m.save && value > 0 && value > m.ram then m.(ram := value) else m
  }

  /** Between the lock's persisting of an entry and its publication. */
  predicate Unpublished(m: Machine) {
    m.order.PersistFirst? && m.save && m.pc.PublishEntry? && m.queue != []
  }

  /** Between the opener's publication of a doorbell entry and its ring test. */
  predicate BellPending(m: Machine) {
    m.order.PublishFirst? && m.pc in {PublishLast, Ring} && m.queue != [] && m.queue[0].doorbell
  }

  /** The entry at hand is published. */
  predicate Published(m: Machine) {
    m.queue != [] && m.pc in if m.order.PersistFirst? then {PublishLast} else {PublishLast, Ring, Assign, Persist}
  }

  /** The watermark in memory is past the entry at hand. */
  predicate Assigned(m: Machine) {
    m.queue != [] && m.pc in if m.order.PersistFirst? then {Persist, PublishEntry, PublishLast} else {Persist}
  }

  function Start(order: Order, save: bool, watermark: nat): Machine {
    Machine(order, save, if save then watermark else 0, watermark, Test, [], [], [], 0,
            History(0, [], [], {}, [], [], []))
  }

  function Run(m: Machine, actions: seq<Action>): Machine {
    if actions == [] then m else Apply(Run(m, actions[..|actions| - 1]), actions[|actions| - 1])
  }

  lemma StepKeepsMode(m: Machine, a: Action)
    ensures Apply(m, a).order == m.order && Apply(m, a).save == m.save
  {
  }

  lemma {:induction false} OrderIsFixed(m: Machine, actions: seq<Action>)
    ensures Run(m, actions).order == m.order
  {
    if actions != [] {
      OrderIsFixed(m, actions[..|actions| - 1]);
      StepKeepsMode(Run(m, actions[..|actions| - 1]), actions[|actions| - 1]);
    }
  }

  // ---------------------------------------------------------------- the log within a boot

  ghost predicate AtMost(log: seq<nat>, bound: nat) {
    forall x :: x in log ==> x <= bound
  }

  ghost predicate Below(log: seq<nat>, bound: nat) {
    forall x :: x in log ==> x < bound
  }

  lemma AppendIncreasing(log: seq<nat>, x: nat)
    requires Increasing(log, ITSELF) && Below(log, x)
    ensures Increasing(log + [x], ITSELF) && AtMost(log + [x], x)
  {
    assert forall i :: 0 <= i < |log| ==> log[i] in log;
  }

  /** Holds through a boot in either order, with saving on or off, raises at any micro-step. */
  ghost predicate Rising(m: Machine) {
    && Increasing(m.log, ITSELF)
    && (m.pc.Ring? ==> m.order.PublishFirst?)
    && (m.pc.Test? ==> AtMost(m.log, m.ram))
    && (!m.pc.Test? ==> m.queue != [] && Head(m) > 0)
    && (!m.pc.Test? && Published(m) ==> AtMost(m.log, Head(m)))
    && (!m.pc.Test? && !Published(m) ==> Below(m.log, Head(m)))
    && (Assigned(m) ==> m.ram >= Head(m))
  }

  lemma RisingStep(m: Machine, a: Action)
    requires Rising(m) && a != Crash && a != Reboot
    ensures Rising(Apply(m, a))
  {
    if a.Advance? {
      if m.pc.PublishEntry? {
        RisingAtPublish(m);
      } else if m.pc.Test? {
        RisingAtTest(m);
      } else {
        RisingElsewhere(m);
      }
    }
  }

  lemma RisingAtPublish(m: Machine)
    requires Rising(m) && m.pc.PublishEntry?
    ensures Rising(AdvanceOne(m))
  {
    AppendIncreasing(m.log, Head(m));
  }

  lemma RisingAtTest(m: Machine)
    requires Rising(m) && m.pc.Test?
    ensures Rising(AdvanceOne(m))
  {
  }

  lemma RisingElsewhere(m: Machine)
    requires Rising(m) && m.pc in {Assign, Persist, PublishLast, Ring}
    ensures Rising(AdvanceOne(m))
  {
  }

  /** Without a crash the published indices are strictly increasing: for both publishing orders,
      any batches (sorted or not), and watermark raises arriving between any two micro-steps. */
  lemma {:induction false} OneBootIsIncreasing(order: Order, save: bool, watermark: nat, actions: seq<Action>)
    requires Crash !in actions && Reboot !in actions
    ensures Rising(Run(Start(order, save, watermark), actions))
    ensures Increasing(Run(Start(order, save, watermark), actions).log, ITSELF)
  {
    if actions != [] {
      var before, a := actions[..|actions| - 1], actions[|actions| - 1];
      assert a in actions && forall b :: b in before ==> b in actions;
      OneBootIsIncreasing(order, save, watermark, before);
      RisingStep(Run(Start(order, save, watermark), before), a);
    }
  }

  // ---------------------------------------------------------------- raises while an entry is rolled

  function StepsLeft(pc: Pc, order: Order): nat {
    match pc
    case Test => 0
    case Persist => if order.PersistFirst? then 3 else 1
    case Assign => if order.PersistFirst? then 4 else 2
    case PublishEntry => if order.PersistFirst? then 2 else 5
    case PublishLast => if order.PersistFirst? then 1 else 4
    case Ring => if order.PersistFirst? then 5 else 3
  }

  /** The machine when it is through with the entry at hand. */
  function FinishEntry(m: Machine): Machine
    decreases StepsLeft(m.pc, m.order)
  {
    if m.pc.Test? || m.queue == [] then m else FinishEntry(AdvanceOne(m))
  }

  lemma {:induction false} FinishedWatermark(m: Machine)
    requires m.queue != [] && !m.pc.Test?
    ensures FinishEntry(m).ram == if Assigned(m) then m.ram else Head(m)
    decreases StepsLeft(m.pc, m.order)
  {
    var next := AdvanceOne(m);
    if !next.pc.Test? {
      FinishedWatermark(next);
    }
  }

  /** Exactly when a raise that arrives while an entry is being rolled is forgotten: the machine has
      not assigned that entry's index yet, which is below the raise, and assigns it over the raise.
      A machine past the assignment ends with the raised watermark. */
  lemma RaiseDuringRoll(m: Machine, value: int)
    requires m.queue != [] && !m.pc.Test? && !m.save && value > m.ram
    ensures FinishEntry(Raised(m, value)).ram == if Assigned(m) then value else Head(m)
    ensures FinishEntry(Raised(m, value)).ram < value <==> !Assigned(m) && Head(m) < value
  {
    FinishedWatermark(Raised(m, value));
  }

  lemma {:induction false} RunOfSum(m: Machine, a: seq<Action>, b: seq<Action>)
    ensures Run(m, a + b) == Run(Run(m, a), b)
  {
    if b == [] {
      assert a + b == a;
    } else {
      assert (a + b)[..|a + b| - 1] == a + b[..|b| - 1];
      RunOfSum(m, a, b[..|b| - 1]);
    }
  }

  lemma RunPrefix(m: Machine, actions: seq<Action>, k: nat)
    requires k < |actions|
    ensures Run(m, actions[..k + 1]) == Apply(Run(m, actions[..k]), actions[k])
  {
    assert actions[..k + 1][..k] == actions[..k];
  }

  /** Every raise above an entry that comes right after that entry's test is forgotten, by lock and
      opener alike. */
  lemma RaiseAfterTestIsForgotten(order: Order, e: R.Entry, value: int)
    requires 0 < e.index < value
    ensures var m := Run(Start(order, false, 0), [Deliver([e]), Advance]);
            && !m.pc.Test? && Raised(m, value).ram == value
            && FinishEntry(Raised(m, value)).ram == e.index
  {
    var a, m := [Deliver([e]), Advance], Start(order, false, 0);
    assert a == a[..2];
    RunPrefix(m, a, 0);
    RunPrefix(m, a, 1);
    RaiseDuringRoll(Run(m, a), value);
  }

  // ---------------------------------------------------------------- rings

  /** The bells whose ring test is over, as far as no crash prevented it. */
  function Tested(m: Machine): seq<bool> {
    var bells := m.history.bells;
    if BellPending(m) && bells != [] then bells[..|bells| - 1] else bells
  }

  /** The flag of the doorbell entry that is published and not tested yet. */
  function Pending(m: Machine): seq<bool> {
    if BellPending(m) then [R.Locked(m.queue[0])] else []
  }

  ghost predicate RingsInBoot(m: Machine) {
    && m.order.PublishFirst?
    && (!m.pc.Test? ==> m.queue != [] && Head(m) > 0)
    && (BellPending(m) ==> m.history.bells != [] && m.history.bells[|m.history.bells| - 1] == R.Locked(m.queue[0]))
    && Tested(m) == m.history.quiet + m.rings
    && QuietAtZero(m)
  }

  /** While the watermark is zero only one entry has been published, and nothing has rung. */
  ghost predicate QuietAtZero(m: Machine) {
    && |m.history.quiet| <= 1
    && (m.pc.Persist? ==> m.ram > 0)
    && (m.ram == 0 ==> m.rings == [] && (m.history.quiet == [] || m.pc.Assign?))
    && (m.ram == 0 ==> |m.log| == if Published(m) then 1 else 0)
  }

  lemma RingStep(m: Machine, a: Action)
    requires RingsInBoot(m) && a != Crash && a != Reboot
    ensures RingsInBoot(Apply(m, a))
  {
    if a.Advance? && m.queue != [] {
      match m.pc {
        case PublishEntry => RingPublish(m);
        case Ring => RingTest(m);
        case Test => RingAtTest(m);
        case PublishLast => RingAtPublishLast(m);
        case Assign => RingAtAssign(m);
        case Persist => RingAtPersist(m);
      }
    } else {
      SameBells(m, Apply(m, a));
    }
  }

  lemma RingPublish(m: Machine)
    requires RingsInBoot(m) && m.pc.PublishEntry?
    ensures RingsInBoot(AdvanceOne(m))
  {
    PublishOutcome(m);
    TestedAfterPublish(m);
    QuietAfterPublish(m);
  }

  lemma PublishOutcome(m: Machine)
    requires m.order.PublishFirst? && m.queue != [] && m.pc.PublishEntry?
    ensures var next := AdvanceOne(m);
            && next.pc.PublishLast? && next.order == m.order && next.queue == m.queue && next.ram == m.ram
            && next.rings == m.rings && next.history.quiet == m.history.quiet
            && next.history.bells == m.history.bells + Pending(next) && Pending(m) == []
            && next.log == m.log + [Head(m)]
  {
  }

  lemma TestedAfterPublish(m: Machine)
    requires m.order.PublishFirst? && m.queue != [] && m.pc.PublishEntry?
    ensures Tested(AdvanceOne(m)) == Tested(m)
  {
    PublishOutcome(m);
    var bells := m.history.bells;
    assert Tested(m) == bells;
    if m.queue[0].doorbell {
      assert (bells + [R.Locked(m.queue[0])])[..|bells|] == bells;
    }
  }

  lemma QuietAfterPublish(m: Machine)
    requires RingsInBoot(m) && m.pc.PublishEntry?
    ensures QuietAtZero(AdvanceOne(m))
  {
    PublishOutcome(m);
  }

  lemma RingTest(m: Machine)
    requires RingsInBoot(m) && m.pc.Ring?
    ensures RingsInBoot(AdvanceOne(m))
  {
    if m.queue[0].doorbell {
      RingOutcome(m);
      TestedAfterRing(m);
      QuietAfterRing(m);
    } else {
      SameBells(m, AdvanceOne(m));
    }
  }

  /** Sent if the watermark is past zero, kept quiet otherwise. */
  lemma RingOutcome(m: Machine)
    requires m.order.PublishFirst? && m.queue != [] && m.pc.Ring? && m.queue[0].doorbell
    ensures var next, flag := AdvanceOne(m), [R.Locked(m.queue[0])];
            && Pending(m) == flag && Pending(next) == []
            && next.rings == (if m.ram > 0 then m.rings + flag else m.rings)
            && next.history.quiet == (if m.ram > 0 then m.history.quiet else m.history.quiet + flag)
            && next.history.bells == m.history.bells && next.history.cut == m.history.cut
            && next.order == m.order
  {
  }

  lemma TestedAfterRing(m: Machine)
    requires RingsInBoot(m) && m.pc.Ring? && m.queue[0].doorbell
    ensures var next := AdvanceOne(m);
            Tested(next) == next.history.quiet + next.rings
  {
    var bells, flag := m.history.bells, [R.Locked(m.queue[0])];
    RingOutcome(m);
    assert Tested(AdvanceOne(m)) == bells;
    assert bells == Tested(m) + flag == m.history.quiet + (m.rings + flag);
    assert m.ram == 0 ==> m.history.quiet + (m.rings + flag) == (m.history.quiet + flag) + m.rings;
  }

  lemma QuietAfterRing(m: Machine)
    requires RingsInBoot(m) && m.pc.Ring? && m.queue[0].doorbell
    ensures QuietAtZero(AdvanceOne(m))
  {
    RingOutcome(m);
  }

  lemma RingAtTest(m: Machine)
    requires RingsInBoot(m) && m.pc.Test?
    ensures RingsInBoot(AdvanceOne(m))
  {
    SameBells(m, AdvanceOne(m));
  }

  lemma RingAtPublishLast(m: Machine)
    requires RingsInBoot(m) && m.pc.PublishLast?
    ensures RingsInBoot(AdvanceOne(m))
  {
    SameBells(m, AdvanceOne(m));
  }

  lemma RingAtAssign(m: Machine)
    requires RingsInBoot(m) && m.pc.Assign?
    ensures RingsInBoot(AdvanceOne(m))
  {
    SameBells(m, AdvanceOne(m));
  }

  lemma RingAtPersist(m: Machine)
    requires RingsInBoot(m) && m.pc.Persist?
    ensures RingsInBoot(AdvanceOne(m))
  {
    SameBells(m, AdvanceOne(m));
  }

  lemma SameBells(m: Machine, next: Machine)
    requires BellPending(next) == BellPending(m) && next.history.bells == m.history.bells
    ensures Tested(next) == Tested(m)
  {
  }

  lemma {:induction false} BootKeepsRings(save: bool, watermark: nat, actions: seq<Action>)
    requires Crash !in actions && Reboot !in actions
    ensures RingsInBoot(Run(Start(PublishFirst, save, watermark), actions))
    ensures save && watermark > 0 ==> NeverZero(Run(Start(PublishFirst, save, watermark), actions))
  {
    if actions != [] {
      var before, a := actions[..|actions| - 1], actions[|actions| - 1];
      assert a in actions && forall b :: b in before ==> b in actions;
      BootKeepsRings(save, watermark, before);
      RingStep(Run(Start(PublishFirst, save, watermark), before), a);
      NeverZeroStep(Run(Start(PublishFirst, save, watermark), before), a);
    }
  }

  ghost predicate NeverZero(m: Machine) { m.ram > 0 && m.history.quiet == [] }

  lemma NeverZeroStep(m: Machine, a: Action)
    requires !m.pc.Test? ==> m.queue != [] && Head(m) > 0
    requires a != Crash && a != Reboot
    ensures NeverZero(m) ==> NeverZero(Apply(m, a))
  {
  }

  /** Ring conservation over one boot, with raises between any two micro-steps: the doorbell entries
      whose ring test is over ring in order and each with its own locked flag, except that one
      entry stays quiet if it is a doorbell entry whose test finds the watermark still zero; that is
      the first entry published. A boot that starts above zero has no such entry. */
  lemma RingsOverOneBoot(save: bool, watermark: nat, actions: seq<Action>)
    requires Crash !in actions && Reboot !in actions
    ensures var m := Run(Start(PublishFirst, save, watermark), actions);
            && Tested(m) == m.history.quiet + m.rings && |m.history.quiet| <= 1
            && (m.pc.Ring? && m.ram == 0 ==> |m.log| == 1 && m.history.quiet == [])
            && (save && watermark > 0 ==> m.history.quiet == [])
  {
    BootKeepsRings(save, watermark, actions);
  }

  function Count(flags: seq<bool>, flag: bool): nat {
    if flags == [] then 0
    else Count(flags[..|flags| - 1], flag) + if flags[|flags| - 1] == flag then 1 else 0
  }

  lemma CountNext(flags: seq<bool>, next: bool, flag: bool)
    ensures Count(flags + [next], flag) == Count(flags, flag) + Count([next], flag)
  {
    assert (flags + [next])[..|flags|] == flags && [next][..0] == [];
  }

  ghost predicate FlagConserved(m: Machine, flag: bool) {
    var h := m.history;
    && m.order.PublishFirst?
    && Count(h.bells, flag)
         == Count(m.rings, flag) + Count(h.quiet, flag) + Count(h.cut, flag) + Count(Pending(m), flag)
  }

  ghost predicate FewQuiet(m: Machine) {
    var h := m.history;
    && (!m.pc.Test? ==> m.queue != [] && Head(m) > 0)
    && |h.quiet| <= h.crashes + (if m.ram == 0 && !m.pc.Assign? then 0 else 1)
    && |h.cut| <= h.crashes
  }

  /** Ring conservation over every run, crashes included: of either locked flag, the doorbell entries
      published are as many as those that rang, those that stayed quiet, those cut off by a crash and
      the one about to be tested. At most one stays quiet in each boot and at most one is cut off by
      each crash. */
  lemma {:induction false} RingsOverAllRuns(save: bool, watermark: nat, actions: seq<Action>)
    ensures var m := Run(Start(PublishFirst, save, watermark), actions);
            FlagConserved(m, true) && FlagConserved(m, false) && FewQuiet(m)
  {
    if actions != [] {
      var before, a := Run(Start(PublishFirst, save, watermark), actions[..|actions| - 1]), actions[|actions| - 1];
      RingsOverAllRuns(save, watermark, actions[..|actions| - 1]);
      FlagStep(before, a, true);
      FlagStep(before, a, false);
      QuietStep(before, a);
    }
  }

  lemma FlagStep(m: Machine, a: Action, flag: bool)
    requires FlagConserved(m, flag)
    ensures FlagConserved(Apply(m, a), flag)
  {
    if a.Crash? || a.Reboot? {
      FlagAtCrash(m, flag);
      SameFlags(Crashed(m), Apply(m, a), flag);
    } else if a.Advance? && m.queue != [] && m.pc.PublishEntry? {
      FlagAtPublish(m, flag);
    } else if a.Advance? && m.queue != [] && m.pc.Ring? {
      FlagAtRing(m, flag);
    } else {
      QuietAction(m, a);
      SameFlags(m, Apply(m, a), flag);
    }
  }

  lemma SameFlags(m: Machine, next: Machine, flag: bool)
    requires FlagConserved(m, flag) && next.order == m.order && Pending(next) == Pending(m)
    requires next.rings == m.rings && next.history.bells == m.history.bells
    requires next.history.quiet == m.history.quiet && next.history.cut == m.history.cut
    ensures FlagConserved(next, flag)
  {
  }

  lemma QuietAction(m: Machine, a: Action)
    requires m.order.PublishFirst? && a != Crash && a != Reboot
    requires a.Advance? && m.queue != [] ==> !m.pc.PublishEntry? && !m.pc.Ring?
    ensures var next := Apply(m, a);
            && Pending(next) == Pending(m) && next.rings == m.rings && next.history.bells == m.history.bells
            && next.history.quiet == m.history.quiet && next.history.cut == m.history.cut
  {
  }

  lemma FlagAtCrash(m: Machine, flag: bool)
    requires FlagConserved(m, flag)
    ensures FlagConserved(Crashed(m), flag)
  {
    assert Crashed(m).history.cut == m.history.cut + Pending(m);
    if BellPending(m) {
      CountNext(m.history.cut, Pending(m)[0], flag);
    }
    assert Pending(Crashed(m)) == [];
  }

  lemma FlagAtPublish(m: Machine, flag: bool)
    requires FlagConserved(m, flag) && m.queue != [] && m.pc.PublishEntry?
    ensures FlagConserved(AdvanceOne(m), flag)
  {
    var next := AdvanceOne(m);
    assert next.history.bells == m.history.bells + Pending(next);
    if BellPending(next) {
      CountNext(m.history.bells, Pending(next)[0], flag);
    }
    assert Pending(m) == [];
  }

  lemma FlagAtRing(m: Machine, flag: bool)
    requires FlagConserved(m, flag) && m.queue != [] && m.pc.Ring?
    ensures FlagConserved(AdvanceOne(m), flag)
  {
    var next := AdvanceOne(m);
    if !m.queue[0].doorbell {
      SameFlags(m, next, flag);
    } else {
      RingOutcome(m);
      CountNext(if m.ram > 0 then m.rings else m.history.quiet, R.Locked(m.queue[0]), flag);
    }
  }

  lemma QuietStep(m: Machine, a: Action)
    requires FewQuiet(m)
    ensures FewQuiet(Apply(m, a))
  {
  }

  // ---------------------------------------------------------------- undisturbed batches

  /** n micro-steps with nothing in between. */
  function Advanced(m: Machine, n: nat): Machine
    decreases n
  {
    if n == 0 then m else Advanced(AdvanceOne(m), n - 1)
  }

  lemma {:induction false} AdvancedTwice(m: Machine, a: nat, b: nat)
    ensures Advanced(m, a + b) == Advanced(Advanced(m, a), b)
    decreases a
  {
    if a > 0 {
      AdvancedTwice(AdvanceOne(m), a - 1, b);
    }
  }

  /** n micro-steps as actions of a run. */
  function Advances(n: nat): (a: seq<Action>)
    ensures |a| == n
  {
    seq(n, _ => Advance)
  }

  lemma {:induction false} AdvancedLast(m: Machine, n: nat)
    ensures Advanced(m, n + 1) == AdvanceOne(Advanced(m, n))
    decreases n
  {
    if n > 0 {
      AdvancedLast(AdvanceOne(m), n - 1);
    }
  }

  lemma {:induction false} AdvancedIsRun(m: Machine, n: nat)
    ensures Run(m, Advances(n)) == Advanced(m, n)
  {
    if n > 0 {
      AdvancedIsRun(m, n - 1);
      AdvancedLast(m, n - 1);
      OneMoreAdvance(m, n - 1);
    }
  }

  lemma OneMoreAdvance(m: Machine, n: nat)
    ensures Run(m, Advances(n + 1)) == AdvanceOne(Run(m, Advances(n)))
  {
    assert Advances(n + 1)[..n] == Advances(n);
  }

  function Indices(entries: seq<R.Entry>): seq<nat> {
    seq(|entries|, i requires 0 <= i < |entries| => entries[i].index)
  }

  /** What working off a batch leaves: the indices published, the rings sent and the watermark. */
  datatype Effect = Effect(log: seq<nat>, rings: seq<bool>, watermark: nat)

  function Rolled(s: R.Log, batch: seq<R.Entry>): Effect {
    Effect(Indices(R.Added(s, batch)), R.Rung(s, batch), R.RollAll(s, batch).watermark)
  }

  lemma {:induction false} RollFirst(s: R.Log, e: R.Entry, rest: seq<R.Entry>)
    ensures R.RollAll(s, [e] + rest) == R.RollAll(R.Roll(s, e), rest)
  {
    var batch := [e] + rest;
    assert batch[..|batch| - 1] == if rest == [] then [] else [e] + rest[..|rest| - 1];
    if rest != [] {
      RollFirst(s, e, rest[..|rest| - 1]);
    } else {
      assert R.RollAll(s, []) == s;
    }
  }

  lemma {:induction false} AddFirst(s: R.Log, e: R.Entry, rest: seq<R.Entry>)
    ensures R.Added(s, [e] + rest) == (if e.index > s.watermark then [e] else []) + R.Added(R.Roll(s, e), rest)
  {
    var batch := [e] + rest;
    assert batch[..|batch| - 1] == if rest == [] then [] else [e] + rest[..|rest| - 1];
    if rest != [] {
      AddFirst(s, e, rest[..|rest| - 1]);
      RollFirst(s, e, rest[..|rest| - 1]);
    } else {
      assert R.Added(s, []) == [] && R.RollAll(s, []) == s;
    }
  }

  /** The ring of one entry, if it sends one. */
  function RingOf(s: R.Log, e: R.Entry): seq<bool> {
    if e.index > s.watermark && e.doorbell && s.watermark > 0 then [R.Locked(e)] else []
  }

  lemma {:induction false} RingFirst(s: R.Log, e: R.Entry, rest: seq<R.Entry>)
    ensures R.Rung(s, [e] + rest) == RingOf(s, e) + R.Rung(R.Roll(s, e), rest)
  {
    var batch := [e] + rest;
    assert batch[..|batch| - 1] == if rest == [] then [] else [e] + rest[..|rest| - 1];
    if rest != [] {
      RingFirst(s, e, rest[..|rest| - 1]);
      RollFirst(s, e, rest[..|rest| - 1]);
    } else {
      assert R.Rung(s, []) == [] && R.RollAll(s, []) == s;
    }
  }

  lemma IndicesOfSum(a: seq<R.Entry>, b: seq<R.Entry>)
    ensures Indices(a + b) == Indices(a) + Indices(b)
  {
  }

  lemma RolledFirst(s: R.Log, batch: seq<R.Entry>)
    requires batch != []
    ensures var e, more := batch[0], Rolled(R.Roll(s, batch[0]), batch[1..]);
            var first := if e.index > s.watermark then [e.index] else [];
            Rolled(s, batch) == Effect(first + more.log, RingOf(s, e) + more.rings, more.watermark)
  {
    var e, rest := batch[0], batch[1..];
    assert batch == [e] + rest;
    RollFirst(s, e, rest);
    AddFirst(s, e, rest);
    RingFirst(s, e, rest);
    IndicesOfSum(if e.index > s.watermark then [e] else [], R.Added(R.Roll(s, e), rest));
  }

  /** The batch of m is worked off with this effect; only the opener rings. */
  ghost predicate WorkedOff(m: Machine, done: Machine, f: Effect) {
    && done.pc.Test? && done.queue == []
    && done.log == m.log + f.log
    && done.rings == m.rings + (if m.order.PublishFirst? then f.rings else [])
    && done.ram == f.watermark && done.flash == (if m.save then f.watermark else m.flash)
    && done.retained == (if f.log == [] then m.retained else f.log[|f.log| - 1])
    && done.save == m.save && done.order == m.order
  }

  /** The machine refines the loop: left alone it works off any batch, ends with the loop's
      watermark, publishes the indices of exactly the entries the loop rolls, in that order, sends
      exactly its rings, and leaves the last index published in the retained topic. */
  lemma UndisturbedIsRollAll(m: Machine, s: R.Log)
    requires m.pc.Test? && m.ram == s.watermark && (m.save ==> m.flash == m.ram)
    ensures exists n: nat :: WorkedOff(m, Run(m, Advances(n)), Rolled(s, m.queue))
  {
    LeftAlone(m, s);
    var n: nat :| WorkedOff(m, Advanced(m, n), Rolled(s, m.queue));
    AdvancedIsRun(m, n);
    assert WorkedOff(m, Run(m, Advances(n)), Rolled(s, m.queue));
  }

  lemma {:induction false} LeftAlone(m: Machine, s: R.Log)
    requires m.pc.Test? && m.ram == s.watermark && (m.save ==> m.flash == m.ram)
    ensures exists n: nat :: WorkedOff(m, Advanced(m, n), Rolled(s, m.queue))
    decreases |m.queue|
  {
    if m.queue == [] {
      assert WorkedOff(m, Advanced(m, 0), Rolled(s, []));
    } else {
      var e := m.queue[0];
      var k := OneEntry(m);
      LeftAlone(Advanced(m, k), R.Roll(s, e));
      RolledFirst(s, m.queue);
      FirstThenRest(m, k, if e.index > s.watermark then [e.index] else [], RingOf(s, e),
                    Rolled(R.Roll(s, e), m.queue[1..]));
    }
  }

  /** What one entry does to the machine, as far as the next ones are concerned. */
  ghost predicate Moved(m: Machine, next: Machine, log: seq<nat>, rings: seq<bool>) {
    && next.log == m.log + log && next.save == m.save && next.order == m.order
    && (m.save || next.flash == m.flash)
    && next.retained == (if log == [] then m.retained else log[|log| - 1])
    && next.rings == m.rings + if m.order.PublishFirst? then rings else []
  }

  lemma FirstThenRest(m: Machine, k: nat, log: seq<nat>, rings: seq<bool>, f: Effect)
    requires Moved(m, Advanced(m, k), log, rings)
    requires exists n: nat :: WorkedOff(Advanced(m, k), Advanced(Advanced(m, k), n), f)
    ensures exists n: nat :: WorkedOff(m, Advanced(m, n), Effect(log + f.log, rings + f.rings, f.watermark))
  {
    var n: nat :| WorkedOff(Advanced(m, k), Advanced(Advanced(m, k), n), f);
    AdvancedTwice(m, k, n);
    MovedThenWorkedOff(m, Advanced(m, k), Advanced(m, k + n), log, rings, f);
  }

  lemma MovedThenWorkedOff(m: Machine, next: Machine, done: Machine, log: seq<nat>, rings: seq<bool>, f: Effect)
    requires Moved(m, next, log, rings) && WorkedOff(next, done, f)
    ensures WorkedOff(m, done, Effect(log + f.log, rings + f.rings, f.watermark))
  {
  }

  lemma OneEntry(m: Machine) returns (k: nat)
    requires m.pc.Test? && m.queue != []
    ensures var done, e := Advanced(m, k), m.queue[0];
            && done.pc.Test? && done.queue == m.queue[1..] && done.save == m.save && done.order == m.order
            && done.ram == (if e.index > m.ram then e.index else m.ram)
            && done.flash == (if m.save && e.index > m.ram then e.index else m.flash)
            && done.log == m.log + (if e.index > m.ram then [e.index] else [])
            && done.retained == (if e.index > m.ram then e.index else m.retained)
            && done.rings == m.rings +
                 if m.order.PublishFirst? && e.index > m.ram && e.doorbell && m.ram > 0 then [R.Locked(e)] else []
  {
    if Head(m) <= m.ram {
      k := 1;
      assert Advanced(m, 1) == Advanced(AdvanceOne(m), 0);
    } else {
      var a := AdvanceOne(m);
      var b := AdvanceOne(a);
      var c := AdvanceOne(b);
      var d := AdvanceOne(c);
      var e := AdvanceOne(d);
      assert Advanced(a, 4) == Advanced(b, 3) == Advanced(c, 2) == Advanced(d, 1) == Advanced(e, 0);
      if m.order.PersistFirst? {
        k := 5;
      } else {
        k := 6;
        assert Advanced(a, 5) == Advanced(b, 4) == Advanced(c, 3) == Advanced(d, 2) == Advanced(e, 1);
        assert Advanced(e, 1) == Advanced(AdvanceOne(e), 0);
      }
    }
  }
}
