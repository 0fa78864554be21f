/** The lock's watch over the official connection: a reboot is requested when it has been down
    for more than three minutes. */
module HybridWatch {
  import opened Lists

  const LIMIT_MS := 180 * 1000

  /** What a pass of the loop sees while the watch is on and the broker is connected. It reads the
      connection twice: to look for a disconnect, and to remember it for the next pass. */
  datatype Sample = Sample(ts: int, first: bool, second: bool)

  const BY_TIME: Sample -> int := (s: Sample) => s.ts

  /** `offConnected` and `offLastConnected`. */
  datatype Watch = Watch(connected: bool, since: int)

  datatype Outcome = Outcome(watch: Watch, reboot: bool)

  function Step(w: Watch, s: Sample): Outcome {
    if w.connected && !s.first then Outcome(Watch(s.second, s.ts), false)
    else if !w.connected && w.since > 0 && w.since < s.ts - LIMIT_MS then Outcome(Watch(s.second, 0), true)
    else Outcome(Watch(s.second, w.since), false)
  }

  function After(samples: seq<Sample>): Watch {
    if samples == [] then Watch(false, 0)
    else Step(After(samples[..|samples| - 1]), samples[|samples| - 1]).watch
  }

  /** Sample i requests a reboot. */
  predicate Fires(samples: seq<Sample>, i: nat)
    requires i < |samples|
  {
    Step(After(samples[..i]), samples[i]).reboot
  }

  /** Sample e sees the connection go down. */
  predicate Drops(samples: seq<Sample>, e: nat) {
    0 < e < |samples| && samples[e - 1].second && !samples[e].first
  }

  /** The latest drop seen before sample n. */
  ghost predicate LatestDrop(samples: seq<Sample>, e: nat, n: nat) {
    e < n <= |samples| && Drops(samples, e) && forall j :: e < j < n ==> !Drops(samples, j)
  }

  ghost predicate FiredWithin(samples: seq<Sample>, e: nat, n: nat)
    requires n <= |samples|
  {
    exists j :: e < j < n && Fires(samples, j)
  }

  lemma StepAt(samples: seq<Sample>, n: nat)
    requires n < |samples|
    ensures After(samples[..n + 1]) == Step(After(samples[..n]), samples[n]).watch
  {
    assert samples[..n + 1][..n] == samples[..n];
  }

  lemma HoldsLastRead(samples: seq<Sample>, n: nat)
    requires 0 < n <= |samples|
    ensures After(samples[..n]).connected == samples[n - 1].second
  {
    StepAt(samples, n - 1);
  }

  /** The watch holds the time of the latest drop, or zero once that has led to a request. */
  lemma {:induction false} WatchHoldsDrop(samples: seq<Sample>, e: nat, n: nat)
    requires LatestDrop(samples, e, n)
    ensures After(samples[..n]).since == if FiredWithin(samples, e, n) then 0 else samples[e].ts
    decreases n
  {
    StepAt(samples, n - 1);
    HoldsLastRead(samples, n - 1);
    if n - 1 > e {
      assert !Drops(samples, n - 1);
      WatchHoldsDrop(samples, e, n - 1);
      assert FiredWithin(samples, e, n) <==> FiredWithin(samples, e, n - 1) || Fires(samples, n - 1);
    }
  }

  /** Before the first drop it holds zero. */
  lemma {:induction false} NoDropHoldsZero(samples: seq<Sample>, n: nat)
    requires n <= |samples| && forall j :: 0 <= j < n ==> !Drops(samples, j)
    ensures After(samples[..n]).since == 0
  {
    if n > 0 {
      NoDropHoldsZero(samples, n - 1);
      StepAt(samples, n - 1);
      assert !Drops(samples, n - 1);
      if n > 1 {
        HoldsLastRead(samples, n - 1);
      }
    }
  }

  lemma {:induction false} FindDrop(samples: seq<Sample>, n: nat) returns (e: nat)
    requires n <= |samples|
    ensures LatestDrop(samples, e, n) || forall j :: 0 <= j < n ==> !Drops(samples, j)
  {
    if n == 0 {
      e := 0;
    } else if Drops(samples, n - 1) {
      e := n - 1;
    } else {
      e := FindDrop(samples, n - 1);
    }
  }

  /** The connection is down as the last pass left it, and the latest drop is old enough and unused. */
  ghost predicate Due(samples: seq<Sample>, e: nat, n: nat) {
    && n < |samples| && LatestDrop(samples, e, n) && !samples[n - 1].second
    && samples[e].ts > 0 && samples[n].ts - samples[e].ts > LIMIT_MS && !FiredWithin(samples, e, n)
  }

  /** Exactly when a reboot is requested: the connection was left as down, and the latest drop seen
      came at a positive time more than LIMIT_MS ago and has not led to a request yet. */
  lemma FiresExactly(samples: seq<Sample>, n: nat)
    requires n < |samples|
    ensures Fires(samples, n) <==> exists e: nat :: Due(samples, e, n)
  {
    var e := FindDrop(samples, n);
    if n > 0 {
      HoldsLastRead(samples, n);
    }
    if LatestDrop(samples, e, n) {
      WatchHoldsDrop(samples, e, n);
      assert Fires(samples, n) ==> Due(samples, e, n);
    } else {
      NoDropHoldsZero(samples, n);
    }
    forall d: nat | Due(samples, d, n) ensures d == e {
      assert Drops(samples, d) && (LatestDrop(samples, e, n) ==> Drops(samples, e));
    }
  }

  /** Two requests belong to different drops and are more than LIMIT_MS apart. */
  lemma RequestsAreApart(samples: seq<Sample>, i: nat, j: nat)
    requires Sorted(samples, BY_TIME) && i < j < |samples| && Fires(samples, i) && Fires(samples, j)
    ensures samples[j].ts - samples[i].ts > 180000
    ensures exists e: nat :: i <= e && Due(samples, e, j)
  {
    FiresExactly(samples, j);
    var e: nat :| Due(samples, e, j);
    assert FiredWithin(samples, e, j) || i <= e;
    assert BY_TIME(samples[i]) <= BY_TIME(samples[e]);
  }

  /** A drop at a positive time has led to a request by the first sample that finds it more than
      LIMIT_MS old and the connection left as down. */
  lemma LongOutageFires(samples: seq<Sample>, e: nat, n: nat)
    requires n < |samples| && LatestDrop(samples, e, n) && !samples[n - 1].second
    requires samples[e].ts > 0 && samples[n].ts - samples[e].ts > 180000
    ensures FiredWithin(samples, e, n + 1)
  {
    FiresExactly(samples, n);
    if FiredWithin(samples, e, n) {
      var j :| e < j < n && Fires(samples, j);
      assert j < n + 1;
    } else {
      assert Due(samples, e, n);
      assert Fires(samples, n);
    }
  }

  // ---------------------------------------------------------------- outages

  /** Every pass from e on has left the connection as down. */
  ghost predicate Outage(samples: seq<Sample>, e: nat, n: nat) {
    n <= |samples| && forall j :: e <= j < n ==> !samples[j].second
  }

  /** Pass j missed a disconnect: it came between its two reads. */
  predicate Torn(samples: seq<Sample>, j: nat) {
    0 < j < |samples| && samples[j - 1].second && samples[j].first && !samples[j].second
  }

  ghost predicate TornWithin(samples: seq<Sample>, e: nat, n: nat) {
    exists j :: e < j < n && Torn(samples, j)
  }

  /** Between the latest drop and a connection left as down, the outage is unbroken exactly if no
      disconnect fell between the two reads of a pass. */
  lemma {:induction false} OutageUnlessTorn(samples: seq<Sample>, e: nat, n: nat)
    requires LatestDrop(samples, e, n) && !samples[n - 1].second
    ensures Outage(samples, e, n) <==> !TornWithin(samples, e, n)
    decreases n
  {
    if n - 1 > e {
      assert !Drops(samples, n - 1);
      if samples[n - 2].second {
        assert Torn(samples, n - 1);
      } else {
        OutageUnlessTorn(samples, e, n - 1);
        assert TornWithin(samples, e, n - 1) ==> TornWithin(samples, e, n);
      }
    }
  }

  /** Which requests are for an outage unbroken since the drop they are counted from: exactly those
      with no torn pass since then. A torn pass is dated back to the earlier drop. */
  lemma RequestsForOutages(samples: seq<Sample>, n: nat)
    requires n < |samples| && Fires(samples, n)
    ensures exists e: nat :: Due(samples, e, n)
    ensures forall e: nat :: Due(samples, e, n) ==> (Outage(samples, e, n) <==> !TornWithin(samples, e, n))
  {
    FiresExactly(samples, n);
    forall e: nat | Due(samples, e, n) ensures Outage(samples, e, n) <==> !TornWithin(samples, e, n) {
      OutageUnlessTorn(samples, e, n);
    }
  }

  /** So a torn pass can cost a reboot at once: a short outage long over, a disconnect that falls
      between two reads, and the request comes in the very next pass. */
  lemma TornPassFires(drop: int, back: int, torn: int, now: int)
    requires 0 < drop <= back <= torn <= now && back - drop <= LIMIT_MS < now - drop
    ensures var samples := [Sample(0, true, true), Sample(drop, false, false), Sample(back, true, true),
                            Sample(torn, true, false), Sample(now, false, false)];
            Torn(samples, 3) && Fires(samples, 4)
  {
    var samples := [Sample(0, true, true), Sample(drop, false, false), Sample(back, true, true),
                    Sample(torn, true, false), Sample(now, false, false)];
    assert Drops(samples, 1) && LatestDrop(samples, 1, 2) && LatestDrop(samples, 1, 4);
    WatchHoldsDrop(samples, 1, 2);
    HoldsLastRead(samples, 3);
    assert !Fires(samples, 2) && !Fires(samples, 3);
    assert Due(samples, 1, 4);
    FiresExactly(samples, 4);
  }

  /** The test looks at the previous pass only: if none came in between, the pass that finds the
      connection back after a long outage still requests the reboot. */
  lemma FiresOnReconnect(edge: int, back: int)
    requires 0 < edge && back - edge > LIMIT_MS
    ensures Fires([Sample(0, true, true), Sample(edge, false, false), Sample(back, true, true)], 2)
  {
    var samples := [Sample(0, true, true), Sample(edge, false, false), Sample(back, true, true)];
    assert Drops(samples, 1) && Due(samples, 1, 2);
    FiresExactly(samples, 2);
  }

  // ---------------------------------------------------------------- the code

  class LockWatch {
    const hybridRebootOnDisconnect: bool
    var offConnected: bool
    var offLastConnected: int
    ghost var seen: seq<Sample>

    constructor (enabled: bool)
      ensures Valid() && seen == [] && hybridRebootOnDisconnect == enabled
    {
      hybridRebootOnDisconnect := enabled;
      offConnected, offLastConnected := false, 0;
      seen := [];
    }

    ghost predicate Valid()
      reads this
    {
      Watch(offConnected, offLastConnected) == After(seen)
    }

    /** `first` and `second` are what the two calls of `getOffConnected` return. */
    method Update(ts: int, mqttConnected: bool, first: bool, second: bool) returns (ret: bool)
      requires Valid()
      modifies this
      ensures Valid()
      ensures if hybridRebootOnDisconnect && mqttConnected
              then seen == old(seen) + [Sample(ts, first, second)] && ret == Fires(seen, |old(seen)|)
              else seen == old(seen) && !ret
    {
      ret := false;
      if hybridRebootOnDisconnect && mqttConnected {
        if offConnected && !first {
          offLastConnected := ts;
        } else if !offConnected && offLastConnected > 0 && offLastConnected < ts - 180 * 1000 {
          offLastConnected := 0;
          ret := true;
        }
        offConnected := second;
        seen := seen + [Sample(ts, first, second)];
        assert seen[..|seen| - 1] == old(seen);
      }
    }
  }
}
