/** The code checks that share the lock-out: one-time code and bypass key on the hub,
    keypad code on the opener. */
module CodeChecks {
  import opened LockOut

  class ImportExport {
    var totpEnabled: bool
    var bypassEnabled: bool
    var bypassKey: string
    var invalidCount: int
    var lastCodeCheck: int
    var invalidCount2: int
    var lastCodeCheck2: int

    constructor (totp: bool, bypass: bool, key: string)
      ensures totpEnabled == totp && bypassEnabled == bypass && bypassKey == key
      ensures TotpGuard() == BypassGuard() == Guard(0, 0)
    {
      totpEnabled, bypassEnabled, bypassKey := totp, bypass, key;
      invalidCount, lastCodeCheck, invalidCount2, lastCodeCheck2 := 0, 0, 0, 0;
    }

    function TotpGuard(): Guard reads this { Guard(invalidCount, lastCodeCheck) }
    function BypassGuard(): Guard reads this { Guard(invalidCount2, lastCodeCheck2) }

    /** `otp(offset)` is the number of the one-time code `offset` seconds from now. */
    method CheckTotp(key: int, otp: int -> int, asked: int, stamped: int) returns (ok: bool)
      modifies this`invalidCount, this`lastCodeCheck
      ensures var e := Check(asked, stamped, exists t :: t in {-60, -30, 0, 30, 60} && otp(t) == key);
              && ok == (totpEnabled && Accepts(old(TotpGuard()), e))
              && TotpGuard() == (if totpEnabled then Step(old(TotpGuard()), e) else old(TotpGuard()))
              && (ok <==> totpEnabled && asked >= old(lastCodeCheck) + Pow5(old(invalidCount)) && e.right)
      ensures lastCodeCheck == if totpEnabled then stamped else old(lastCodeCheck)
      ensures var open := asked >= old(lastCodeCheck) + Pow5(old(invalidCount));
              invalidCount == if ok then 0 else old(invalidCount) + if totpEnabled && open then 1 else 0
    {
      ok := false;
      if totpEnabled {
        if Pow5(invalidCount) + lastCodeCheck > asked {
          lastCodeCheck := stamped;
          return;
        }
        lastCodeCheck := stamped;
        var totpTime := -60;
        while totpTime <= 60
          invariant totpTime in {-60, -30, 0, 30, 60, 90}
          invariant forall t :: t in {-60, -30, 0, 30, 60} && t < totpTime ==> otp(t) != key
          decreases 90 - totpTime
        {
          if key == otp(totpTime) {
            invalidCount := 0;
            return true;
          }
          totpTime := totpTime + 30;
        }
        invalidCount := invalidCount + 1;
      }
    }

    method CheckBypass(bypass: string, asked: int, stamped: int) returns (ok: bool)
      modifies this`invalidCount2, this`lastCodeCheck2
      ensures var e := Check(asked, stamped, bypass == bypassKey);
              && ok == (bypassEnabled && Accepts(old(BypassGuard()), e))
              && BypassGuard() == (if bypassEnabled then Step(old(BypassGuard()), e) else old(BypassGuard()))
              && (ok <==> bypassEnabled && asked >= old(lastCodeCheck2) + Pow5(old(invalidCount2)) && e.right)
      ensures lastCodeCheck2 == if bypassEnabled then stamped else old(lastCodeCheck2)
      ensures var open := asked >= old(lastCodeCheck2) + Pow5(old(invalidCount2));
              invalidCount2 == if ok then 0 else old(invalidCount2) + if bypassEnabled && open then 1 else 0
    {
      ok := false;
      if bypassEnabled {
        if Pow5(invalidCount2) + lastCodeCheck2 > asked {
          lastCodeCheck2 := stamped;
          return;
        }
        lastCodeCheck2 := stamped;
        if bypass == bypassKey {
          invalidCount2 := 0;
          return true;
        }
        invalidCount2 := invalidCount2 + 1;
      }
    }

    /** The part of the network loop that lets failures decay; `ts` was read when the loop began. */
    method Decay(ts: int, at: int)
      modifies this`invalidCount, this`invalidCount2
      ensures TotpGuard() == if totpEnabled then Step(old(TotpGuard()), Tick(ts, at)) else old(TotpGuard())
      ensures BypassGuard() == if bypassEnabled then Step(old(BypassGuard()), Tick(ts, at)) else old(BypassGuard())
      ensures invalidCount == old(invalidCount) -
                if totpEnabled && old(invalidCount) > 0 && ts > lastCodeCheck + 120000 * old(invalidCount) then 1 else 0
      ensures invalidCount2 == old(invalidCount2) -
                if bypassEnabled && old(invalidCount2) > 0 && ts > lastCodeCheck2 + 120000 * old(invalidCount2) then 1
                else 0
    {
      if totpEnabled && invalidCount > 0 && ts - 120000 * invalidCount > lastCodeCheck {
        invalidCount := invalidCount - 1;
      }
      if bypassEnabled && invalidCount2 > 0 && ts - 120000 * invalidCount2 > lastCodeCheck2 {
        invalidCount2 := invalidCount2 - 1;
      }
    }
  }

  datatype KeypadResult = CheckingDisabled | CheckingBlocked | CodeValid | CodeInvalid | NoExistingCodeId

  /** `enabled` is the setting as the check reads it; `checkKeypadCodes` the copy of it that the decay
      goes by, taken when the settings are read. */
  class KeypadChecks {
    var enabled: bool
    var checkKeypadCodes: bool
    var codeIds: seq<nat>
    var codes: seq<nat>
    var invalidCount: int
    var lastCodeCheck: int

    constructor (enabled: bool, codeIds: seq<nat>, codes: seq<nat>)
      requires |codeIds| == |codes|
      ensures Valid() && Throttle() == Guard(0, 0)
      ensures this.enabled == checkKeypadCodes == enabled && this.codeIds == codeIds && this.codes == codes
    {
      this.enabled, this.codeIds, this.codes := enabled, codeIds, codes;
      checkKeypadCodes := enabled;
      invalidCount, lastCodeCheck := 0, 0;
    }

    predicate Valid() reads this { |codeIds| == |codes| }

    function Throttle(): Guard reads this { Guard(invalidCount, lastCodeCheck) }

    /** Position i is the one the lookup of `id` ends at. */
    predicate FoundAt(id: nat, i: nat) reads this {
      i < |codeIds| && codeIds[i] == id && id !in codeIds[..i]
    }

    /** The code stored first under a non-zero id is the one offered. */
    ghost predicate Right(id: nat, code: nat)
      requires Valid()
      reads this
    {
      id != 0 && exists i: nat :: FoundAt(id, i) && codes[i] == code
    }

    /** The "check" action: an unknown id counts as a wrong code. */
    method CheckCode(codeId: nat, code: nat, asked: int, stamped: int) returns (r: KeypadResult)
      requires Valid()
      modifies this`invalidCount, this`lastCodeCheck
      ensures var e := Check(asked, stamped, Right(codeId, code));
              && (r == CodeValid <==> enabled && Accepts(old(Throttle()), e))
              && (r == CheckingDisabled <==> !enabled)
              && (r == CheckingBlocked <==> enabled && !Open(old(Throttle()), asked))
              && (r == NoExistingCodeId ==> codeId == 0 || codeId !in codeIds)
              && (r == CodeInvalid ==> codeId != 0 && codeId in codeIds)
              && Throttle() == (if enabled then Step(old(Throttle()), e) else old(Throttle()))
              && (r == CodeValid <==>
                    enabled && asked >= old(lastCodeCheck) + Pow5(old(invalidCount)) && codeId != 0
                    && exists i :: 0 <= i < |codeIds| && codeIds[i] == codeId && codeId !in codeIds[..i]
                                   && codes[i] == code)
              && (r == CheckingBlocked <==> enabled && asked < old(lastCodeCheck) + Pow5(old(invalidCount)))
      ensures lastCodeCheck == if enabled then stamped else old(lastCodeCheck)
      ensures invalidCount == match r
                              case CodeValid => 0
                              case CodeInvalid => old(invalidCount) + 1
                              case NoExistingCodeId => old(invalidCount) + 1
                              case _ => old(invalidCount)
    {
      var idExists := codeId != 0 && codeId in codeIds;
      if !enabled {
        return CheckingDisabled;
      }
      if Pow5(invalidCount) + lastCodeCheck > asked {
        lastCodeCheck := stamped;
        return CheckingBlocked;
      }
      lastCodeCheck := stamped;
      if idExists {
        var index := 0;
        while codeIds[index] != codeId
          invariant index < |codeIds| && codeId !in codeIds[..index]
          decreases |codeIds| - index
        {
          index := index + 1;
        }
        assert FoundAt(codeId, index);
        assert forall i: nat :: FoundAt(codeId, i) ==> i == index;
        assert forall i :: 0 <= i < |codeIds| && codeIds[i] == codeId && codeId !in codeIds[..i] ==> FoundAt(codeId, i);
        if code == codes[index] {
          invalidCount := 0;
          assert FoundAt(codeId, index) && codes[index] == code;
          return CodeValid;
        } else {
          invalidCount := invalidCount + 1;
          return CodeInvalid;
        }
      } else {
        invalidCount := invalidCount + 1;
        return NoExistingCodeId;
      }
    }

    method ReadSettings()
      modifies this`checkKeypadCodes
      ensures checkKeypadCodes == enabled
    {
      checkKeypadCodes := enabled;
    }

    /** Runs only while the broker connection is up. */
    method Decay(ts: int, at: int)
      modifies this`invalidCount
      ensures Throttle() == if checkKeypadCodes then Step(old(Throttle()), Tick(ts, at)) else old(Throttle())
      ensures invalidCount == old(invalidCount) -
                if checkKeypadCodes && old(invalidCount) > 0 && ts > lastCodeCheck + 120000 * old(invalidCount) then 1
                else 0
    {
      if checkKeypadCodes && invalidCount > 0 && ts - 120000 * invalidCount > lastCodeCheck {
        invalidCount := invalidCount - 1;
      }
    }
  }
}
