/** The pin configuration: saved as a byte array of (pin, role) pairs with zero-filled holes. */
module PinTable {
  import opened Basics

  /** Role numbers that matter here; the others are passed through. */
  const DISABLED: Byte := 0
  const ETHERNET: Byte := 21

  datatype PinEntry = PinEntry(pin: Byte, role: Byte)

  /** What a save followed by a load makes of an entry: nothing of a disabled role, nothing of an
      Ethernet role outside the disabled pins, and Ethernet of every disabled pin. */
  function Kept(disabled: set<int>, e: PinEntry): seq<PinEntry> {
    if e.pin in disabled then [PinEntry(e.pin, ETHERNET)]
    else if e.role == DISABLED || e.role == ETHERNET then []
    else [e]
  }

  function Normalize(disabled: set<int>, pins: seq<PinEntry>): seq<PinEntry> {
    if pins == [] then []
    else Normalize(disabled, pins[..|pins| - 1]) + Kept(disabled, pins[|pins| - 1])
  }

  // ---------------------------------------------------------------- the stored form

  /** The pair saved for an entry; a dropped one leaves zeros. */
  function SavedPair(disabled: set<int>, e: PinEntry): PinEntry {
    if e.pin in disabled then PinEntry(e.pin, ETHERNET)
    else if e.role == DISABLED || e.role == ETHERNET then PinEntry(0, DISABLED)
    else e
  }

  /** What a load makes of a stored pair. */
  function LoadedPair(disabled: set<int>, e: PinEntry): seq<PinEntry> {
    if e.pin in disabled then [PinEntry(e.pin, ETHERNET)]
    else if e.role == DISABLED then []
    else [e]
  }

  function Pairs(bytes: seq<Byte>): seq<PinEntry> {
    seq(|bytes| / 2, i requires 0 <= i < |bytes| / 2 => PinEntry(bytes[2 * i], bytes[2 * i + 1]))
  }

  function LoadAll(disabled: set<int>, pairs: seq<PinEntry>): seq<PinEntry> {
    if pairs == [] then []
    else LoadAll(disabled, pairs[..|pairs| - 1]) + LoadedPair(disabled, pairs[|pairs| - 1])
  }

  function SavedLength(pins: seq<PinEntry>, storedLength: nat): nat {
    if 2 * |pins| > storedLength then 2 * |pins| else storedLength
  }

  /** The byte array of a save over an older one of `storedLength` bytes. */
  function SavedBytes(disabled: set<int>, pins: seq<PinEntry>, storedLength: nat): seq<Byte> {
    seq(SavedLength(pins, storedLength), i requires 0 <= i =>
      if i / 2 >= |pins| then 0
      else if i % 2 == 0 then SavedPair(disabled, pins[i / 2]).pin
      else SavedPair(disabled, pins[i / 2]).role)
  }

  /** The holes of a save: pairs of dropped entries and pairs left over beyond the list. */
  function Holes(disabled: set<int>, pins: seq<PinEntry>, storedLength: nat): nat {
    Dropped(disabled, pins) + SavedLength(pins, storedLength) / 2 - |pins|
  }

  function Dropped(disabled: set<int>, pins: seq<PinEntry>): nat {
    if pins == [] then 0
    else Dropped(disabled, pins[..|pins| - 1]) + if Kept(disabled, pins[|pins| - 1]) == [] then 1 else 0
  }

  // ---------------------------------------------------------------- round trip

  function SavedPairs(disabled: set<int>, pins: seq<PinEntry>, filler: nat): seq<PinEntry> {
    seq(|pins|, i requires 0 <= i < |pins| => SavedPair(disabled, pins[i]))
    + seq(filler, _ => PinEntry(0, DISABLED))
  }

  lemma PairsOfSaved(disabled: set<int>, pins: seq<PinEntry>, storedLength: nat)
    ensures Pairs(SavedBytes(disabled, pins, storedLength))
         == SavedPairs(disabled, pins, SavedLength(pins, storedLength) / 2 - |pins|)
  {
    var bytes := SavedBytes(disabled, pins, storedLength);
    forall i | 0 <= i < |bytes| / 2
      ensures Pairs(bytes)[i] == SavedPairs(disabled, pins, SavedLength(pins, storedLength) / 2 - |pins|)[i]
    {
      assert 2 * i / 2 == i && (2 * i + 1) / 2 == i;
    }
  }

  /** Every pin that is disabled now is Ethernet. */
  function Disable(disabled: set<int>, pins: seq<PinEntry>): seq<PinEntry> {
    seq(|pins|, i requires 0 <= i < |pins| =>
      if pins[i].pin in disabled then PinEntry(pins[i].pin, ETHERNET) else pins[i])
  }

  lemma DisableOfSum(disabled: set<int>, a: seq<PinEntry>, b: seq<PinEntry>)
    ensures Disable(disabled, a + b) == Disable(disabled, a) + Disable(disabled, b)
  {
  }

  /** Loading under one set of disabled pins the pairs saved for the list under another: the list
      normalised for the first and disabled for the second if pin 0 is enabled at the load; otherwise
      one Ethernet pin 0 more for every entry dropped. */
  lemma {:induction false} LoadSaved(saving: set<int>, loading: set<int>, pins: seq<PinEntry>)
    ensures var loaded := LoadAll(loading, SavedPairs(saving, pins, 0));
            var expected := Disable(loading, Normalize(saving, pins));
            && |loaded| == |expected| + (if 0 in loading then Dropped(saving, pins) else 0)
            && (0 !in loading || Dropped(saving, pins) == 0 ==> loaded == expected)
  {
    if pins != [] {
      var before, last, pairs := pins[..|pins| - 1], pins[|pins| - 1], SavedPairs(saving, pins, 0);
      assert pairs[..|pairs| - 1] == SavedPairs(saving, before, 0);
      LoadSaved(saving, loading, before);
      LoadedSavedPair(saving, loading, last);
      DisableOfSum(loading, Normalize(saving, before), Kept(saving, last));
    }
  }

  lemma LoadedSavedPair(saving: set<int>, loading: set<int>, e: PinEntry)
    ensures Kept(saving, e) != [] || 0 !in loading ==>
              LoadedPair(loading, SavedPair(saving, e)) == Disable(loading, Kept(saving, e))
    ensures Kept(saving, e) == [] && 0 in loading ==> |LoadedPair(loading, SavedPair(saving, e))| == 1
  {
  }

  /** Zeros beyond the list load as nothing, or each as an Ethernet pin 0. */
  lemma {:induction false} LoadFiller(saving: set<int>, loading: set<int>, pins: seq<PinEntry>, filler: nat)
    ensures LoadAll(loading, SavedPairs(saving, pins, filler))
         == LoadAll(loading, SavedPairs(saving, pins, 0))
            + seq(if 0 in loading then filler else 0, _ => PinEntry(0, ETHERNET))
    decreases filler
  {
    var pairs := SavedPairs(saving, pins, filler);
    if filler > 0 {
      assert pairs[..|pairs| - 1] == SavedPairs(saving, pins, filler - 1);
      assert pairs[|pairs| - 1] == PinEntry(0, DISABLED);
      LoadFiller(saving, loading, pins, filler - 1);
    }
  }

  /** A load after a save, with any change of the disabled pins in between (as when the network
      hardware changes): it returns the list normalised for the save and disabled for the load, in
      order, exactly if pin 0 is enabled at the load or the save left no hole. */
  lemma RoundTrip(saving: set<int>, loading: set<int>, pins: seq<PinEntry>, storedLength: nat)
    ensures LoadAll(loading, Pairs(SavedBytes(saving, pins, storedLength))) == Disable(loading, Normalize(saving, pins))
            <==> 0 !in loading || Holes(saving, pins, storedLength) == 0
  {
    PairsOfSaved(saving, pins, storedLength);
    LoadSaved(saving, loading, pins);
    LoadFiller(saving, loading, pins, SavedLength(pins, storedLength) / 2 - |pins|);
  }

  /** Without such a change the normalised list comes back as it is. */
  lemma {:induction false} NormalizedIsDisabled(disabled: set<int>, pins: seq<PinEntry>)
    ensures Disable(disabled, Normalize(disabled, pins)) == Normalize(disabled, pins)
  {
    if pins != [] {
      NormalizedIsDisabled(disabled, pins[..|pins| - 1]);
    }
  }

  lemma {:induction false} OthersAreLoaded(loading: set<int>, pairs: seq<PinEntry>, e: PinEntry)
    requires e.pin !in loading && e.role != DISABLED
    ensures e in LoadAll(loading, pairs) <==> e in pairs
  {
    if pairs != [] {
      var before, last := pairs[..|pairs| - 1], pairs[|pairs| - 1];
      OthersAreLoaded(loading, before, e);
      assert pairs == before + [last];
    }
  }

  lemma EthernetIsSaved(saving: set<int>, pins: seq<PinEntry>, filler: nat, pin: Byte)
    ensures PinEntry(pin, ETHERNET) in SavedPairs(saving, pins, filler)
            <==> pin in saving && exists e :: e in pins && e.pin == pin
  {
    var pairs := SavedPairs(saving, pins, filler);
    if k :| 0 <= k < |pairs| && pairs[k] == PinEntry(pin, ETHERNET) {
      assert pins[k] in pins && pins[k].pin == pin;
    }
    if pin in saving && exists e :: e in pins && e.pin == pin {
      var k :| 0 <= k < |pins| && pins[k].pin == pin;
      assert pairs[k] == PinEntry(pin, ETHERNET);
    }
  }

  /** The load tests the role before it has read it, so it does not drop Ethernet from a pin that is
      enabled by then: such a pin is Ethernet after the load exactly if the list saved had an entry
      for it and it was disabled at the save. Holes and pin 0 do not matter. */
  lemma FreedPinStaysEthernet(saving: set<int>, loading: set<int>, pins: seq<PinEntry>, storedLength: nat, pin: Byte)
    requires pin !in loading
    ensures PinEntry(pin, ETHERNET) in LoadAll(loading, Pairs(SavedBytes(saving, pins, storedLength)))
            <==> pin in saving && exists e :: e in pins && e.pin == pin
  {
    PairsOfSaved(saving, pins, storedLength);
    OthersAreLoaded(loading, Pairs(SavedBytes(saving, pins, storedLength)), PinEntry(pin, ETHERNET));
    EthernetIsSaved(saving, pins, SavedLength(pins, storedLength) / 2 - |pins|, pin);
  }

  /** Every other entry of an enabled pin comes back as it was: over a save and a load that both have the
      pin enabled, an entry with a role other than Disabled (0) and Ethernet (21) is loaded exactly if it
      was in the list, and none of role Disabled ever is. */
  lemma OtherEntriesComeBack(saving: set<int>, loading: set<int>, pins: seq<PinEntry>, storedLength: nat, e: PinEntry)
    requires e.pin !in loading && e.role != 21
    ensures var loaded := LoadAll(loading, Pairs(SavedBytes(saving, pins, storedLength)));
            e in loaded <==> e.pin !in saving && e in pins && e.role != 0
  {
    var filler := SavedLength(pins, storedLength) / 2 - |pins|;
    PairsOfSaved(saving, pins, storedLength);
    if e.role == DISABLED {
      NoneDisabled(loading, SavedPairs(saving, pins, filler), e);
    } else {
      OthersAreLoaded(loading, SavedPairs(saving, pins, filler), e);
      OthersAreSaved(saving, pins, filler, e);
    }
  }

  lemma {:induction false} NoneDisabled(loading: set<int>, pairs: seq<PinEntry>, e: PinEntry)
    requires e.role == DISABLED
    ensures e !in LoadAll(loading, pairs)
  {
    if pairs != [] {
      NoneDisabled(loading, pairs[..|pairs| - 1], e);
    }
  }

  lemma OthersAreSaved(saving: set<int>, pins: seq<PinEntry>, filler: nat, e: PinEntry)
    requires e.role != DISABLED && e.role != ETHERNET
    ensures e in SavedPairs(saving, pins, filler) <==> e.pin !in saving && e in pins
  {
    var pairs := SavedPairs(saving, pins, filler);
    if k :| 0 <= k < |pairs| && pairs[k] == e {
      assert pins[k] == e;
    }
    if e.pin !in saving && e in pins {
      var k :| 0 <= k < |pins| && pins[k] == e;
      assert pairs[k] == e;
    }
  }

  /** A pin disabled at the load is loaded as Ethernet exactly if the list saved had it in use or it was
      disabled at the save too; for pin 0 a hole will do. */
  lemma DisabledPinIsLoaded(saving: set<int>, loading: set<int>, pins: seq<PinEntry>, storedLength: nat, pin: Byte)
    requires pin in loading
    ensures var loaded := LoadAll(loading, Pairs(SavedBytes(saving, pins, storedLength)));
            && (PinEntry(pin, 21) in loaded <==>
                  (exists e :: e in pins && e.pin == pin && (pin in saving || e.role !in {0, 21}))
                  || (pin == 0 && Holes(saving, pins, storedLength) > 0))
            && forall e :: e in loaded && e.pin == pin ==> e.role == 21
  {
    var filler := SavedLength(pins, storedLength) / 2 - |pins|;
    PairsOfSaved(saving, pins, storedLength);
    DisabledIsEthernet(loading, SavedPairs(saving, pins, filler), pin);
    DroppedExactly(saving, pins);
    PinIsSaved(saving, pins, filler, pin);
  }

  lemma {:induction false} DisabledIsEthernet(loading: set<int>, pairs: seq<PinEntry>, pin: Byte)
    requires pin in loading
    ensures PinEntry(pin, ETHERNET) in LoadAll(loading, pairs) <==> exists e :: e in pairs && e.pin == pin
    ensures forall e :: e in LoadAll(loading, pairs) && e.pin == pin ==> e.role == ETHERNET
  {
    if pairs != [] {
      var before, last := pairs[..|pairs| - 1], pairs[|pairs| - 1];
      DisabledIsEthernet(loading, before, pin);
      assert pairs == before + [last];
    }
  }

  lemma {:induction false} DroppedExactly(saving: set<int>, pins: seq<PinEntry>)
    ensures Dropped(saving, pins) > 0 <==> exists e :: e in pins && e.pin !in saving && e.role in {0, 21}
  {
    if pins != [] {
      var before, last := pins[..|pins| - 1], pins[|pins| - 1];
      DroppedExactly(saving, before);
      assert pins == before + [last];
    }
  }

  lemma PinIsSaved(saving: set<int>, pins: seq<PinEntry>, filler: nat, pin: Byte)
    ensures (exists e :: e in SavedPairs(saving, pins, filler) && e.pin == pin) <==>
              (exists e :: e in pins && e.pin == pin && (pin in saving || e.role !in {0, 21}))
              || (pin == 0 && (filler > 0 || exists e :: e in pins && e.pin !in saving && e.role in {0, 21}))
  {
    var pairs := SavedPairs(saving, pins, filler);
    forall k | 0 <= k < |pins| ensures pairs[k] in pairs && pins[k] in pins {}
    if filler > 0 {
      assert pairs[|pins|] == PinEntry(0, DISABLED);
    }
    if k :| 0 <= k < |pairs| && pairs[k].pin == pin {
      assert k < |pins| ==> pairs[k] == SavedPair(saving, pins[k]);
    }
    forall e | e in pins ensures SavedPair(saving, e) in pairs {
      var k :| 0 <= k < |pins| && pins[k] == e;
      assert pairs[k] == SavedPair(saving, e);
    }
  }

  /** The next save and load under the new set drop it: no list leaves such a pin as Ethernet then. */
  lemma NextSaveDropsIt(disabled: set<int>, pins: seq<PinEntry>, storedLength: nat, pin: Byte)
    requires pin !in disabled
    ensures PinEntry(pin, ETHERNET) !in LoadAll(disabled, Pairs(SavedBytes(disabled, pins, storedLength)))
  {
    FreedPinStaysEthernet(disabled, disabled, pins, storedLength, pin);
  }

  /** Normalising twice is normalising once, so the second of two round trips changes nothing. */
  lemma {:induction false} NormalizeIsIdempotent(disabled: set<int>, pins: seq<PinEntry>)
    ensures Normalize(disabled, Normalize(disabled, pins)) == Normalize(disabled, pins)
  {
    if pins != [] {
      var before, kept := Normalize(disabled, pins[..|pins| - 1]), Kept(disabled, pins[|pins| - 1]);
      NormalizeIsIdempotent(disabled, pins[..|pins| - 1]);
      if kept != [] {
        assert (before + kept)[..|before + kept| - 1] == before;
      } else {
        assert before + kept == before;
      }
    }
  }

  // ---------------------------------------------------------------- the code

  class Gpio {
    var disabledPins: set<int>
    var stored: seq<Byte>
    var pinConfiguration: seq<PinEntry>

    constructor (disabledPins: set<int>, stored: seq<Byte>)
      ensures this.disabledPins == disabledPins && this.stored == stored && pinConfiguration == []
    {
      this.disabledPins, this.stored, pinConfiguration := disabledPins, stored, [];
    }

    /** Saving nothing over nothing writes nothing: the store refuses a value of length zero. */
    method SavePinConfiguration(pins: seq<PinEntry>)
      modifies this`stored
      ensures stored == SavedBytes(disabledPins, pins, |old(stored)|)
      ensures |stored| == if 2 * |pins| > |old(stored)| then 2 * |pins| else |old(stored)|
    {
      var serialized := new Byte[if 2 * |pins| > |stored| then 2 * |pins| else |stored|](_ => 0);
      ghost var saved := SavedBytes(disabledPins, pins, |stored|);
      for i := 0 to |pins|
        invariant stored == old(stored)
        invariant forall k :: 0 <= k < serialized.Length ==> serialized[k] == if k < 2 * i then saved[k] else 0
      {
        var entry := pins[i];
        assert 2 * i / 2 == i && (2 * i + 1) / 2 == i;
        if entry.pin in disabledPins {
          serialized[i * 2] := entry.pin;
          serialized[i * 2 + 1] := ETHERNET;
        } else if entry.role != DISABLED && entry.role != ETHERNET {
          serialized[i * 2] := entry.pin;
          serialized[i * 2 + 1] := entry.role;
        }
      }
      assert forall k :: 2 * |pins| <= k < |saved| ==> saved[k] == 0;
      assert serialized[..] == saved;
      if serialized.Length > 0 {
        stored := serialized[..];
      }
    }

    /** Without stored bytes the configuration in memory stays as it is. */
    method LoadPinConfiguration()
      modifies this`pinConfiguration
      ensures pinConfiguration ==
                if stored == [] then old(pinConfiguration) else LoadAll(disabledPins, Pairs(stored))
    {
      if |stored| == 0 {
        return;
      }
      var numEntries := |stored| / 2;
      pinConfiguration := [];
      for i := 0 to numEntries
        invariant pinConfiguration == LoadAll(disabledPins, Pairs(stored)[..i])
      {
        assert Pairs(stored)[..i + 1][..i] == Pairs(stored)[..i];
        var pin, role := stored[i * 2], DISABLED;
        if pin !in disabledPins {
          role := stored[i * 2 + 1];
        } else {
          role := ETHERNET;
        }
        if role != DISABLED {
          pinConfiguration := pinConfiguration + [PinEntry(pin, role)];
        }
      }
      assert Pairs(stored)[..numEntries] == Pairs(stored);
    }

    /** Save, perhaps change the hardware, then load. */
    method SaveAndLoad(pins: seq<PinEntry>, disabledNow: set<int>)
      modifies this`stored, this`pinConfiguration, this`disabledPins
      ensures pins != [] || old(stored) != [] ==>
                (pinConfiguration == Disable(disabledNow, Normalize(old(disabledPins), pins)) <==>
                 0 !in disabledNow || Holes(old(disabledPins), pins, |old(stored)|) == 0)
      ensures pins == [] && old(stored) == [] ==> pinConfiguration == old(pinConfiguration)
    {
      SavePinConfiguration(pins);
      RoundTrip(disabledPins, disabledNow, pins, |old(stored)|);
      disabledPins := disabledNow;
      LoadPinConfiguration();
    }
  }
}
