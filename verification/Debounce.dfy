/** Debouncing of input pins: one byte a pin, a shift register of samples below the last level. */
module Debounce {
  datatype Role = Command | BothEdges

  /** One call with a sample: the new byte and whether the pin triggers. */
  datatype Outcome = Outcome(byte: bv8, triggered: bool)

  function Bit(sample: bool): bv8 { if sample then 1 else 0 }

  // ---------------------------------------------------------------- specification

  /** The value of the latest three equal consecutive samples; LOW before there are any. */
  function Level(samples: seq<bool>): bool {
    var n := |samples|;
    if n < 3 then false
    else if samples[n - 1] == samples[n - 2] == samples[n - 3] then samples[n - 1]
    else Level(samples[..n - 1])
  }

  predicate Changes(samples: seq<bool>)
    requires samples != []
  {
    Level(samples) != Level(samples[..|samples| - 1])
  }

  /** The latest sample triggers iff it changes the level, for a command only if to LOW. */
  predicate Triggers(role: Role, samples: seq<bool>)
    requires samples != []
  {
    Changes(samples) && (role.BothEdges? || !Level(samples))
  }

  /** The sample k places back from the end, LOW before the first. */
  function Back(samples: seq<bool>, k: nat): bool {
    k < |samples| && samples[|samples| - 1 - k]
  }

  // ---------------------------------------------------------------- the byte

  /** What a byte says: its low three bits are the latest three samples, its top bit the level. */
  datatype Register = Register(latest: bool, second: bool, third: bool, level: bool)

  function Read(byte: bv8): Register {
    Register(byte & 1 == 1, byte & 2 == 2, byte & 4 == 4, byte & 0x80 == 0x80)
  }

  /** What it should say after a sequence of samples. */
  function Expected(samples: seq<bool>): Register {
    Register(Back(samples, 0), Back(samples, 1), Back(samples, 2), Level(samples))
  }

  /** The body of `isTriggered` on one byte. */
  function Sampled(byte: bv8, role: Role, sample: bool): Outcome {
    var state := Bit(sample);
    var lastState := (byte & 0x80) >> 7;
    var shifted := ((byte & 0x7f) << 1) | state;
    var kept := (shifted & 0x7f) | (lastState << 7);
    var pinState := shifted & 0x07;
    if pinState != 0x00 && pinState != 0x07 then Outcome(kept, false)
    else if state != lastState then
      Outcome((pinState & 0x7f) | (state << 7), role.BothEdges? || state == 0)
    else Outcome(kept, false)
  }

  /** The level that follows three equal samples. */
  function NextLevel(r: Register, sample: bool): bool {
    if sample == r.latest == r.second then sample else r.level
  }

  /** One step of the byte: the register shifts, the level follows three equal samples, and a
      change of level triggers. */
  lemma SampledShifts(byte: bv8, role: Role, sample: bool)
    ensures var r, o := Read(byte), Sampled(byte, role, sample);
            && Read(o.byte) == Register(sample, r.latest, r.second, NextLevel(r, sample))
            && (o.triggered <==> NextLevel(r, sample) != r.level && (role.BothEdges? || !sample))
  {
  }

  /** One step of the specification, before the third sample too. */
  lemma LevelStep(samples: seq<bool>, sample: bool)
    ensures var all := samples + [sample];
            && Expected(all) == Register(sample, Back(samples, 0), Back(samples, 1), Level(all))
            && Level(all) == NextLevel(Expected(samples), sample)
  {
    var all := samples + [sample];
    assert all[..|all| - 1] == samples;
  }

  // ---------------------------------------------------------------- whole sample sequences

  /** The byte after a sequence of samples, from zero. */
  function ByteAfter(role: Role, samples: seq<bool>): bv8 {
    if samples == [] then 0
    else Sampled(ByteAfter(role, samples[..|samples| - 1]), role, samples[|samples| - 1]).byte
  }

  /** Although bits 3 to 6 are lost on a change, the byte tracks the debounced level over every
      sequence of samples. */
  lemma {:induction false} ByteTracksLevel(role: Role, samples: seq<bool>)
    ensures Read(ByteAfter(role, samples)) == Expected(samples)
  {
    if samples != [] {
      var before, last := samples[..|samples| - 1], samples[|samples| - 1];
      ByteTracksLevel(role, before);
      SampledShifts(ByteAfter(role, before), role, last);
      LevelStep(before, last);
      assert before + [last] == samples;
    }
  }

  /** A trigger is reported for exactly the samples the specification asks for. */
  lemma TriggersAsSpecified(role: Role, samples: seq<bool>)
    requires samples != []
    ensures var before := samples[..|samples| - 1];
            Sampled(ByteAfter(role, before), role, samples[|samples| - 1]).triggered == Triggers(role, samples)
  {
    var before, last := samples[..|samples| - 1], samples[|samples| - 1];
    ByteTracksLevel(role, before);
    SampledShifts(ByteAfter(role, before), role, last);
    LevelStep(before, last);
    assert before + [last] == samples;
  }

  function TriggerCount(role: Role, samples: seq<bool>): nat {
    if samples == [] then 0
    else TriggerCount(role, samples[..|samples| - 1]) + if Triggers(role, samples) then 1 else 0
  }

  /** Latest samples in a row that differ from the level. */
  function Differing(samples: seq<bool>): nat {
    if samples == [] || samples[|samples| - 1] == Level(samples) then 0
    else if Back(samples, 0) == Back(samples, 1) then 2
    else 1
  }

  /** Every level change takes three samples, and commands trigger on every second one: at most
      n/3 triggers in n samples on both edges, n/6 for commands. */
  lemma {:induction false} TriggersAreRare(samples: seq<bool>)
    ensures 3 * TriggerCount(BothEdges, samples) + Differing(samples) <= |samples|
    ensures 2 * TriggerCount(Command, samples) + (if Level(samples) then 1 else 0) == TriggerCount(BothEdges, samples)
    ensures 6 * TriggerCount(Command, samples) <= |samples|
  {
    if samples != [] {
      var before, last := samples[..|samples| - 1], samples[|samples| - 1];
      TriggersAreRare(before);
      LevelStep(before, last);
      assert before + [last] == samples;
    }
  }

  /** Three HIGH then three LOW samples, n times. */
  function Waves(n: nat): seq<bool> {
    if n == 0 then [] else Waves(n - 1) + [true] + [true] + [true] + [false] + [false] + [false]
  }

  /** The level, the latest two samples, and the trigger counts of both kinds of role. */
  datatype Summary = Summary(level: bool, latest: bool, previous: bool, both: nat, commands: nat)

  function Summarize(samples: seq<bool>): Summary {
    Summary(Level(samples), Back(samples, 0), Back(samples, 1),
            TriggerCount(BothEdges, samples), TriggerCount(Command, samples))
  }

  function Extend(s: Summary, sample: bool): Summary {
    var level := if sample == s.latest == s.previous then sample else s.level;
    Summary(level, sample, s.latest, s.both + (if level != s.level then 1 else 0),
            s.commands + if level != s.level && !level then 1 else 0)
  }

  lemma Append(samples: seq<bool>, sample: bool)
    ensures Summarize(samples + [sample]) == Extend(Summarize(samples), sample)
  {
    LevelStep(samples, sample);
    assert (samples + [sample])[..|samples|] == samples;
  }

  lemma ThreeMore(samples: seq<bool>, sample: bool)
    ensures Summarize(samples + [sample] + [sample] + [sample])
         == Extend(Extend(Extend(Summarize(samples), sample), sample), sample)
  {
    Append(samples, sample);
    Append(samples + [sample], sample);
    Append(samples + [sample] + [sample], sample);
  }

  lemma OneWave(samples: seq<bool>, next: seq<bool>, both: nat, commands: nat)
    requires Summarize(samples) == Summary(false, false, false, both, commands)
    requires next == samples + [true] + [true] + [true] + [false] + [false] + [false]
    ensures Summarize(next) == Summary(false, false, false, both + 2, commands + 1)
  {
    ThreeMore(samples, true);
    ThreeMore(samples + [true] + [true] + [true], false);
  }

  /** Both bounds are met, for every length. */
  lemma {:induction false} WavesMeetTheBounds(n: nat)
    ensures |Waves(n)| == 6 * n && Summarize(Waves(n)) == Summary(false, false, false, 2 * n, n)
  {
    if n > 0 {
      WavesMeetTheBounds(n - 1);
      OneWave(Waves(n - 1), Waves(n), 2 * (n - 1), n - 1);
    }
  }

  // ---------------------------------------------------------------- the code

  class Gpio {
    const triggerState: array<bv8>

    constructor (pins: nat)
      ensures triggerState.Length == pins && fresh(triggerState)
      ensures forall p :: 0 <= p < pins ==> triggerState[p] == 0
    {
      triggerState := new bv8[pins](_ => 0);
    }

    /** One slot per pin number; the other pins' bytes stay. */
    method IsTriggered(pin: nat, role: Role, sample: bool) returns (r: bool)
      requires pin < triggerState.Length
      modifies triggerState
      ensures Outcome(triggerState[pin], r) == Sampled(old(triggerState[pin]), role, sample)
      ensures forall p :: 0 <= p < triggerState.Length && p != pin ==> triggerState[p] == old(triggerState[p])
    {
      var state: bv8 := if sample then 1 else 0;
      var lastState := (triggerState[pin] & 0x80) >> 7;
      var pinState := triggerState[pin] & 0x7f;
      pinState := (pinState << 1) | state;
      triggerState[pin] := (pinState & 0x7f) | (lastState << 7);
      pinState := pinState & 0x07;
      if pinState != 0x00 && pinState != 0x07 {
        return false;
      }
      if state != lastState {
        triggerState[pin] := (pinState & 0x7f) | (state << 7);
      } else {
        return false;
      }
      if role.BothEdges? {
        return true;
      }
      return state == 0;
    }

    /** Any sequence of samples on one pin that starts from a cleared byte. */
    method Watch(pin: nat, role: Role, samples: seq<bool>) returns (count: nat)
      requires pin < triggerState.Length && triggerState[pin] == 0
      modifies triggerState
      ensures Read(triggerState[pin]) == Expected(samples)
      ensures count == TriggerCount(role, samples)
    {
      count := 0;
      for n := 0 to |samples|
        invariant triggerState[pin] == ByteAfter(role, samples[..n])
        invariant count == TriggerCount(role, samples[..n])
      {
        assert samples[..n + 1][..n] == samples[..n];
        TriggersAsSpecified(role, samples[..n + 1]);
        var r := IsTriggered(pin, role, samples[n]);
        if r {
          count := count + 1;
        }
      }
      assert samples[..|samples|] == samples;
      ByteTracksLevel(role, samples);
    }
  }
}
