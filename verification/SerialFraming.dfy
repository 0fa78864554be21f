/** Receiving a configuration over the serial line, framed by two marker lines. */
module SerialFraming {
  const START := "-- NUKI HUB CONFIG START --"
  const END := "-- NUKI HUB CONFIG END --"
  const TIMEOUT_MS := 3000

  datatype Line = Line(ts: int, text: string)

  /** `config`, `_receivingConfig`, `_lastCommandTs`, and the text parsed last, if any. */
  datatype Reader = Reader(config: string, receiving: bool, last: int, parsed: seq<string>)

  /** One line; a "reset" restarts the hub, with a reader as new. */
  function Step(r: Reader, line: Line): Reader {
    if line.text == "reset" then Reader("", false, 0, [])
    else
      var late := line.ts - r.last > TIMEOUT_MS;
      var receiving := r.receiving && !late && line.text != END;
      var parsed := if line.text == END then r.parsed + [r.config] else r.parsed;
      var config := if receiving then r.config + line.text else r.config;
      if line.text == START then Reader("", true, line.ts, parsed)
      else Reader(config, receiving, line.ts, parsed)
  }

  function Steps(r: Reader, lines: seq<Line>): Reader {
    if lines == [] then r else Step(Steps(r, lines[..|lines| - 1]), lines[|lines| - 1])
  }

  function Concat(lines: seq<Line>): string {
    if lines == [] then "" else Concat(lines[..|lines| - 1]) + lines[|lines| - 1].text
  }

  // ---------------------------------------------------------------- the text collected so far

  /** Line k comes more than the timeout after the one before. */
  predicate LateAt(lines: seq<Line>, k: nat)
    requires 0 < k < |lines|
  {
    lines[k].ts - lines[k - 1].ts > TIMEOUT_MS
  }

  /** Line k goes on with the frame: it is not END and does not come late. */
  predicate GoesOn(lines: seq<Line>, k: nat)
    requires 0 < k < |lines|
  {
    lines[k].text != END && !LateAt(lines, k)
  }

  /** How many lines after the first of a frame are collected: those before the first END or the
      first gap. */
  function Collected(frame: seq<Line>): nat
    ensures frame != [] ==> Collected(frame) < |frame|
  {
    if |frame| <= 1 then 0
    else
      var before := frame[..|frame| - 1];
      Collected(before) + if Collected(before) == |before| - 1 && GoesOn(frame, |before|) then 1 else 0
  }

  /** Collected, said without recursion: the lines up to it go on, and the next one, if there is
      one, does not. */
  lemma {:induction false} CollectedStopsAtEndOrGap(frame: seq<Line>)
    requires frame != []
    ensures var n := Collected(frame);
            && (forall k :: 0 < k <= n ==> GoesOn(frame, k))
            && (n + 1 < |frame| ==> !GoesOn(frame, n + 1))
  {
    if |frame| > 1 {
      var before := frame[..|frame| - 1];
      CollectedStopsAtEndOrGap(before);
      assert forall k :: 0 < k < |before| ==> GoesOn(frame, k) == GoesOn(before, k);
    }
  }

  /** A frame from its START on, without another START and without a restart. */
  ghost predicate IsFrame(frame: seq<Line>) {
    && frame != [] && frame[0].text == START
    && forall k :: 0 < k < |frame| ==> frame[k].text != START && frame[k].text != "reset"
  }

  /** At every point after a START, whatever came before it, the text held is the lines after that
      START up to the first END or gap, and the reader is receiving iff there was neither. */
  lemma {:induction false} HoldsFrame(r: Reader, frame: seq<Line>)
    requires IsFrame(frame)
    ensures var s := Steps(r, frame);
            && s.config == Concat(frame[1..Collected(frame) + 1])
            && s.receiving == (Collected(frame) == |frame| - 1)
            && s.last == frame[|frame| - 1].ts
  {
    var n := |frame|;
    if n == 1 {
      assert Steps(r, frame[..0]) == r && frame[1..1] == [];
    } else {
      var before := frame[..n - 1];
      HoldsFrame(r, before);
      FrameStep(Steps(r, before), frame);
    }
  }

  lemma FrameStep(r: Reader, frame: seq<Line>)
    requires IsFrame(frame) && |frame| > 1
    requires var before := frame[..|frame| - 1];
             && r.config == Concat(before[1..Collected(before) + 1])
             && r.receiving == (Collected(before) == |before| - 1)
             && r.last == before[|before| - 1].ts
    ensures var s := Step(r, frame[|frame| - 1]);
            && s.config == Concat(frame[1..Collected(frame) + 1])
            && s.receiving == (Collected(frame) == |frame| - 1)
            && s.last == frame[|frame| - 1].ts
  {
    var before, c := frame[..|frame| - 1], Collected(frame[..|frame| - 1]);
    assert before[1..c + 1] == frame[1..c + 1];
    if Collected(frame) == c + 1 {
      assert frame[1..c + 2][..c] == frame[1..c + 1];
    }
  }

  lemma {:induction false} StepsTwice(r: Reader, a: seq<Line>, b: seq<Line>)
    ensures Steps(r, a + b) == Steps(Steps(r, a), b)
  {
    if b == [] {
      assert a + b == a;
    } else {
      assert (a + b)[..|a + b| - 1] == a + b[..|b| - 1];
      StepsTwice(r, a, b[..|b| - 1]);
    }
  }

  /** Over every history: the lines up to the latest START decide nothing about the text held. */
  lemma HoldsLatestFrame(r: Reader, history: seq<Line>, frame: seq<Line>)
    requires IsFrame(frame)
    ensures Steps(r, history + frame).config == Concat(frame[1..Collected(frame) + 1])
  {
    StepsTwice(r, history, frame);
    HoldsFrame(Steps(r, history), frame);
  }

  // ---------------------------------------------------------------- whole transmissions

  ghost predicate MarkerFree(lines: seq<Line>) {
    forall k :: 0 <= k < |lines| ==> lines[k].text != START && lines[k].text != END && lines[k].text != "reset"
  }

  /** A START, the lines of a text, and an END. */
  function Transmission(start: int, lines: seq<Line>, end: int): seq<Line> {
    [Line(start, START)] + lines + [Line(end, END)]
  }

  /** The number of lines before the first that comes late. */
  function InTime(start: int, lines: seq<Line>): nat { Collected([Line(start, START)] + lines) }

  /** Sending a text as marker-free lines between START and END, to a reader in any state: the text
      parsed is the lines before the first gap, so the whole text exactly if the rest says nothing. */
  lemma TransmissionParses(r: Reader, start: int, lines: seq<Line>, end: int)
    requires MarkerFree(lines)
    ensures InTime(start, lines) <= |lines|
    ensures var s := Steps(r, Transmission(start, lines, end));
            && s.parsed == r.parsed + [Concat(lines[..InTime(start, lines)])]
            && (s.parsed == r.parsed + [Concat(lines)] <==> Concat(lines[InTime(start, lines)..]) == "")
            && !s.receiving
  {
    var frame := [Line(start, START)] + lines;
    var all := Transmission(start, lines, end);
    assert all[..|all| - 1] == frame;
    HoldsFrame(r, frame);
    var n := InTime(start, lines);
    assert frame[1..n + 1] == lines[..n];
    ParsesNothing(r, frame);
    WholeIfRestIsEmpty(lines, n);
    SameHistories(r.parsed, Concat(lines[..n]), Concat(lines));
  }

  lemma SameHistories(parsed: seq<string>, a: string, b: string)
    ensures parsed + [a] == parsed + [b] <==> a == b
  {
    assert (parsed + [a])[|parsed|] == a && (parsed + [b])[|parsed|] == b;
  }

  lemma WholeIfRestIsEmpty(lines: seq<Line>, n: nat)
    requires n <= |lines|
    ensures Concat(lines[..n]) == Concat(lines) <==> Concat(lines[n..]) == ""
  {
    assert lines == lines[..n] + lines[n..];
    ConcatOfSum(lines[..n], lines[n..]);
    NothingAppended(Concat(lines[..n]), Concat(lines[n..]));
  }

  lemma NothingAppended(a: string, b: string)
    ensures a + b == a <==> b == ""
  {
    assert |a + b| == |a| + |b|;
  }

  lemma {:induction false} ParsesNothing(r: Reader, lines: seq<Line>)
    requires forall k :: 0 <= k < |lines| ==> lines[k].text != END && lines[k].text != "reset"
    ensures Steps(r, lines).parsed == r.parsed
  {
    if lines != [] {
      ParsesNothing(r, lines[..|lines| - 1]);
    }
  }

  lemma {:induction false} ConcatOfSum(a: seq<Line>, b: seq<Line>)
    ensures Concat(a + b) == Concat(a) + Concat(b)
  {
    if b == [] {
      assert a + b == a;
    } else {
      assert (a + b)[..|a + b| - 1] == a + b[..|b| - 1];
      ConcatOfSum(a, b[..|b| - 1]);
    }
  }

  /** With no gap over the timeout the text arrives whole. */
  lemma PromptTransmissionArrives(r: Reader, start: int, lines: seq<Line>, end: int)
    requires MarkerFree(lines)
    requires forall k :: 0 < k <= |lines| ==> !LateAt([Line(start, START)] + lines, k)
    ensures Steps(r, Transmission(start, lines, end)).parsed == r.parsed + [Concat(lines)]
  {
    TransmissionParses(r, start, lines, end);
    CollectedStopsAtEndOrGap([Line(start, START)] + lines);
    assert InTime(start, lines) == |lines|;
    assert lines[..|lines|] == lines;
  }

  /** Each END makes the reader parse the text it holds, also outside a frame, and nothing else does; a
      "reset" forgets everything. */
  lemma ParsesAtEachEnd(r: Reader, history: seq<Line>, line: Line)
    ensures var before, s := Steps(r, history), Steps(r, history + [line]);
            && (line.text == "-- NUKI HUB CONFIG END --" ==> s.parsed == before.parsed + [before.config])
            && (line.text != "-- NUKI HUB CONFIG END --" && line.text != "reset" ==> s.parsed == before.parsed)
            && (line.text == "reset" ==> s == Reader("", false, 0, []))
  {
    assert (history + [line])[..|history|] == history;
  }

  // ---------------------------------------------------------------- the code

  class SerialReader {
    var config: string
    var receivingConfig: bool
    var lastCommandTs: int
    var parsed: seq<string>

    constructor ()
      ensures State() == Reader("", false, 0, [])
    {
      config, receivingConfig, lastCommandTs, parsed := "", false, 0, [];
    }

    function State(): Reader reads this { Reader(config, receivingConfig, lastCommandTs, parsed) }

    method Restart()
      modifies this
      ensures State() == Reader("", false, 0, [])
    {
      config, receivingConfig, lastCommandTs, parsed := "", false, 0, [];
    }

    method Update(ts: int, line: string)
      modifies this
      ensures State() == Step(old(State()), Line(ts, line))
      ensures line == "reset" ==> State() == Reader("", false, 0, [])
      ensures line != "reset" ==>
                var ends, starts := line == "-- NUKI HUB CONFIG END --", line == "-- NUKI HUB CONFIG START --";
                var on := old(receivingConfig) && ts - old(lastCommandTs) <= 3000 && !ends;
                && lastCommandTs == ts
                && receivingConfig == (on || starts)
                && config == (if starts then "" else if on then old(config) + line else old(config))
                && parsed == old(parsed) + if ends then [old(config)] else []
    {
      if ts - lastCommandTs > 3000 {
        receivingConfig := false;
      }
      lastCommandTs := ts;
      if line == "reset" {
        Restart();
        return;
      }
      if line == END {
        receivingConfig := false;
        parsed := parsed + [config];
      }
      if receivingConfig {
        config := config + line;
      }
      if line == START {
        config := "";
        receivingConfig := true;
      }
    }
  }
}
