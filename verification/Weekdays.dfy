/** Weekday lists: read from the text of a JSON array by substring tests, written from a bit mask. */
module Weekdays {
  datatype Day = Mon | Tue | Wed | Thu | Fri | Sat | Sun

  function Name(d: Day): (s: string)
    ensures |s| == 3 && 'a' <= s[0] <= 'z' && 'a' <= s[1] <= 'z' && 'a' <= s[2] <= 'z'
  {
    match d
    case Mon => "mon" case Tue => "tue" case Wed => "wed" case Thu => "thu"
    case Fri => "fri" case Sat => "sat" case Sun => "sun"
  }

  /** The names by the day, from Monday on. */
  lemma NamesOfDays()
    ensures Name(Mon) == "mon" && Name(Tue) == "tue" && Name(Wed) == "wed" && Name(Thu) == "thu"
    ensures Name(Fri) == "fri" && Name(Sat) == "sat" && Name(Sun) == "sun"
  {
  }

  /** The bit of a day in a mask, counted from the lowest. */
  function Position(d: Day): nat {
    match d
    case Mon => 6 case Tue => 5 case Wed => 4 case Thu => 3
    case Fri => 2 case Sat => 1 case Sun => 0
  }

  function Bit(d: Day): nat { Pow2(Position(d)) }

  function Pow2(k: nat): (p: nat)
    ensures p > 0
  {
    if k == 0 then 1 else 2 * Pow2(k - 1)
  }

  lemma NamesDiffer(a: Day, b: Day)
    requires Name(a)[0] == Name(b)[0] && Name(a)[1] == Name(b)[1]
    ensures a == b
  {
  }

  // ---------------------------------------------------------------- the text of a JSON array

  function Items(days: seq<Day>): string {
    if days == [] then ""
    else
      Items(days[..|days| - 1]) + (if |days| > 1 then "," else "") + "\"" + Name(days[|days| - 1]) + "\""
  }

  function Serialize(days: seq<Day>): string { "[" + Items(days) + "]" }

  /** `indexOf(pattern) >= 0` for a pattern of three characters. */
  predicate Contains(text: string, pattern: string)
    requires |pattern| == 3
  {
    exists i :: 0 <= i <= |text| - 3 && FoundAt(text, pattern, i)
  }

  predicate FoundAt(text: string, pattern: string, i: nat)
    requires |pattern| == 3 && i + 3 <= |text|
  {
    text[i] == pattern[0] && text[i + 1] == pattern[1] && text[i + 2] == pattern[2]
  }

  lemma ContainsIsSubstring(text: string, pattern: string)
    requires |pattern| == 3
    ensures Contains(text, pattern) <==> exists before, behind :: text == before + pattern + behind
  {
    if i :| 0 <= i <= |text| - 3 && FoundAt(text, pattern, i) {
      assert text == text[..i] + pattern + text[i + 3..];
    }
    if before, behind :| text == before + pattern + behind {
      assert FoundAt(before + pattern + behind, pattern, |before|);
    }
  }

  /** The text repeats every six characters: quote, name, quote, comma. */
  lemma {:induction false} ItemsAt(days: seq<Day>, k: nat)
    requires k < |days|
    ensures |Items(days)| == 6 * |days| - 1
    ensures var t, p := Items(days), 6 * k;
            && t[p] == '"' && t[p + 1] == Name(days[k])[0] && t[p + 2] == Name(days[k])[1]
            && t[p + 3] == Name(days[k])[2] && t[p + 4] == '"'
            && (k + 1 < |days| ==> t[p + 5] == ',')
  {
    var before, last := days[..|days| - 1], days[|days| - 1];
    if k + 1 < |days| {
      ItemsAt(before, k);
    } else if before != [] {
      ItemsAt(before, 0);
    }
  }

  /** No match crosses the boundary of an element: a day's name occurs in the text of an array of
      day names iff the day is in the array. */
  lemma NameOccursIffListed(days: seq<Day>, d: Day)
    ensures Contains(Serialize(days), Name(d)) <==> d in days
  {
    var text := Serialize(days);
    if d in days {
      var k :| 0 <= k < |days| && days[k] == d;
      ItemsAt(days, k);
      assert FoundAt(text, Name(d), 6 * k + 2);
    }
    if Contains(text, Name(d)) {
      var i :| 0 <= i <= |text| - 3 && FoundAt(text, Name(d), i);
      MatchIsElement(days, d, i);
    }
  }

  predicate IsLetter(c: char) { 'a' <= c <= 'z' }

  lemma ThreeLettersAreAName(days: seq<Day>, p: nat)
    requires p + 3 <= |Items(days)|
    requires IsLetter(Items(days)[p]) && IsLetter(Items(days)[p + 1]) && IsLetter(Items(days)[p + 2])
    ensures p % 6 == 1 && p / 6 < |days|
  {
    ItemsLength(days);
    ItemsAt(days, p / 6);
    assert p == 6 * (p / 6) + p % 6;
  }

  lemma MatchIsElement(days: seq<Day>, d: Day, i: nat)
    requires i + 3 <= |Serialize(days)| && FoundAt(Serialize(days), Name(d), i)
    ensures d in days
  {
    var text, t := Serialize(days), Items(days);
    assert text[0] == '[' && text[|text| - 1] == ']' && |text| == |t| + 2;
    assert text[i] == t[i - 1] && text[i + 1] == t[i] && text[i + 2] == t[i + 1];
    NameInItems(days, d, i - 1);
  }

  lemma NameInItems(days: seq<Day>, d: Day, p: nat)
    requires p + 3 <= |Items(days)| && FoundAt(Items(days), Name(d), p)
    ensures d in days
  {
    ThreeLettersAreAName(days, p);
    ItemsAt(days, p / 6);
    NamesDiffer(d, days[p / 6]);
  }

  lemma ItemsLength(days: seq<Day>)
    ensures |Items(days)| == if days == [] then 0 else 6 * |days| - 1
  {
    if days != [] {
      ItemsAt(days, 0);
    }
  }

  // ---------------------------------------------------------------- masks

  predicate HasBit(n: nat, k: nat) {
    if k == 0 then n % 2 == 1 else HasBit(n / 2, k - 1)
  }

  predicate Has(n: nat, d: Day) { HasBit(n, Position(d)) }

  function Value(bit: bool): nat { if bit then 1 else 0 }

  function DayAt(k: nat): Day
    requires k < 7
  {
    if k == 6 then Mon else if k == 5 then Tue else if k == 4 then Wed else if k == 3 then Thu
    else if k == 2 then Fri else if k == 1 then Sat else Sun
  }

  /** The mask of the days listed, without its lowest k bits. */
  function Upper(days: seq<Day>, k: nat): nat
    requires k <= 7
    decreases 7 - k
  {
    if k == 7 then 0 else 2 * Upper(days, k + 1) + Value(DayAt(k) in days)
  }

  function Mask(days: seq<Day>): nat { Upper(days, 0) }

  lemma UpperHalves(days: seq<Day>, k: nat)
    requires k < 7
    ensures Upper(days, k) / 2 == Upper(days, k + 1)
    ensures Upper(days, k) % 2 == Value(DayAt(k) in days)
  {
  }

  lemma {:induction false} UpperHasBits(days: seq<Day>, k: nat, j: nat)
    requires k + j < 7
    ensures HasBit(Upper(days, k), j) <==> DayAt(k + j) in days
    decreases j
  {
    UpperHalves(days, k);
    if j > 0 {
      UpperHasBits(days, k + 1, j - 1);
    }
  }

  lemma {:induction false} UpperIsBelow(days: seq<Day>, k: nat)
    requires k <= 7
    ensures Upper(days, k) < Pow2(7 - k)
    decreases 7 - k
  {
    if k < 7 {
      UpperIsBelow(days, k + 1);
    }
  }

  lemma {:induction false} BitsDetermine(m: nat, n: nat, width: nat)
    requires m < Pow2(width) && n < Pow2(width) && forall k :: 0 <= k < width ==> HasBit(m, k) == HasBit(n, k)
    ensures m == n
  {
    if width > 0 {
      assert HasBit(m, 0) == HasBit(n, 0);
      forall k | 0 <= k < width - 1 ensures HasBit(m / 2, k) == HasBit(n / 2, k) {
        assert HasBit(m, k + 1) == HasBit(n, k + 1);
      }
      BitsDetermine(m / 2, n / 2, width - 1);
    }
  }

  lemma MaskHasListedDays(days: seq<Day>, d: Day)
    ensures Mask(days) < 128 && (Has(Mask(days), d) <==> d in days)
  {
    UpperIsBelow(days, 0);
    assert Pow2(7) == 128;
    UpperHasBits(days, 0, Position(d));
  }

  /** A mask below 128 is determined by its days. */
  lemma MaskOfBits(n: nat, days: seq<Day>)
    requires n < 128 && forall d :: d in days <==> Has(n, d)
    ensures Mask(days) == n
  {
    assert Pow2(7) == 128;
    forall k | 0 <= k < 7 ensures HasBit(Mask(days), k) == HasBit(n, k) {
      var d := DayAt(k);
      MaskHasListedDays(days, d);
      assert Has(n, d) <==> d in days;
    }
    MaskHasListedDays(days, Mon);
    BitsDetermine(Mask(days), n, 7);
  }

  /** The day the greedy loop takes off first. */
  function Top(n: nat): Day
    requires n > 0
  {
    if n >= 64 then Mon else if n >= 32 then Tue else if n >= 16 then Wed else if n >= 8 then Thu
    else if n >= 4 then Fri else if n >= 2 then Sat else Sun
  }

  function Greedy(n: nat): seq<Day> {
    if n == 0 then [] else [Top(n)] + Greedy(n - Bit(Top(n)))
  }

  /** Below 128 the greedy loop lists exactly the set bits, each once, from high to low. */
  lemma {:induction false} GreedyListsBits(n: nat)
    requires n < 128
    ensures forall d :: d in Greedy(n) <==> Has(n, d)
    ensures forall i, j :: 0 <= i < j < |Greedy(n)| ==> Bit(Greedy(n)[i]) > Bit(Greedy(n)[j])
  {
    if n > 0 {
      var top, rest := Top(n), n - Bit(Top(n));
      GreedyListsBits(rest);
      TopBitOff(n, top);
      forall d ensures Has(n, d) <==> d == top || Has(rest, d) {
        TopBitOff(n, d);
      }
      forall d | d in Greedy(rest) ensures Bit(d) < Bit(top) {
        TopBitOff(n, d);
      }
    } else {
      forall d ensures !Has(0, d) {
        ZeroHasNoBit(Position(d));
      }
    }
  }

  lemma TopBitOff(n: nat, d: Day)
    requires 0 < n < 128
    ensures Has(n, d) <==> d == Top(n) || Has(n - Bit(Top(n)), d)
    ensures Has(n - Bit(Top(n)), d) ==> Bit(d) < Bit(Top(n))
  {
    BitsOfDays();
    HighestBitOff(n, Position(Top(n)), Position(d));
  }

  lemma {:induction false} HighestBitOff(n: nat, top: nat, k: nat)
    requires Pow2(top) <= n < 2 * Pow2(top)
    ensures HasBit(n, k) <==> k == top || HasBit(n - Pow2(top), k)
    ensures HasBit(n - Pow2(top), k) ==> k < top
    decreases k
  {
    if k > 0 {
      if top > 0 {
        HighestBitOff(n / 2, top - 1, k - 1);
        assert (n - Pow2(top)) / 2 == n / 2 - Pow2(top - 1);
      } else {
        ZeroHasNoBit(k);
        ZeroHasNoBit(k - 1);
      }
    }
  }

  lemma {:induction false} ZeroHasNoBit(k: nat)
    ensures !HasBit(0, k)
  {
    if k > 0 {
      ZeroHasNoBit(k - 1);
    }
  }

  /** From 128 on Monday comes at least twice. */
  lemma GreedyRepeatsMonday(n: nat)
    requires n >= 128
    ensures |Greedy(n)| >= 2 && Greedy(n)[0] == Greedy(n)[1] == Mon
  {
    assert Greedy(n) == [Mon] + Greedy(n - 64);
    assert Greedy(n - 64) == [Mon] + Greedy(n - 64 - 64);
  }

  lemma BitsOfDays()
    ensures Bit(Mon) == 64 && Bit(Tue) == 32 && Bit(Wed) == 16 && Bit(Thu) == 8
    ensures Bit(Fri) == 4 && Bit(Sat) == 2 && Bit(Sun) == 1
  {
    assert Pow2(6) == 64 && Pow2(5) == 32 && Pow2(4) == 16 && Pow2(3) == 8 && Pow2(2) == 4 && Pow2(1) == 2;
  }

  function Add(mask: nat, text: string, d: Day): nat {
    mask + if Contains(text, Name(d)) then Bit(d) else 0
  }

  function Encoded(text: string): nat {
    var weekend := Add(Add(0, text, Sat), text, Sun);
    Add(Add(Add(Add(Add(weekend, text, Mon), text, Tue), text, Wed), text, Thu), text, Fri)
  }

  /** Encoding the text of any list of day names, repeats and all, gives the bits of the days named. */
  lemma EncodesListedDays(days: seq<Day>)
    ensures Encoded(Serialize(days)) == Mask(days)
  {
    NameOccursIffListed(days, Mon);
    NameOccursIffListed(days, Tue);
    NameOccursIffListed(days, Wed);
    NameOccursIffListed(days, Thu);
    NameOccursIffListed(days, Fri);
    NameOccursIffListed(days, Sat);
    NameOccursIffListed(days, Sun);
    BitsOfDays();
    MaskIsSum(days);
  }

  lemma MaskIsSum(days: seq<Day>)
    ensures Mask(days) == 64 * Value(Mon in days) + 32 * Value(Tue in days) + 16 * Value(Wed in days)
                          + 8 * Value(Thu in days) + 4 * Value(Fri in days)
                          + 2 * Value(Sat in days) + Value(Sun in days)
  {
    assert Upper(days, 6) == Value(Mon in days);
    assert Upper(days, 5) == 2 * Upper(days, 6) + Value(Tue in days);
    assert Upper(days, 4) == 2 * Upper(days, 5) + Value(Wed in days);
    assert Upper(days, 3) == 2 * Upper(days, 4) + Value(Thu in days);
    assert Upper(days, 2) == 2 * Upper(days, 3) + Value(Fri in days);
    assert Upper(days, 1) == 2 * Upper(days, 2) + Value(Sat in days);
  }

  /** Decoding and encoding a mask gives it back exactly if it is below 128. */
  lemma MaskRoundTrip(n: nat)
    ensures Encoded(Serialize(Greedy(n))) == n <==> n < 128
  {
    EncodesListedDays(Greedy(n));
    MaskHasListedDays(Greedy(n), Mon);
    if n < 128 {
      GreedyListsBits(n);
      MaskOfBits(n, Greedy(n));
    }
  }

  /** Encoding and decoding a list keeps the days it names, without repeats and in weekly order. */
  lemma ListRoundTrip(days: seq<Day>)
    ensures var back := Greedy(Encoded(Serialize(days)));
            && (forall d :: d in back <==> d in days)
            && forall i, j :: 0 <= i < j < |back| ==> Bit(back[i]) > Bit(back[j])
  {
    EncodesListedDays(days);
    MaskHasListedDays(days, Mon);
    GreedyListsBits(Mask(days));
    forall d ensures Has(Mask(days), d) <==> d in days {
      MaskHasListedDays(days, d);
    }
  }

  function SumOfBits(days: seq<Day>): nat {
    if days == [] then 0 else Bit(days[0]) + SumOfBits(days[1..])
  }

  /** For every value, also from 128 on, the bits of the days listed sum up to it, from high to low. */
  lemma {:induction false} GreedySumsUp(n: nat)
    ensures SumOfBits(Greedy(n)) == n
    ensures forall i, j :: 0 <= i < j < |Greedy(n)| ==> Bit(Greedy(n)[i]) >= Bit(Greedy(n)[j])
  {
    BitsOfDays();
    if n > 0 {
      var rest := n - Bit(Top(n));
      GreedySumsUp(rest);
      assert Greedy(n)[1..] == Greedy(rest);
      if rest > 0 {
        assert Bit(Top(n)) >= Bit(Top(rest)) && Greedy(rest)[0] == Top(rest);
      }
      forall j | 0 < j < |Greedy(n)| ensures Bit(Greedy(n)[0]) >= Bit(Greedy(n)[j]) {
        assert Greedy(n)[j] == Greedy(rest)[j - 1];
        assert j - 1 > 0 ==> Bit(Greedy(rest)[0]) >= Bit(Greedy(rest)[j - 1]);
      }
    }
  }

  function Weight(text: string, name: string, bit: nat): nat
    requires |name| == 3
  {
    if Contains(text, name) then bit else 0
  }

  lemma EncodedIsWeighted(text: string)
    ensures Encoded(text) == Weight(text, "mon", 64) + Weight(text, "tue", 32) + Weight(text, "wed", 16)
              + Weight(text, "thu", 8) + Weight(text, "fri", 4) + Weight(text, "sat", 2) + Weight(text, "sun", 1)
  {
    BitsOfDays();
    NamesOfDays();
  }

  // ---------------------------------------------------------------- the code

  method Encode(weekdays: string) returns (weekdaysInt: nat)
    ensures weekdaysInt == Encoded(weekdays)
    ensures weekdaysInt ==
              Weight(weekdays, "mon", 64) + Weight(weekdays, "tue", 32) + Weight(weekdays, "wed", 16)
              + Weight(weekdays, "thu", 8) + Weight(weekdays, "fri", 4) + Weight(weekdays, "sat", 2)
              + Weight(weekdays, "sun", 1)
  {
    BitsOfDays();
    EncodedIsWeighted(weekdays);
    weekdaysInt := 0;
    if Contains(weekdays, Name(Mon)) {
      weekdaysInt := weekdaysInt + 64;
    }
    if Contains(weekdays, Name(Tue)) {
      weekdaysInt := weekdaysInt + 32;
    }
    if Contains(weekdays, Name(Wed)) {
      weekdaysInt := weekdaysInt + 16;
    }
    if Contains(weekdays, Name(Thu)) {
      weekdaysInt := weekdaysInt + 8;
    }
    if Contains(weekdays, Name(Fri)) {
      weekdaysInt := weekdaysInt + 4;
    }
    if Contains(weekdays, Name(Sat)) {
      weekdaysInt := weekdaysInt + 2;
    }
    if Contains(weekdays, Name(Sun)) {
      weekdaysInt := weekdaysInt + 1;
    }
  }

  /** The branches of the loop: the largest value that can be taken off. */
  method Largest(weekdaysInt: nat) returns (day: Day, bit: nat)
    requires weekdaysInt > 0
    ensures day == Top(weekdaysInt) && bit == Bit(day) && bit <= weekdaysInt
  {
    BitsOfDays();
    if weekdaysInt >= 64 {
      return Mon, 64;
    }
    if weekdaysInt >= 32 {
      return Tue, 32;
    }
    if weekdaysInt >= 16 {
      return Wed, 16;
    }
    if weekdaysInt >= 8 {
      return Thu, 8;
    }
    if weekdaysInt >= 4 {
      return Fri, 4;
    }
    if weekdaysInt >= 2 {
      return Sat, 2;
    }
    return Sun, 1;
  }

  /** The loop of the time control list. */
  method Decode(mask: nat) returns (weekdays: seq<Day>)
    ensures weekdays == Greedy(mask)
    ensures SumOfBits(weekdays) == mask
  {
    weekdays := [];
    var weekdaysInt := mask;
    while weekdaysInt > 0
      invariant weekdays + Greedy(weekdaysInt) == Greedy(mask)
    {
      var day, bit := Largest(weekdaysInt);
      weekdays := weekdays + [day];
      weekdaysInt := weekdaysInt - bit;
    }
    GreedySumsUp(mask);
  }
}
