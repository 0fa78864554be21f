/** Byte strings as lower-case hex text: `sprintf("%02x")` appended at the end of a buffer, and
    two characters at a time read back in base 16 by `std::stoi`, which takes more than hex digits. */
module HexText {
  import opened Basics
  import opened CStrings

  predicate IsHexDigit(c: char) { '0' <= c <= '9' || 'a' <= c <= 'f' || 'A' <= c <= 'F' }

  function HexDigit(d: nat): char
    requires d < 16
  {
    if d < 10 then '0' + d as char else 'a' + (d - 10) as char
  }

  function HexValue(c: char): (d: nat)
    requires IsHexDigit(c)
    ensures d < 16
  {
    if c <= '9' then (c - '0') as nat
    else if c <= 'F' then 10 + (c - 'A') as nat
    else 10 + (c - 'a') as nat
  }

  function Encode(bytes: seq<Byte>): (text: string)
    ensures |text| == 2 * |bytes| && IsHex(text) && NUL !in text
  {
    if bytes == [] then ""
    else
      var last := bytes[|bytes| - 1];
      Encode(bytes[..|bytes| - 1]) + [HexDigit(last / 16), HexDigit(last % 16)]
  }

  predicate IsHex(text: string) { forall i :: 0 <= i < |text| ==> IsHexDigit(text[i]) }

  /** The digits by name. */
  lemma DigitsAreHex(d: nat)
    requires d < 16
    ensures HexDigit(d) == "0123456789abcdef"[d]
    ensures IsHexDigit("0123456789abcdef"[d]) && HexValue("0123456789abcdef"[d]) == d
    ensures IsHexDigit("0123456789ABCDEF"[d]) && HexValue("0123456789ABCDEF"[d]) == d
  {
  }

  predicate IsSpace(c: char) { c in {' ', '\t', '\n', '\r', '\U{B}', '\U{C}'} }

  /** `std::stoi` in base 16 on at most two characters: the number at their front, after white space or a
      sign; it throws if there is none. */
  function StoI(pair: string): Option<int>
    requires 0 < |pair| <= 2
  {
    if IsHexDigit(pair[0]) then
      Some(if |pair| == 2 && IsHexDigit(pair[1]) then 16 * HexValue(pair[0]) + HexValue(pair[1]) else HexValue(pair[0]))
    else if |pair| < 2 || !IsHexDigit(pair[1]) then None
    else if pair[0] == '-' then (var v: int := HexValue(pair[1]); Some(-v))
    else if pair[0] == '+' || IsSpace(pair[0]) then Some(HexValue(pair[1]))
    else None
  }

  /** The C standard's reading of a number in base 16 at the front of a text: white space, a sign, and as
      many digits as there are; none if there is no digit. */
  function StrToL(text: string): Option<int> {
    if text != "" && IsSpace(text[0]) then StrToL(text[1..])
    else if text != "" && text[0] == '-' then
      (var n := FrontDigits(text[1..]); if n == 0 then None else Some(-HexNumber(text[1..][..n])))
    else
      var rest := if text != "" && text[0] == '+' then text[1..] else text;
      var n := FrontDigits(rest);
      if n == 0 then None else Some(HexNumber(rest[..n]))
  }

  function FrontDigits(text: string): (n: nat)
    ensures n <= |text| && IsHex(text[..n])
  {
    if text == "" || !IsHexDigit(text[0]) then 0 else 1 + FrontDigits(text[1..])
  }

  function HexNumber(digits: string): int
    requires IsHex(digits)
  {
    if digits == "" then 0 else 16 * HexNumber(digits[..|digits| - 1]) + HexValue(digits[|digits| - 1])
  }

  lemma OneDigit(text: string)
    requires |text| == 1
    ensures FrontDigits(text) == if IsHexDigit(text[0]) then 1 else 0
    ensures IsHexDigit(text[0]) ==> text[..1] == text && IsHex(text) && HexNumber(text) == HexValue(text[0])
  {
    assert text[1..] == "" && text[..0] == "" && text[..1] == text;
  }

  lemma TwoDigits(text: string)
    requires |text| == 2 && IsHexDigit(text[0])
    ensures FrontDigits(text) == if IsHexDigit(text[1]) then 2 else 1
    ensures HexNumber(text[..1]) == HexValue(text[0])
    ensures IsHexDigit(text[1]) ==> HexNumber(text[..2]) == 16 * HexValue(text[0]) + HexValue(text[1])
  {
    OneDigit(text[1..]);
    OneDigit(text[..1]);
    assert text[..2][..1] == text[..1];
  }

  lemma OneCharacter(text: string)
    requires |text| == 1
    ensures StrToL(text) == if IsHexDigit(text[0]) then Some(HexValue(text[0])) else None
  {
    OneDigit(text);
    assert text[1..] == "";
    assert StrToL("") == None && FrontDigits("") == 0;
  }

  /** On a pair of characters that is what StoI computes. */
  lemma StoIIsStrToL(pair: string)
    requires 0 < |pair| <= 2
    ensures StoI(pair) == StrToL(pair)
  {
    if |pair| == 1 {
      OneCharacter(pair);
    } else if IsHexDigit(pair[0]) {
      HexPair(pair);
    } else {
      OtherPair(pair);
    }
  }

  lemma HexPair(pair: string)
    requires |pair| == 2 && IsHexDigit(pair[0])
    ensures StoI(pair) == StrToL(pair)
  {
    TwoDigits(pair);
    assert !IsSpace(pair[0]);
  }

  lemma OtherPair(pair: string)
    requires |pair| == 2 && !IsHexDigit(pair[0])
    ensures StoI(pair) == StrToL(pair)
  {
    var second := pair[1..];
    if IsSpace(pair[0]) {
      OneCharacter(second);
    } else {
      OneDigit(second);
      assert FrontDigits(pair) == 0;
    }
  }

  function NumPairs(text: string): nat { (|text| + 1) / 2 }

  /** Two characters of the text, or one at its end. */
  function PairAt(text: string, k: nat): (pair: string)
    requires k < NumPairs(text)
    ensures 0 < |pair| <= 2
  {
    text[2 * k..if 2 * k + 2 <= |text| then 2 * k + 2 else |text|]
  }

  predicate Converts(text: string, k: nat) { k < NumPairs(text) && StoI(PairAt(text, k)).Some? }

  predicate Readable(text: string) { forall k :: 0 <= k < NumPairs(text) ==> Converts(text, k) }

  /** The whole bytes of a readable text; an odd last character is not part of one. */
  function Decode(text: string): (bytes: seq<Byte>)
    requires Readable(text)
    ensures |bytes| == |text| / 2
  {
    seq(|text| / 2, k requires 0 <= k < |text| / 2 => ByteAt(text, k))
  }

  /** The number of a pair as the code stores it, cut to eight bits. */
  function ByteAt(text: string, k: nat): Byte
    requires Converts(text, k)
  {
    StoI(PairAt(text, k)).value % 256
  }

  lemma DecodeAt(text: string, k: nat)
    requires Readable(text) && k < |text| / 2
    ensures var number := StrToL(text[2 * k..2 * k + 2]);
            number.Some? && Decode(text)[k] == number.value % 256
  {
    assert Converts(text, k);
    StoIIsStrToL(PairAt(text, k));
  }

  lemma HexIsReadable(text: string)
    requires IsHex(text)
    ensures Readable(text)
    ensures forall k: nat :: k < |text| / 2 ==>
              ByteAt(text, k) == 16 * HexValue(text[2 * k]) + HexValue(text[2 * k + 1])
  {
    forall k: nat | k < NumPairs(text)
      ensures Converts(text, k)
      ensures k < |text| / 2 ==> ByteAt(text, k) == 16 * HexValue(text[2 * k]) + HexValue(text[2 * k + 1])
    {
      assert PairAt(text, k)[0] == text[2 * k];
    }
  }

  lemma {:induction false} EncodeAt(bytes: seq<Byte>, k: nat)
    requires k < |bytes|
    ensures Encode(bytes)[2 * k] == HexDigit(bytes[k] / 16)
    ensures Encode(bytes)[2 * k + 1] == HexDigit(bytes[k] % 16)
  {
    if k < |bytes| - 1 {
      EncodeAt(bytes[..|bytes| - 1], k);
    }
  }

  lemma ValueOfDigit(d: nat)
    requires d < 16
    ensures IsHexDigit(HexDigit(d)) && HexValue(HexDigit(d)) == d
  {
  }

  lemma DigitOfValue(c: char)
    requires IsHexDigit(c)
    ensures HexDigit(HexValue(c)) == c <==> !('A' <= c <= 'F')
  {
  }

  lemma DecodeEncoded(bytes: seq<Byte>)
    ensures Readable(Encode(bytes)) && Decode(Encode(bytes)) == bytes
  {
    HexIsReadable(Encode(bytes));
    forall k | 0 <= k < |bytes| ensures Decode(Encode(bytes))[k] == bytes[k] {
      EncodeAt(bytes, k);
      ValueOfDigit(bytes[k] / 16);
      ValueOfDigit(bytes[k] % 16);
    }
  }

  lemma EncodeDecodedPair(text: string, k: nat)
    requires IsHex(text) && k < |text| / 2
    ensures Readable(text)
    ensures var back := Encode(Decode(text));
            && back[2 * k] == HexDigit(HexValue(text[2 * k]))
            && back[2 * k + 1] == HexDigit(HexValue(text[2 * k + 1]))
  {
    HexIsReadable(text);
    EncodeAt(Decode(text), k);
    SplitByte(HexValue(text[2 * k]), HexValue(text[2 * k + 1]));
    assert Decode(text)[k] == 16 * HexValue(text[2 * k]) + HexValue(text[2 * k + 1]);
  }

  lemma SplitByte(high: nat, low: nat)
    requires low < 16
    ensures (16 * high + low) / 16 == high && (16 * high + low) % 16 == low
  {
  }

  /** Every digit is written as the canonical text writes it. */
  predicate LowerCase(text: string) { forall i :: 0 <= i < |text| ==> !('A' <= text[i] <= 'F') }

  /** The other way round a readable text comes back exactly if it has even length and consists of
      hex digits without capitals. */
  lemma EncodeDecoded(text: string)
    requires Readable(text)
    ensures Encode(Decode(text)) == text <==> |text| % 2 == 0 && IsHex(text) && LowerCase(text)
  {
    var back := Encode(Decode(text));
    if |back| == |text| && IsHex(text) {
      forall i | 0 <= i < |text| ensures back[i] == text[i] <==> !('A' <= text[i] <= 'F') {
        EncodeDecodedPair(text, i / 2);
        assert i == 2 * (i / 2) || i == 2 * (i / 2) + 1;
        DigitOfValue(text[i]);
      }
    }
  }

  // ---------------------------------------------------------------- how reading a text ends

  /** Every byte is read; or the pair after the last that fits is written past the buffer; or a pair
      does not convert and `std::stoi` throws, which nothing catches. */
  datatype Outcome = Done | Overrun | Thrown

  ghost predicate ThrowsWithin(text: string, size: nat) {
    exists k: nat :: k < NumPairs(text) && k <= size && !Converts(text, k)
  }

  /** Each pair is converted before it is written. */
  ghost function Reading(text: string, size: nat): Outcome {
    if ThrowsWithin(text, size) then Thrown else if NumPairs(text) > size then Overrun else Done
  }

  // ---------------------------------------------------------------- the buffers

  method StrLen(text: array<char>) returns (n: nat)
    requires |CString(text[..])| < text.Length
    ensures n == |CString(text[..])|
  {
    n := 0;
    NoNulWithin(text[..], CString(text[..]));
    while text[n] != NUL
      invariant n <= |CString(text[..])|
      decreases |CString(text[..])| - n
    {
      n := n + 1;
    }
  }

  /** Appends every byte at the current end of the text. Each `sprintf` writes two characters and the
      terminator; the outcome says whether all of them stayed inside the buffer. */
  method PrintHex(bytes: seq<Byte>, text: array<char>) returns (inBounds: bool)
    requires text.Length > 0
    modifies text
    ensures inBounds <==> 2 * |bytes| < text.Length
    ensures inBounds ==> CString(text[..]) == Encode(bytes)
  {
    text[0] := NUL;
    HeldIsCString(text[..], "");
    for i := 0 to |bytes|
      invariant 2 * i < text.Length && CString(text[..]) == Encode(bytes[..i])
    {
      var offset := StrLen(text);
      if offset + 2 >= text.Length {
        return false;
      }
      assert bytes[..i + 1][..i] == bytes[..i];
      ghost var before := Encode(bytes[..i]);
      text[offset], text[offset + 1] := HexDigit(bytes[i] / 16), HexDigit(bytes[i] % 16);
      text[offset + 2] := NUL;
      assert text[..offset + 2] == before + [HexDigit(bytes[i] / 16), HexDigit(bytes[i] % 16)];
      HeldIsCString(text[..], Encode(bytes[..i + 1]));
    }
    assert bytes[..|bytes|] == bytes;
    inBounds := true;
  }

  /** Reads two characters at a time, with no look at the size of the array. */
  method ParseHex(value: string, bytes: array<Byte>) returns (outcome: Outcome)
    modifies bytes
    ensures outcome == Reading(value, bytes.Length)
    ensures outcome.Thrown? <==> exists k: nat :: 2 * k < |value| && k <= bytes.Length && !Converts(value, k)
    ensures outcome.Done? <==> |value| <= 2 * bytes.Length && Readable(value)
    ensures outcome.Done? ==> bytes[..|value| / 2] == Decode(value)
  {
    var i := 0;
    while i < |value|
      invariant 0 <= i <= |value| + 1 && i % 2 == 0 && i <= 2 * bytes.Length
      invariant forall k: nat :: k < i / 2 ==> Converts(value, k) && bytes[k] == ByteAt(value, k)
    {
      var number := StoI(PairAt(value, i / 2));
      if number.None? {
        assert !Converts(value, i / 2);
        return Thrown;
      }
      assert Converts(value, i / 2);
      if i / 2 >= bytes.Length {
        return Overrun;
      }
      bytes[i / 2] := number.value % 256;
      i := i + 2;
    }
    outcome := Done;
  }
}
