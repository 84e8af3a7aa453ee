/** The Base32 encoder, and the decoding of section 6 of RFC 4648 that undoes it. */
module Base32 {
  import opened Wrappers
  import opened Text

  type byte = bv8

  const PAD: char := '='

  /** The alphabet, "ABCDEFGHIJKLMNOPQRSTUVWXYZ234567". */
  function EncodeChar(d: byte): char {
    if d == 0 then 'A' else if d == 1 then 'B' else if d == 2 then 'C' else if d == 3 then 'D'
    else if d == 4 then 'E' else if d == 5 then 'F' else if d == 6 then 'G' else if d == 7 then 'H'
    else if d == 8 then 'I' else if d == 9 then 'J' else if d == 10 then 'K' else if d == 11 then 'L'
    else if d == 12 then 'M' else if d == 13 then 'N' else if d == 14 then 'O' else if d == 15 then 'P'
    else if d == 16 then 'Q' else if d == 17 then 'R' else if d == 18 then 'S' else if d == 19 then 'T'
    else if d == 20 then 'U' else if d == 21 then 'V' else if d == 22 then 'W' else if d == 23 then 'X'
    else if d == 24 then 'Y' else if d == 25 then 'Z' else if d == 26 then '2' else if d == 27 then '3'
    else if d == 28 then '4' else if d == 29 then '5' else if d == 30 then '6' else '7'
  }

  function DecodeChar(c: char): Option<byte> {
    if c == 'A' then Some(0) else if c == 'B' then Some(1) else if c == 'C' then Some(2)
    else if c == 'D' then Some(3) else if c == 'E' then Some(4) else if c == 'F' then Some(5)
    else if c == 'G' then Some(6) else if c == 'H' then Some(7) else if c == 'I' then Some(8)
    else if c == 'J' then Some(9) else if c == 'K' then Some(10) else if c == 'L' then Some(11)
    else if c == 'M' then Some(12) else if c == 'N' then Some(13) else if c == 'O' then Some(14)
    else if c == 'P' then Some(15) else if c == 'Q' then Some(16) else if c == 'R' then Some(17)
    else if c == 'S' then Some(18) else if c == 'T' then Some(19) else if c == 'U' then Some(20)
    else if c == 'V' then Some(21) else if c == 'W' then Some(22) else if c == 'X' then Some(23)
    else if c == 'Y' then Some(24) else if c == 'Z' then Some(25) else if c == '2' then Some(26)
    else if c == '3' then Some(27) else if c == '4' then Some(28) else if c == '5' then Some(29)
    else if c == '6' then Some(30) else if c == '7' then Some(31)
    else None
  }

  /** The letters in order, then the digits from 2 on. */
  lemma EncodeCharValue(d: byte)
    requires d < 32
    ensures EncodeChar(d) as int == if d < 26 then 'A' as int + d as int else '2' as int + d as int - 26
  {}

  lemma CharRoundTrip(d: byte)
    requires d < 32
    ensures DecodeChar(EncodeChar(d)) == Some(d) && EncodeChar(d) != PAD
  {
    hide EncodeChar, DecodeChar;
    if d < 12 {
      CharRoundTripLow(d);
    } else if d < 22 {
      CharRoundTripMiddle(d);
    } else {
      CharRoundTripHigh(d);
    }
  }

  lemma CharRoundTripLow(d: byte)
    requires d < 12
    ensures DecodeChar(EncodeChar(d)) == Some(d) && EncodeChar(d) != PAD
  {}

  lemma CharRoundTripMiddle(d: byte)
    requires 12 <= d < 22
    ensures DecodeChar(EncodeChar(d)) == Some(d) && EncodeChar(d) != PAD
  {}

  lemma CharRoundTripHigh(d: byte)
    requires 22 <= d < 32
    ensures DecodeChar(EncodeChar(d)) == Some(d) && EncodeChar(d) != PAD
  {}

  datatype Bytes = Bytes(b0: byte, b1: byte, b2: byte, b3: byte, b4: byte)
  datatype Digits = Digits(d0: byte, d1: byte, d2: byte, d3: byte, d4: byte, d5: byte, d6: byte, d7: byte)

  /** The eight digits of a block. */
  function Encode5(s: Bytes): Digits {
    Digits((s.b0 >> 3) & 0x1F,
           ((s.b0 << 2) & 0x1C) + ((s.b1 >> 6) & 0x03),
           (s.b1 >> 1) & 0x1F,
           ((s.b1 << 4) & 0x10) + ((s.b2 >> 4) & 0x0F),
           ((s.b2 << 1) & 0x1E) + ((s.b3 >> 7) & 0x01),
           (s.b3 >> 2) & 0x1F,
           ((s.b3 << 3) & 0x18) + ((s.b4 >> 5) & 0x07),
           s.b4 & 0x1F)
  }

  /** The five bytes that eight digits stand for. */
  function Decode5(d: Digits): Bytes {
    Bytes((d.d0 << 3) | (d.d1 >> 2),
          (d.d1 << 6) | (d.d2 << 1) | (d.d3 >> 4),
          (d.d3 << 4) | (d.d4 >> 1),
          (d.d4 << 7) | (d.d5 << 2) | (d.d6 >> 3),
          (d.d6 << 5) | d.d7)
  }

  predicate SmallDigits(d: Digits) {
    d.d0 < 32 && d.d1 < 32 && d.d2 < 32 && d.d3 < 32 && d.d4 < 32 && d.d5 < 32 && d.d6 < 32 && d.d7 < 32
  }

  lemma BlockRoundTrip(s: Bytes)
    ensures Decode5(Encode5(s)) == s && SmallDigits(Encode5(s))
  {}

  /** The block read as one 40-bit number, most significant byte first. */
  function BlockValue(s: Bytes): bv40 {
    ((s.b0 as bv40) << 32) | ((s.b1 as bv40) << 24) | ((s.b2 as bv40) << 16) | ((s.b3 as bv40) << 8) | (s.b4 as bv40)
  }

  /** The digits are the base-32 digits of that number, most significant first. */
  lemma DigitsOfValue(s: Bytes)
    ensures var v, d := BlockValue(s), Encode5(s);
            && d.d0 as bv40 == (v >> 35) & 0x1F && d.d1 as bv40 == (v >> 30) & 0x1F
            && d.d2 as bv40 == (v >> 25) & 0x1F && d.d3 as bv40 == (v >> 20) & 0x1F
            && d.d4 as bv40 == (v >> 15) & 0x1F && d.d5 as bv40 == (v >> 10) & 0x1F
            && d.d6 as bv40 == (v >> 5) & 0x1F && d.d7 as bv40 == v & 0x1F
  {}

  // Texts --------------------------------------------------------------------------------------------

  function DigitText(d: Digits): (t: string)
    ensures |t| == 8
  {
    [EncodeChar(d.d0), EncodeChar(d.d1), EncodeChar(d.d2), EncodeChar(d.d3),
     EncodeChar(d.d4), EncodeChar(d.d5), EncodeChar(d.d6), EncodeChar(d.d7)]
  }

  function ByteAt(input: seq<byte>, i: nat): byte {
    if i < |input| then input[i] else 0
  }

  /** The first five bytes, filled up with zeros. */
  function Block(input: seq<byte>): Bytes {
    Bytes(ByteAt(input, 0), ByteAt(input, 1), ByteAt(input, 2), ByteAt(input, 3), ByteAt(input, 4))
  }

  /** The digits that a last block of `n` bytes does without. */
  function NumPad(n: nat): (k: nat)
    ensures k < 8
  {
    if n == 1 then 6 else if n == 2 then 4 else if n == 3 then 3 else if n == 4 then 1 else 0
  }

  function Pads(n: nat): (t: string)
    ensures |t| == n && forall i :: 0 <= i < n ==> t[i] == PAD
  {
    seq(n, i => PAD)
  }

  /** The encoding, block by block. */
  function Encoded(input: seq<byte>, padding: bool): string {
    if input == [] then ""
    else if |input| >= 5 then DigitText(Encode5(Block(input))) + Encoded(input[5..], padding)
    else
      DigitText(Encode5(Block(input)))[..8 - NumPad(|input|)] + (if padding then Pads(NumPad(|input|)) else "")
  }

  /** Every five bytes make eight characters, a shorter rest as many as its bits need, or eight. */
  lemma {:induction false} EncodedLength(input: seq<byte>, padding: bool)
    ensures |Encoded(input, padding)| == if padding then (|input| + 4) / 5 * 8 else (|input| * 8 + 4) / 5
    decreases |input|
  {
    if |input| >= 5 {
      EncodedLength(input[5..], padding);
    }
  }

  // Decoding ---------------------------------------------------------------------------------------------

  function DigitAt(s: string, i: nat): Option<byte> {
    if i < |s| then DecodeChar(s[i]) else Some(0)
  }

  /** The digits of up to eight characters, filled up with zeros. */
  function DigitsOf(s: string): Option<Digits> {
    var d0, d1, d2, d3 := DigitAt(s, 0), DigitAt(s, 1), DigitAt(s, 2), DigitAt(s, 3);
    var d4, d5, d6, d7 := DigitAt(s, 4), DigitAt(s, 5), DigitAt(s, 6), DigitAt(s, 7);
    if d0.None? || d1.None? || d2.None? || d3.None? || d4.None? || d5.None? || d6.None? || d7.None? then None
    else Some(Digits(d0.value, d1.value, d2.value, d3.value, d4.value, d5.value, d6.value, d7.value))
  }

  function BytesOf(b: Bytes, n: nat): seq<byte>
    requires n <= 5
  {
    [b.b0, b.b1, b.b2, b.b3, b.b4][..n]
  }

  /** The number of bytes in a last group of `k` characters, if there can be such a group. */
  function ByteCount(k: nat): Option<nat> {
    if k == 0 then Some(0) else if k == 2 then Some(1) else if k == 4 then Some(2)
    else if k == 5 then Some(3) else if k == 7 then Some(4) else None
  }

  /** A last group: fewer than eight characters, filled up to eight with padding or not at all. */
  function DecodedTail(s: string): Option<seq<byte>> {
    var k := IndexOf(s, PAD);
    var n := ByteCount(k);
    if n.None? || DigitsOf(s[..k]).None? || !(|s| == k || (|s| == 8 && s[k..] == Pads(8 - k))) then None
    else Some(BytesOf(Decode5(DigitsOf(s[..k]).value), n.value))
  }

  function Decoded(s: string): Option<seq<byte>> {
    if |s| < 8 || PAD in s[..8] then DecodedTail(s)
    else if DigitsOf(s[..8]).None? || Decoded(s[8..]).None? then None
    else Some(BytesOf(Decode5(DigitsOf(s[..8]).value), 5) + Decoded(s[8..]).value)
  }

  // Round trip ---------------------------------------------------------------------------------------------

  lemma DigitTextRoundTrip(d: Digits)
    requires SmallDigits(d)
    ensures DigitsOf(DigitText(d)) == Some(d) && PAD !in DigitText(d)
  {
    hide EncodeChar, DecodeChar;
    CharRoundTrip(d.d0);
    CharRoundTrip(d.d1);
    CharRoundTrip(d.d2);
    CharRoundTrip(d.d3);
    CharRoundTrip(d.d4);
    CharRoundTrip(d.d5);
    CharRoundTrip(d.d6);
    CharRoundTrip(d.d7);
  }

  /** The digits left out of a last block are zero. */
  lemma DroppedAreZero(s: Bytes)
    ensures var d := Encode5(s);
            && (s.b1 == s.b2 == s.b3 == s.b4 == 0 ==> d.d2 == d.d3 == d.d4 == d.d5 == d.d6 == d.d7 == 0)
            && (s.b2 == s.b3 == s.b4 == 0 ==> d.d4 == d.d5 == d.d6 == d.d7 == 0)
            && (s.b3 == s.b4 == 0 ==> d.d5 == d.d6 == d.d7 == 0)
            && (s.b4 == 0 ==> d.d7 == 0)
  {}

  lemma ShortText(d: Digits, k: nat)
    requires SmallDigits(d) && k <= 8
    requires k <= 2 ==> d.d2 == d.d3 == 0
    requires k <= 4 ==> d.d4 == 0
    requires k <= 5 ==> d.d5 == d.d6 == 0
    requires k <= 7 ==> d.d7 == 0
    requires k == 2 || k == 4 || k == 5 || k == 7
    ensures DigitsOf(DigitText(d)[..k]) == Some(d)
  {
    hide EncodeChar, DecodeChar;
    CharRoundTrip(d.d0);
    CharRoundTrip(d.d1);
    CharRoundTrip(d.d2);
    CharRoundTrip(d.d3);
    CharRoundTrip(d.d4);
    CharRoundTrip(d.d5);
    CharRoundTrip(d.d6);
    CharRoundTrip(d.d7);
  }

  /** A text without padding, then filled up to eight characters or not at all. */
  lemma TailShape(t: string, padding: bool)
    requires PAD !in t && |t| < 8
    ensures var s := t + (if padding then Pads(8 - |t|) else "");
            && IndexOf(s, PAD) == |t| && s[..|t|] == t
            && (|s| == |t| || (|s| == 8 && s[|t|..] == Pads(8 - |t|)))
            && (|s| < 8 || PAD in s[..8])
  {
    if padding {
      var pads := Pads(8 - |t|);
      assert pads == [PAD] + pads[1..];
      IndexOfAt(t, PAD, pads[1..]);
      assert t + pads == t + [PAD] + pads[1..];
      assert (t + pads)[..8][|t|] == PAD;
    } else {
      NoPad(t);
      assert t + "" == t;
    }
  }

  lemma TailRoundTrip(input: seq<byte>, padding: bool)
    requires 0 < |input| < 5
    ensures Decoded(Encoded(input, padding)) == Some(input)
  {
    hide EncodeChar, DecodeChar, Encode5, Decode5, DigitsOf, DigitText, IndexOf, Pads;
    var d, k := Encode5(Block(input)), 8 - NumPad(|input|);
    var t := DigitText(d)[..k];
    BlockRoundTrip(Block(input));
    DroppedAreZero(Block(input));
    DigitTextRoundTrip(d);
    ShortText(d, k);
    TailShape(t, padding);
    BytesOfBlock(input);
  }

  lemma BytesOfBlock(input: seq<byte>)
    requires |input| < 5
    ensures BytesOf(Block(input), |input|) == input
  {
    var b := Block(input);
    assert forall i :: 0 <= i < |input| ==> [b.b0, b.b1, b.b2, b.b3, b.b4][i] == input[i];
  }

  lemma NoPad(t: string)
    requires PAD !in t
    ensures IndexOf(t, PAD) == |t| && t[..|t|] == t
  {
    assert forall i :: 0 <= i < |t| ==> t[i] in t;
  }

  /** Decoding what was encoded gives the bytes back, padded or not. */
  lemma {:induction false} RoundTrip(input: seq<byte>, padding: bool)
    ensures Decoded(Encoded(input, padding)) == Some(input)
    decreases |input|
  {
    hide EncodeChar, DecodeChar, Encode5, Decode5, DigitsOf, DigitText, IndexOf;
    if input == [] {
      NoPad("");
      NoDigits();
    } else if |input| >= 5 {
      var block := DigitText(Encode5(Block(input)));
      var rest := Encoded(input[5..], padding);
      RoundTrip(input[5..], padding);
      BlockRoundTrip(Block(input));
      DigitTextRoundTrip(Encode5(Block(input)));
      assert (block + rest)[..8] == block && (block + rest)[8..] == rest;
      assert BytesOf(Block(input), 5) + input[5..] == input;
    } else {
      TailRoundTrip(input, padding);
    }
  }

  lemma NoDigits()
    ensures DigitsOf("").Some?
  {}

  // The encoder ------------------------------------------------------------------------------------------------

  /** The last block, of fewer than five bytes: filled up with zeros, and its spare digits cut off or replaced. */
  method EncodeTail(input: seq<byte>, padding: bool) returns (res: string)
    requires 0 < |input| < 5
    ensures res == Encoded(input, padding)
  {
    hide EncodeChar, Encode5;
    var padded := FillBlock(input);
    var block := Bytes(padded[0], padded[1], padded[2], padded[3], padded[4]);
    assert block == Block(input);
    var buffer := DigitText(Encode5(block));
    var numPad := NumPad(|input|);
    res := buffer[..8 - numPad];
    if padding {
      var pads := "";
      for i := 0 to numPad
        invariant |pads| == i && forall j :: 0 <= j < i ==> pads[j] == PAD
      {
        pads := pads + [PAD];
      }
      assert pads == Pads(numPad);
      res := res + pads;
    } else {
      assert res == res + "";
    }
  }

  method FillBlock(input: seq<byte>) returns (padded: array<byte>)
    requires 0 < |input| < 5
    ensures padded.Length == 5 && forall j :: 0 <= j < 5 ==> padded[j] == ByteAt(input, j)
  {
    padded := new byte[5];
    for i := 0 to |input|
      invariant forall j :: 0 <= j < i ==> padded[j] == ByteAt(input, j)
    {
      padded[i] := input[i];
    }
    for i := |input| to 5
      invariant forall j :: 0 <= j < i ==> padded[j] == ByteAt(input, j)
    {
      padded[i] := 0;
    }
  }

  lemma EncodedBlock(input: seq<byte>, pos: nat, padding: bool, res: string)
    requires pos + 5 <= |input|
    ensures res + Encoded(input[pos..], padding)
            == res + DigitText(Encode5(Block(input[pos..pos + 5]))) + Encoded(input[pos + 5..], padding)
  {
    hide EncodeChar, Encode5, DigitText;
    var rest := input[pos..];
    assert Block(rest) == Block(input[pos..pos + 5]) && rest[5..] == input[pos + 5..];
  }

  method EncodeString(input: array<byte>, padding: bool) returns (res: string)
    ensures res == Encoded(input[..], padding)
  {
    hide EncodeChar, Encode5, DigitText, Encoded;
    res := "";
    var pos := 0;
    assert input[0..] == input[..];
    while pos + 5 <= input.Length
      invariant 0 <= pos <= input.Length
      invariant res + Encoded(input[..][pos..], padding) == Encoded(input[..], padding)
    {
      EncodedBlock(input[..], pos, padding, res);
      assert input[..][pos..pos + 5] == input[pos..pos + 5];
      res := res + DigitText(Encode5(Block(input[pos..pos + 5])));
      pos := pos + 5;
    }
    assert input[..][pos..] == input[pos..];
    if pos != input.Length {
      var tail := EncodeTail(input[pos..], padding);
      res := res + tail;
    } else {
      EncodedNothing(padding);
      assert input[pos..] == [];
    }
  }

  lemma EncodedNothing(padding: bool)
    ensures Encoded([], padding) == ""
  {}

  /** The padding: as many signs as a last block of one, two, three or four bytes leaves digits out. */
  function PaddingOf(n: nat): string {
    match n % 5
    case 1 => "======"
    case 2 => "===="
    case 3 => "==="
    case 4 => "="
    case _ => ""
  }

  /** With padding the encoding is the one without, and the padding at its end. */
  lemma {:induction false} PaddingAtEnd(input: seq<byte>)
    ensures Encoded(input, true) == Encoded(input, false) + PaddingOf(|input|)
    decreases |input|
  {
    hide EncodeChar, Encode5, DigitText;
    if |input| >= 5 {
      PaddingAtEnd(input[5..]);
      assert |input[5..]| % 5 == |input| % 5;
    } else if input != [] {
      assert Pads(NumPad(|input|)) == PaddingOf(|input|);
    }
  }

  /** Examples of section 10 of RFC 4648: "f" and "fooba". */
  lemma ShortExample()
    ensures Encoded([0x66], true) == "MY======"
  {}

  lemma BlockExample()
    ensures Encoded([0x66, 0x6F, 0x6F, 0x62, 0x61], true) == "MZXW6YTB"
  {
    var input: seq<byte> := [0x66, 0x6F, 0x6F, 0x62, 0x61];
    assert input[5..] == [];
    assert Encode5(Block(input)) == Digits(12, 25, 23, 22, 30, 24, 19, 1);
  }
}
