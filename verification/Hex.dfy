/** Hexadecimal text: order ids and addresses travel through the solver as strings. */
module Hex {
  import opened Bytes
  import opened Wrappers

  type nibble = v: int | 0 <= v < 16

  const DIGITS := "0123456789abcdef"

  predicate IsHexDigit(c: char) {
    '0' <= c <= '9' || 'a' <= c <= 'f' || 'A' <= c <= 'F'
  }

  /** hexToByte: any other character counts as zero. */
  function HexToByte(c: char): nibble {
    if '0' <= c <= '9' then c as int - '0' as int
    else if 'a' <= c <= 'f' then c as int - 'a' as int + 10
    else if 'A' <= c <= 'F' then c as int - 'A' as int + 10
    else 0
  }

  lemma DigitRoundTrip(v: nibble)
    ensures IsHexDigit(DIGITS[v]) && HexToByte(DIGITS[v]) == v
  {
  }

  /** The digits and their values. */
  lemma DigitValues(c: char)
    ensures IsHexDigit(c) <==> c in "0123456789abcdefABCDEF"
    ensures HexToByte('0') == 0 && HexToByte('1') == 1 && HexToByte('2') == 2 && HexToByte('3') == 3
    ensures HexToByte('4') == 4 && HexToByte('5') == 5 && HexToByte('6') == 6 && HexToByte('7') == 7
    ensures HexToByte('8') == 8 && HexToByte('9') == 9
    ensures HexToByte('a') == HexToByte('A') == 10 && HexToByte('b') == HexToByte('B') == 11
    ensures HexToByte('c') == HexToByte('C') == 12 && HexToByte('d') == HexToByte('D') == 13
    ensures HexToByte('e') == HexToByte('E') == 14 && HexToByte('f') == HexToByte('F') == 15
    ensures !IsHexDigit(c) ==> HexToByte(c) == 0
  {
    var digits := "0123456789abcdefABCDEF";
    if IsHexDigit(c) {
      var i := if c <= '9' then c as int - '0' as int
               else if c >= 'a' then 10 + (c as int - 'a' as int) else 16 + (c as int - 'A' as int);
      assert digits[i] == c;
    }
  }

  /** hex.EncodeToString. */
  function Encode(b: seq<byte>): (s: string)
    ensures |s| == 2 * |b|
  {
    seq(2 * |b|, i requires 0 <= i < 2 * |b| =>
      DIGITS[if i % 2 == 0 then b[i / 2] / 16 else b[i / 2] % 16])
  }

  lemma EncodeIsLowerCase(b: seq<byte>)
    ensures forall i :: 0 <= i < |Encode(b)| ==> '0' <= Encode(b)[i] <= '9' || 'a' <= Encode(b)[i] <= 'f'
  {
  }

  predicate AllHex(s: string) {
    forall i :: 0 <= i < |s| ==> IsHexDigit(s[i])
  }

  /** The bytes spelled by consecutive pairs of characters. */
  function Pairs(s: string): (b: seq<byte>)
    requires |s| % 2 == 0
    ensures |b| == |s| / 2
  {
    seq(|s| / 2, i requires 0 <= i < |s| / 2 => HexToByte(s[2 * i]) * 16 + HexToByte(s[2 * i + 1]))
  }

  /** hex.DecodeString. */
  function Decode(s: string): Option<seq<byte>> {
    if |s| % 2 == 0 && AllHex(s) then Some(Pairs(s)) else None
  }

  lemma EncodeDecode(b: seq<byte>)
    ensures AllHex(Encode(b)) && Pairs(Encode(b)) == b && Decode(Encode(b)) == Some(b)
  {
    var s := Encode(b);
    forall i | 0 <= i < |s|
      ensures IsHexDigit(s[i])
    {
      DigitRoundTrip(if i % 2 == 0 then b[i / 2] / 16 else b[i / 2] % 16);
    }
    forall i | 0 <= i < |b|
      ensures Pairs(s)[i] == b[i]
    {
      DigitRoundTrip(b[i] / 16);
      DigitRoundTrip(b[i] % 16);
      assert s[2 * i] == DIGITS[b[i] / 16];
      assert (2 * i + 1) / 2 == i;
      assert s[2 * i + 1] == DIGITS[b[i] % 16];
    }
  }

  /** The number spelled by a string of hexadecimal digits. */
  function Value(s: string): nat {
    if |s| == 0 then 0 else Value(s[..|s| - 1]) * 16 + HexToByte(s[|s| - 1])
  }

  /** The first digit counts most. */
  lemma {:induction false} ValueOfFirst(c: char, s: string)
    ensures Value([c] + s) == HexToByte(c) * Pow16(|s|) + Value(s)
  {
    if |s| == 0 {
      assert [c] + s == [c] && [c][..0] == [];
    } else {
      var init := s[..|s| - 1];
      ValueOfFirst(c, init);
      assert ([c] + s)[..|s|] == [c] + init;
      OneMoreDigit(HexToByte(c), Pow16(|init|), Value(init));
    }
  }

  lemma OneMoreDigit(first: nat, power: nat, rest: nat)
    ensures (first * power + rest) * 16 == first * (16 * power) + rest * 16
  {
  }

  function Pow16(n: nat): nat {
    if n == 0 then 1 else 16 * Pow16(n - 1)
  }

  lemma PairsSnoc(s: string)
    requires |s| % 2 == 0 && |s| > 0
    ensures var k := |s| / 2 - 1;
            && Pairs(s)[..k] == Pairs(s[..|s| - 2])
            && Pairs(s)[k] == HexToByte(s[|s| - 2]) * 16 + HexToByte(s[|s| - 1])
  {
  }

  lemma ValueOfTwoMore(s: string)
    requires |s| >= 2
    ensures Value(s) == Value(s[..|s| - 2]) * 256 + (HexToByte(s[|s| - 2]) * 16 + HexToByte(s[|s| - 1]))
  {
    assert s[..|s| - 1][..|s| - 2] == s[..|s| - 2];
  }

  lemma {:induction false} ValueOfPairs(s: string)
    requires |s| % 2 == 0
    ensures Value(s) == FromBytes(Pairs(s))
  {
    if |s| > 0 {
      ValueOfPairs(s[..|s| - 2]);
      PairsSnoc(s);
      ValueOfTwoMore(s);
    }
  }

  predicate HasPrefix(s: string) {
    |s| >= 2 && s[..2] == "0x"
  }

  /** strings.TrimPrefix(s, "0x"). */
  function TrimPrefix(s: string): string {
    if HasPrefix(s) then s[2..] else s
  }

  lemma TrimPrefixMeans(s: string)
    ensures TrimPrefix("0x" + s) == s
    ensures (forall t :: s != "0x" + t) ==> TrimPrefix(s) == s
  {
    assert HasPrefix(s) ==> s == "0x" + s[2..];
  }

  /** bytes32ToHexString, common.Hash.Hex and feltDecoder.readAddress: "0x" and two digits a byte. */
  function Bytes32ToHexString(b: seq<byte>): (s: string)
    ensures HasPrefix(s) && TrimPrefix(s) == Encode(b)
  {
    "0x" + Encode(b)
  }

  /** utils.HexToBN, on unsigned text: the number spelled after the prefix, if it is one. */
  function HexToBN(s: string): Option<nat> {
    var t := TrimPrefix(s);
    if |t| > 0 && AllHex(t) then Some(Value(t)) else None
  }

  /** An empty text and one with any other character are no number. */
  lemma HexToBNIs(s: string)
    ensures var t := TrimPrefix(s);
            && (HexToBN(s).None? <==> t == "" || exists i :: 0 <= i < |t| && !IsHexDigit(t[i]))
            && (HexToBN(s).Some? ==> HexToBN(s).value == Value(t))
  {
  }

  lemma HexToBNOfBytes(b: seq<byte>)
    requires |b| > 0
    ensures HexToBN(Bytes32ToHexString(b)) == Some(FromBytes(b))
  {
    EncodeDecode(b);
    ValueOfPairs(Encode(b));
  }
}
