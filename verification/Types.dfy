/** Order ids and addresses as text (solvercore/types). */
module Types {
  import opened Bytes
  import opened Hex
  import opened StarknetUtil
  import opened Integers
  import opened Wrappers

  // ------------------------------------------------------------- order ids

  /** What GetOrderIDBytes returns: 32 bytes for "0x" and 64 characters, zeros for anything else. */
  function OrderIdBytes(orderID: string): (b: seq<byte>)
    ensures |b| == 32
  {
    if HasPrefix(orderID) && |orderID| == 66 then Pairs(orderID[2..]) else Zeros(32)
  }

  lemma OrderIdBytesAre(digits: string, i: nat)
    requires |digits| == 64 && i < 32
    ensures OrderIdBytes("0x" + digits)[i] == HexToByte(digits[2 * i]) * 16 + HexToByte(digits[2 * i + 1])
  {
    assert ("0x" + digits)[2..] == digits && ("0x" + digits)[..2] == "0x";
  }

  lemma OtherIdsAreZero(orderID: string)
    requires |orderID| != 66 || orderID[..2] != "0x"
    ensures OrderIdBytes(orderID) == Zeros(32)
  {
  }

  /** ParsedArgs.GetOrderIDBytes. */
  method GetOrderIDBytes(orderID: string) returns (bytes32: seq<byte>)
    ensures bytes32 == OrderIdBytes(orderID)
  {
    var result := new byte[32](_ => 0);
    if |orderID| >= 2 && orderID[..2] == "0x" {
      var hexStr := orderID[2..];
      if |hexStr| == 64 {
        var i := 0;
        while i < 32
          invariant 0 <= i <= 32
          invariant forall k :: 0 <= k < i ==> result[k] == Pairs(hexStr)[k]
          invariant forall k :: i <= k < 32 ==> result[k] == 0
        {
          if i * 2 + 1 < |hexStr| {
            var high := hexStr[i * 2];
            var low := hexStr[i * 2 + 1];
            result[i] := HexToByte(high) * 16 + HexToByte(low);
          }
          i := i + 1;
        }
      }
    }
    bytes32 := result[..];
  }

  /** The id pipeline: two u128 felts, 32 bytes, hexadecimal text. From the text the Starknet handler
      gets the felts back, and GetOrderIDBytes and the EVM handler, which uses common.FromHex, the bytes. */
  lemma OrderIdRoundTrip(low: u128, high: u128)
    ensures var id := ToBytes(CombineU256(low, high), 32);
            && id == U128Bytes(high) + U128Bytes(low)
            && OrderIdFelts(Bytes32ToHexString(id)) == Some((low, high))
            && OrderIdBytes(Bytes32ToHexString(id)) == id
            && FromHex(Bytes32ToHexString(id)) == id
  {
    var id := ToBytes(CombineU256(low, high), 32);
    OrderIdWords(low, high);
    OrderIdNumber(low, high);
    TextGivesBytes(id);
  }

  lemma OrderIdWords(low: u128, high: u128)
    ensures ToBytes(CombineU256(low, high), 32) == U128Bytes(high) + U128Bytes(low)
  {
    WordSizes();
    ToBytesSplit(high, low, 16, 16);
  }

  lemma OrderIdNumber(low: u128, high: u128)
    ensures OrderIdFelts(Bytes32ToHexString(ToBytes(CombineU256(low, high), 32))) == Some((low, high))
  {
    var n := CombineU256(low, high);
    U256HalvesRoundTrip(low, high);
    WordSizes();
    HexToBNOfBytes(ToBytes(n, 32));
    FromToBytes(n, 32);
    Remainder(0, TWO256, n);
    HalvesOfNumber(low, high);
  }

  lemma TextGivesBytes(id: seq<byte>)
    requires |id| == 32
    ensures OrderIdBytes(Bytes32ToHexString(id)) == id && FromHex(Bytes32ToHexString(id)) == id
  {
    EncodeDecode(id);
    DecodePrefixOfHex(Encode(id));
  }

  lemma HalvesOfNumber(low: u128, high: u128)
    ensures Low128(CombineU256(low, high)) == low && High128(CombineU256(low, high)) == high
  {
  }

  // ------------------------------------------------------------- addresses

  /** common.FromHex: an optional 0x or 0X is dropped, an odd digit gets a leading zero, and decoding
      stops at the first pair that is not hexadecimal. */
  function FromHex(s: string): seq<byte> {
    var t := if |s| >= 2 && s[0] == '0' && (s[1] == 'x' || s[1] == 'X') then s[2..] else s;
    DecodePrefix(if |t| % 2 == 1 then "0" + t else t)
  }

  function DecodePrefix(s: string): seq<byte> {
    if |s| < 2 || !IsHexDigit(s[0]) || !IsHexDigit(s[1]) then []
    else [HexToByte(s[0]) * 16 + HexToByte(s[1])] + DecodePrefix(s[2..])
  }

  lemma {:induction false} DecodePrefixOfHex(s: string)
    requires AllHex(s) && |s| % 2 == 0
    ensures DecodePrefix(s) == Pairs(s)
  {
    if |s| > 0 {
      DecodePrefixOfHex(s[2..]);
      FirstPair(s);
    }
  }

  lemma FirstPair(s: string)
    requires |s| % 2 == 0 && |s| > 0
    ensures Pairs(s) == [HexToByte(s[0]) * 16 + HexToByte(s[1])] + Pairs(s[2..])
  {
    var rest := Pairs(s[2..]);
    forall i | 0 <= i < |rest|
      ensures Pairs(s)[i + 1] == rest[i]
    {
      assert s[2..][2 * i] == s[2 * (i + 1)] && s[2..][2 * i + 1] == s[2 * (i + 1) + 1];
    }
  }

  /** Of any text that is the pairs in front of the first that is not hexadecimal. */
  lemma {:induction false} DecodePrefixIs(s: string, k: nat)
    requires 2 * k <= |s| && AllHex(s[..2 * k])
    requires 2 * k + 1 < |s| ==> !IsHexDigit(s[2 * k]) || !IsHexDigit(s[2 * k + 1])
    ensures DecodePrefix(s) == Pairs(s[..2 * k])
  {
    if k > 0 {
      var t := s[..2 * k];
      assert t[0] == s[0] && t[1] == s[1] && s[2..][..2 * (k - 1)] == t[2..];
      DecodePrefixIs(s[2..], k - 1);
      FirstPair(t);
    }
  }

  /** common.BytesToAddress: the last 20 bytes, or zeros in front. */
  function BytesToAddress(b: seq<byte>): (a: seq<byte>)
    ensures |a| == 20
  {
    if |b| >= 20 then b[|b| - 20..] else Zeros(20 - |b|) + b
  }

  function HexToAddress(s: string): seq<byte> {
    BytesToAddress(FromHex(s))
  }

  /** types.ToEVMAddress. */
  function ToEVMAddress(address: string): Option<seq<byte>> {
    var cleanAddr := TrimPrefix(address);
    if |cleanAddr| == 40 then Some(HexToAddress(address))
    else if |cleanAddr| == 64 then
      var b :- Decode(cleanAddr);
      Some(BytesToAddress(b[12..]))
    else None
  }

  /** AddressConverter.ToBytes32. */
  method ToBytes32(address: string) returns (r: Option<seq<byte>>)
    ensures r == Bytes32Of(address)
  {
    var cleanAddr := TrimPrefix(address);
    if |cleanAddr| == 64 {
      var b :- Decode(cleanAddr);
      assert Zeros(0) + b == b;
      return Some(b);
    }
    if |cleanAddr| == 62 {
      var b :- Decode(cleanAddr);
      var result := new byte[32](_ => 0);
      assert result[..1] == Zeros(1);
      CopyInto(result, 1, b);
      return Some(result[..]);
    }
    if |cleanAddr| == 40 {
      var evmAddr := HexToAddress(address);
      var result := new byte[32](_ => 0);
      assert result[..12] == Zeros(12);
      CopyInto(result, 12, evmAddr);
      return Some(result[..]);
    }
    r := None;
  }

  /** copy(dst[at:], src). */
  method CopyInto(dst: array<byte>, at: nat, src: seq<byte>)
    requires at + |src| == dst.Length
    modifies dst
    ensures dst[..] == old(dst[..at]) + src
  {
    var i := 0;
    while i < |src|
      invariant 0 <= i <= |src|
      invariant dst[..at] == old(dst[..at])
      invariant dst[at..at + i] == src[..i]
    {
      dst[at + i] := src[i];
      i := i + 1;
    }
    assert dst[..] == dst[..at] + dst[at..];
  }

  /** 32 bytes for an address text of 64, 62 or 40 digits, with zeros in front of the shorter ones. */
  function Bytes32Of(address: string): (r: Option<seq<byte>>)
    ensures r.Some? ==> |r.value| == 32
  {
    var cleanAddr := TrimPrefix(address);
    if |cleanAddr| == 40 then Some(Zeros(12) + HexToAddress(address))
    else if |cleanAddr| == 62 || |cleanAddr| == 64 then
      var b :- Decode(cleanAddr);
      Some(Zeros(32 - |b|) + b)
    else None
  }

  /** The two conversions agree on every text both accept: the address is the last 20 bytes. */
  lemma AddressConversionsAgree(address: string)
    requires ToEVMAddress(address).Some?
    ensures Bytes32Of(address).Some? && Bytes32Of(address).value[12..] == ToEVMAddress(address).value
  {
  }

  /** An event's bytes32 address printed as text and read as an EVM address keeps its last 20 bytes;
      printing those back left-padded restores the bytes32 if and only if the first 12 were zero. */
  lemma EventAddressRoundTrip(b: seq<byte>)
    requires |b| == 32
    ensures ToEVMAddress(Bytes32ToHexString(b)) == Some(b[12..])
    ensures Zeros(12) + ToEVMAddress(Bytes32ToHexString(b)).value == b <==> b[..12] == Zeros(12)
  {
    EncodeDecode(b);
    var back := Zeros(12) + b[12..];
    assert back[..12] == Zeros(12) && b == b[..12] + b[12..];
  }

  /** Two printed bytes32 tokens name the same ERC20 contract exactly when their last 20 bytes agree. */
  lemma SameTokenIff(a: seq<byte>, b: seq<byte>)
    requires |a| == 32 && |b| == 32
    ensures ToEVMAddress(Bytes32ToHexString(a)) == ToEVMAddress(Bytes32ToHexString(b)) <==> a[12..] == b[12..]
  {
    EventAddressRoundTrip(a);
    EventAddressRoundTrip(b);
  }
}
