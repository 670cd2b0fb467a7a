/** Field elements, u128 words and u256 halves (pkg/starknetutil). */
module StarknetUtil {
  import opened Bytes
  import opened Hex
  import opened Integers
  import opened Wrappers

  const FIELD_PRIME: nat := 0x800000000000011000000000000000000000000000000000000000000000001

  type felt = f: nat | f < FIELD_PRIME

  lemma WordSizes()
    ensures Pow256(16) == TWO128 && Pow256(32) == TWO256
    ensures TWO128 < FIELD_PRIME < TWO256
  {
    assert Pow256(4) == 0x1_00000000;
    assert Pow256(8) == 0x1_00000000_00000000;
    assert Pow256(12) == 0x1_00000000_00000000_00000000;
    assert Pow256(16) == TWO128;
    assert Pow256(20) == TWO128 * 0x1_00000000;
    assert Pow256(24) == TWO128 * 0x1_00000000_00000000;
    assert Pow256(28) == TWO128 * 0x1_00000000_00000000_00000000;
    assert Pow256(32) == TWO256;
  }

  /** utils.BigIntToFelt reduces modulo the field prime. */
  function BigIntToFelt(n: nat): (f: felt)
    ensures n < FIELD_PRIME ==> f == n
  {
    n % 0x800000000000011000000000000000000000000000000000000000000000001
  }

  function Low128(n: nat): (w: u128)
    ensures n < TWO128 ==> w == n
  {
    n % 0x1_00000000_00000000_00000000_00000000
  }

  function High128(n: nat): nat {
    n / 0x1_00000000_00000000_00000000_00000000
  }

  // ---------------------------------------------------------------- u128 words

  /** The bytes, filled up with zeros to whole 16-byte words. */
  function Padded(b: seq<byte>): (p: seq<byte>)
    ensures |p| % 16 == 0 && |b| <= |p| < |b| + 16 && p[..|b|] == b
    ensures forall i :: |b| <= i < |p| ==> p[i] == 0
  {
    b + Zeros((16 - |b| % 16) % 16)
  }

  function WordCount(n: nat): nat {
    (n + 15) / 16
  }

  /** Word i of the packing: bytes 16i to 16i + 15, read big-endian. */
  function PackedWord(b: seq<byte>, i: nat): (w: u128)
    requires i < WordCount(|b|)
  {
    var chunk := Padded(b)[16 * i..16 * i + 16];
    WordSizes();
    FromBytesBound(chunk);
    FromBytes(chunk)
  }

  function PackWords(b: seq<byte>): (ws: seq<u128>)
    ensures |ws| == WordCount(|b|)
  {
    seq(WordCount(|b|), i requires 0 <= i < WordCount(|b|) => PackedWord(b, i))
  }

  /** A word is the number its sixteen bytes spell, the first one counting most. */
  lemma PackedWordsAre(b: seq<byte>, i: nat)
    requires i < WordCount(|b|)
    ensures 16 * i + 16 <= |Padded(b)| && PackWords(b)[i] == FromBytes(Padded(b)[16 * i..16 * i + 16])
  {
  }

  /** The 16 bytes of a u128 word, or of the low half of a felt. */
  function U128Bytes(w: nat): (b: seq<byte>)
    ensures |b| == 16
  {
    ToBytes(Low128(w), 16)
  }

  /** The bytes a Cairo `Bytes` value of that size holds: 16 big-endian bytes a word. */
  function UnpackWords(size: nat, ws: seq<u128>): Option<seq<byte>> {
    var all := Flatten(seq(|ws|, i requires 0 <= i < |ws| => U128Bytes(ws[i])));
    if size <= |all| then Some(all[..size]) else None
  }

  /** The 16-byte chunks of a padded byte string. */
  function Chunks(p: seq<byte>, n: nat): (cs: seq<seq<byte>>)
    requires |p| == 16 * n
    ensures |cs| == n && forall i :: 0 <= i < n ==> cs[i] == p[16 * i..16 * i + 16]
  {
    seq(n, i requires 0 <= i < n => p[16 * i..16 * i + 16])
  }

  lemma ChunksOfPrefix(p: seq<byte>, n: nat)
    requires n > 0 && |p| == 16 * n
    ensures Chunks(p, n)[..n - 1] == Chunks(p[..16 * (n - 1)], n - 1)
  {
    var init := p[..16 * (n - 1)];
    forall i | 0 <= i < n - 1
      ensures Chunks(p, n)[i] == Chunks(init, n - 1)[i]
    {
      assert p[16 * i..16 * i + 16] == init[16 * i..16 * i + 16];
    }
  }

  lemma {:induction false} FlattenChunks(p: seq<byte>, n: nat)
    requires |p| == 16 * n
    ensures Flatten(Chunks(p, n)) == p
  {
    if n > 0 {
      var init := p[..16 * (n - 1)];
      FlattenChunks(init, n - 1);
      ChunksOfPrefix(p, n);
      assert Chunks(p, n)[n - 1] == p[16 * (n - 1)..16 * (n - 1) + 16];
      assert p == init + p[16 * (n - 1)..16 * (n - 1) + 16];
    }
  }

  lemma PackedWordBytes(b: seq<byte>, i: nat)
    requires i < WordCount(|b|)
    ensures U128Bytes(PackWords(b)[i]) == Padded(b)[16 * i..16 * i + 16]
  {
    ToFromBytes(Padded(b)[16 * i..16 * i + 16]);
  }

  /** Size and words together determine the bytes, whatever the length of the last chunk. */
  lemma PackingIsLossless(b: seq<byte>)
    ensures UnpackWords(|b|, PackWords(b)) == Some(b)
  {
    var ws, n := PackWords(b), WordCount(|b|);
    var p := Padded(b);
    var chunks := Chunks(p, n);
    var spelled := seq(|ws|, i requires 0 <= i < |ws| => U128Bytes(ws[i]));
    forall i | 0 <= i < n
      ensures spelled[i] == chunks[i]
    {
      PackedWordBytes(b, i);
    }
    assert spelled == chunks;
    FlattenChunks(p, n);
  }

  /** make([]byte, 16) and copy: the chunk at i, zero-filled when the bytes run out. */
  method CopyChunk(b: seq<byte>, i: nat) returns (chunk: seq<byte>)
    requires i < |b| && i % 16 == 0
    ensures i + 16 <= |Padded(b)| && chunk == Padded(b)[i..i + 16]
  {
    var a := new byte[16](_ => 0);
    var k := 0;
    while k < 16 && i + k < |b|
      invariant 0 <= k <= 16 && i + k <= |b|
      invariant forall j :: 0 <= j < k ==> a[j] == b[i + j]
      invariant forall j :: k <= j < 16 ==> a[j] == 0
    {
      a[k] := b[i + k];
      k := k + 1;
    }
    chunk := a[..];
    ChunkIsSlice(b, i, chunk);
  }

  lemma ChunkIsSlice(b: seq<byte>, i: nat, chunk: seq<byte>)
    requires i < |b| && i % 16 == 0 && |chunk| == 16
    requires forall j :: 0 <= j < 16 ==> chunk[j] == if i + j < |b| then b[i + j] else 0
    ensures i + 16 <= |Padded(b)| && chunk == Padded(b)[i..i + 16]
  {
    var p := Padded(b);
    assert |p| / 16 > i / 16;
    forall j | 0 <= j < 16
      ensures chunk[j] == p[i..i + 16][j]
    {
      assert p[i..i + 16][j] == p[i + j];
    }
  }

  lemma WordOfChunk(b: seq<byte>, k: nat, chunk: seq<byte>)
    requires k < WordCount(|b|) && chunk == Padded(b)[16 * k..16 * k + 16]
    ensures BigIntToFelt(FromBytes(chunk)) == PackWords(b)[k]
  {
    WordSizes();
    FromBytesBound(chunk);
  }

  lemma PrefixSnoc<T>(s: seq<T>, k: nat)
    requires k < |s|
    ensures s[..k + 1] == s[..k] + [s[k]]
  {
  }

  /** BytesToU128Felts, chunk by chunk. */
  method BytesToU128Felts(b: seq<byte>) returns (words: seq<felt>)
    ensures words == PackWords(b)
    ensures UnpackWords(|b|, words) == Some(b)
  {
    words := [];
    var i := 0;
    while i < |b|
      invariant i == 16 * |words| && |words| <= WordCount(|b|)
      invariant words == PackWords(b)[..|words|]
    {
      var chunk := CopyChunk(b, i);
      WordOfChunk(b, |words|, chunk);
      PrefixSnoc(PackWords(b), |words|);
      words := words + [BigIntToFelt(FromBytes(chunk))];
      i := i + 16;
    }
    PackingIsLossless(b);
  }

  // ---------------------------------------------------------------- u256 halves

  /** ToUint256: nil is zero, anything else is reduced modulo 2^256. */
  function ToUint256(value: Option<int>): (u: nat)
    ensures u < TWO256 && (value.None? ==> u == 0)
    ensures value.Some? ==> (value.value - u) % TWO256 == 0
  {
    if value.None? then 0 else value.value % 0x1_00000000_00000000_00000000_00000000_00000000_00000000_00000000_00000000
  }

  /** ConvertBigIntToU256Felts, also the split inside ERC20Approve. */
  function ConvertBigIntToU256Felts(value: Option<int>): (halves: (felt, felt))
  {
    var u := ToUint256(value);
    (BigIntToFelt(Low128(u)), BigIntToFelt(High128(u)))
  }

  /** The u256 a (low, high) pair stands for: readU256, ERC20Allowance, quoteGasPayment. */
  function CombineU256(low: nat, high: nat): nat {
    low + high * 0x1_00000000_00000000_00000000_00000000
  }

  /** The high half counts 2^128 apiece. */
  lemma CombineSteps(low: nat, high: nat)
    ensures CombineU256(low, 0) == low && CombineU256(low, high + 1) == CombineU256(low, high) + TWO128
  {
  }

  /** Split and combine are inverse, on every u256 and on every pair of u128 halves. */
  lemma U256RoundTrip(value: Option<int>)
    ensures var (low, high) := ConvertBigIntToU256Felts(value);
            low < TWO128 && high < TWO128 && CombineU256(low, high) == ToUint256(value)
  {
    WordSizes();
    assert High128(ToUint256(value)) < TWO128;
  }

  lemma SplitCombined(n: nat, low: u128, high: u128)
    requires n == low + high * 0x1_00000000_00000000_00000000_00000000
    ensures Low128(n) == low && High128(n) == high
  {
    Remainder(high, 0x1_00000000_00000000_00000000_00000000, low);
  }

  lemma CombinedFits(low: u128, high: u128)
    ensures CombineU256(low, high) < TWO256
  {
    assert high <= 0xFFFFFFFF_FFFFFFFF_FFFFFFFF_FFFFFFFF && low <= 0xFFFFFFFF_FFFFFFFF_FFFFFFFF_FFFFFFFF;
  }

  lemma ToUint256Fits(n: nat)
    requires n < TWO256
    ensures ToUint256(Some(n)) == n
  {
  }

  lemma U256HalvesRoundTrip(low: u128, high: u128)
    ensures CombineU256(low, high) < TWO256
    ensures ConvertBigIntToU256Felts(Some(CombineU256(low, high))) == (low, high)
  {
    var n := CombineU256(low, high);
    CombinedFits(low, high);
    ToUint256Fits(n);
    SplitCombined(n, low, high);
    WordSizes();
  }

  // ---------------------------------------------------------------- order ids

  /** What a Starknet u256 order id is for a Solidity order id string: right and left 16 bytes.
      An id longer than 32 bytes keeps its first 32. */
  function OrderIdFelts(orderID: string): Option<(u128, u128)> {
    match HexToBN(orderID)
    case None => None
    case Some(n) =>
      WordSizes();
      if n < TWO256 then Some((Low128(n), High128(n)))
      else
        MinimalBytesLong(n);
        var b := MinimalBytes(n);
        FromBytesBound(b[..16]);
        FromBytesBound(b[16..32]);
        Some((FromBytes(b[16..32]), FromBytes(b[..16])))
  }

  lemma MinimalBytesLong(n: nat)
    requires n >= TWO256
    ensures |MinimalBytes(n)| > 32
  {
    MinimalBytesValue(n);
    FromBytesBound(MinimalBytes(n));
    WordSizes();
    if |MinimalBytes(n)| <= 32 {
      Pow256Monotone(|MinimalBytes(n)|, 32);
    }
  }

  lemma {:induction false} Pow256Monotone(a: nat, b: nat)
    requires a <= b
    ensures Pow256(a) <= Pow256(b)
  {
    if a < b {
      Pow256Monotone(a, b - 1);
    }
  }

  lemma HalvesOfWord(b: seq<byte>)
    requires |b| == 32
    ensures FromBytes(b[..16]) < TWO128 && FromBytes(b[16..32]) < TWO128
    ensures FromBytes(b) < TWO256
    ensures FromBytes(b[..16]) == High128(FromBytes(b)) && FromBytes(b[16..32]) == Low128(FromBytes(b))
  {
    var hi, lo := b[..16], b[16..32];
    assert b == hi + lo;
    HalvesOfLeading(b);
    FromBytesConcat(hi, lo);
    WordSizes();
    CombinedFits(FromBytes(lo), FromBytes(hi));
    SplitCombined(FromBytes(b), FromBytes(lo), FromBytes(hi));
  }

  /** The felts of an id are its number, or of a longer one the number of its first 32 bytes. */
  lemma OrderIdFeltsAre(orderID: string)
    ensures OrderIdFelts(orderID).None? <==> HexToBN(orderID).None?
    ensures OrderIdFelts(orderID).Some? ==>
              var n, (low, high) := HexToBN(orderID).value, OrderIdFelts(orderID).value;
              && (n < TWO256 ==> low + high * TWO128 == n)
              && (n >= TWO256 ==> |MinimalBytes(n)| > 32
                                  && low + high * TWO128 == n / Pow256(|MinimalBytes(n)| - 32))
  {
    if HexToBN(orderID).Some? && HexToBN(orderID).value >= TWO256 {
      FirstBytes(HexToBN(orderID).value);
    }
  }

  lemma FirstBytes(n: nat)
    requires n >= TWO256
    ensures |MinimalBytes(n)| > 32
    ensures var b := MinimalBytes(n);
            FromBytes(b[16..32]) + FromBytes(b[..16]) * TWO128 == n / Pow256(|b| - 32)
  {
    MinimalBytesLong(n);
    MinimalBytesValue(n);
    var b := MinimalBytes(n);
    var first, rest := b[..32], b[32..];
    assert b == first + rest;
    FromBytesConcat(first, rest);
    FromBytesBound(rest);
    RemainderOf(n, FromBytes(first), Pow256(|rest|), FromBytes(rest));
    assert first == b[..16] + b[16..32];
    FromBytesConcat(b[..16], b[16..32]);
    WordSizes();
  }

  lemma HalvesOfId(orderID: string, b: seq<byte>)
    requires HexToBN(orderID).Some? && |b| >= 32 && FromBytes(b) == HexToBN(orderID).value
    requires |b| == 32 || b == MinimalBytes(FromBytes(b))
    ensures OrderIdFelts(orderID) == Some((BigIntToFelt(FromBytes(b[16..32])), BigIntToFelt(FromBytes(b[..16]))))
  {
    if |b| == 32 {
      HalvesOfWord(b);
    } else {
      MinimalBytesShort(FromBytes(b));
      HalvesOfLeading(b);
    }
  }

  lemma HalvesOfLeading(b: seq<byte>)
    requires |b| >= 32
    ensures FromBytes(b[..16]) < TWO128 && FromBytes(b[16..32]) < TWO128
  {
    WordSizes();
    FromBytesBound(b[..16]);
    FromBytesBound(b[16..32]);
  }

  lemma MinimalBytesShort(n: nat)
    ensures n < TWO256 ==> |MinimalBytes(n)| <= 32
  {
    WordSizes();
    if n < TWO256 {
      MinimalBytesLength(n, 32);
    }
  }

  /** ConvertSolidityOrderIDForStarknet: (low, high), or an error for text that is not a number. */
  method ConvertSolidityOrderIDForStarknet(orderID: string) returns (r: Option<(felt, felt)>)
    ensures r == OrderIdFelts(orderID)
  {
    var orderBN := HexToBN(orderID);
    if orderBN.None? {
      return None;
    }
    var orderBytes := MinimalBytes(orderBN.value);
    MinimalBytesValue(orderBN.value);
    if |orderBytes| < 32 {
      FromBytesLeadingZeros(32 - |orderBytes|, orderBytes);
      orderBytes := Zeros(32 - |orderBytes|) + orderBytes;
    }
    HalvesOfId(orderID, orderBytes);
    var left16 := BigIntToFelt(FromBytes(orderBytes[..16]));
    var right16 := BigIntToFelt(FromBytes(orderBytes[16..32]));
    r := Some((right16, left16));
  }
}
