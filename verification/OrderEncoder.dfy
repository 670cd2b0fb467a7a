/** encodeStarknetOrderData: the hand-written ABI encoding of an OrderData struct, wrapped into a
    Cairo `Bytes` value. */
module OrderEncoder {
  import opened Bytes
  import opened StarknetUtil
  import opened Integers
  import opened Wrappers
  import opened AbiSpec

  /** Twelve head words. */
  const DATA_OFFSET: uint32 := 384

  /** uint32(n). */
  function Low32(n: nat): (r: uint32)
    ensures n < TWO32 ==> r == n
  {
    n % 0x1_00000000
  }

  datatype StarknetOrderData = StarknetOrderData(
    sender: felt,
    recipient: felt,
    inputToken: felt,
    outputToken: felt,
    amountIn: Option<int>,    // a *big.Int, possibly nil
    amountOut: Option<int>,
    senderNonce: felt,
    originDomain: uint32,
    destinationDomain: uint32,
    destinationSettler: felt,
    openDeadline: uint64,
    fillDeadline: uint64,
    data: seq<felt>
  )

  /** The Solidity struct OrderData; addresses and numbers as the numbers they are. */
  datatype SolidityOrder = SolidityOrder(
    sender: nat,
    recipient: nat,
    inputToken: nat,
    outputToken: nat,
    amountIn: nat,
    amountOut: nat,
    senderNonce: nat,
    originDomain: nat,
    destinationDomain: nat,
    destinationSettler: nat,
    fillDeadline: nat,
    data: seq<byte>
  ) {
    predicate Fits() {
      && sender < TWO256 && recipient < TWO256 && inputToken < TWO256 && outputToken < TWO256
      && amountIn < TWO256 && amountOut < TWO256 && senderNonce < TWO256
      && originDomain < TWO32 && destinationDomain < TWO32 && destinationSettler < TWO256
      && fillDeadline < TWO32 && |data| < TWO256
    }

    function Static(): (ns: seq<nat>)
      ensures |ns| == 11
      ensures Fits() ==> forall i :: 0 <= i < 11 ==> ns[i] < TWO256
    {
      [sender, recipient, inputToken, outputToken, amountIn, amountOut, senderNonce,
       originDomain, destinationDomain, destinationSettler, fillDeadline]
    }

    function StaticValues(): (vs: seq<Value>)
      ensures |vs| == 11 && forall i :: 0 <= i < 11 ==> IsWord(vs[i])
    {
      [Bytes32(Word(sender)), Bytes32(Word(recipient)), Bytes32(Word(inputToken)), Bytes32(Word(outputToken)),
       UInt(amountIn), UInt(amountOut), UInt(senderNonce), UInt(originDomain), UInt(destinationDomain),
       Bytes32(Word(destinationSettler)), UInt(fillDeadline)]
    }

    /** The struct as an ABI value. */
    function AbiValue(): Value {
      Tuple(StaticValues() + [DynBytes(data)])
    }
  }

  function Word(n: nat): (w: seq<byte>)
    ensures |w| == 32
  {
    ToBytes(n, 32)
  }

  function WordsOf(ns: seq<nat>): (ws: seq<seq<byte>>)
    ensures |ws| == |ns|
    ensures forall i :: 0 <= i < |ws| ==> |ws[i]| == 32
  {
    seq(|ns|, i requires 0 <= i < |ns| => Word(ns[i]))
  }

  /** u256ToBytes32 reads the magnitude and keeps its low 32 bytes; nil is zero. */
  function Amount(n: Option<int>): (u: nat)
    ensures u < TWO256
  {
    if n.None? then 0
    else
      (if n.value < 0 then -n.value else n.value)
      % 0x1_00000000_00000000_00000000_00000000_00000000_00000000_00000000_00000000
  }

  /** The order that is written: amounts modulo 2^256, the deadline modulo 2^32, no data. */
  function Meaning(od: StarknetOrderData): (o: SolidityOrder)
    ensures o.Fits()
  {
    WordSizes();
    SolidityOrder(od.sender, od.recipient, od.inputToken, od.outputToken, Amount(od.amountIn),
      Amount(od.amountOut), od.senderNonce, od.originDomain, od.destinationDomain,
      od.destinationSettler, Low32(od.fillDeadline), [])
  }

  /** Field by field, the order that is written has the values of the same names: nil is zero, a negative
      amount counts by its magnitude, and what does not fit is cut off. */
  lemma MeaningIs(od: StarknetOrderData)
    ensures var o := Meaning(od);
            && o.sender == od.sender && o.recipient == od.recipient
            && o.inputToken == od.inputToken && o.outputToken == od.outputToken
            && o.senderNonce == od.senderNonce && o.originDomain == od.originDomain
            && o.destinationDomain == od.destinationDomain && o.destinationSettler == od.destinationSettler
            && o.fillDeadline == od.fillDeadline % 0x1_0000_0000 && o.data == []
    ensures Meaning(od).amountIn == Magnitude(od.amountIn) % TWO256
    ensures Meaning(od).amountOut == Magnitude(od.amountOut) % TWO256
  {
  }

  /** The absolute value of a *big.Int, zero for nil. */
  function Magnitude(n: Option<int>): (m: nat)
    ensures n.None? ==> m == 0
    ensures n.Some? ==> m == n.value || m == 0 - n.value
  {
    if n.None? then 0 else if n.value < 0 then 0 - n.value else n.value
  }

  // ------------------------------------------------------------- reading the encoding back

  function NumberAt(raw: seq<byte>, pos: nat): Option<nat> {
    if pos + 32 <= |raw| then Some(FromBytes(raw[pos..pos + 32])) else None
  }

  function NumbersAt(raw: seq<byte>, pos: nat, count: nat): Option<seq<nat>> {
    if count == 0 then Some([])
    else
      var init :- NumbersAt(raw, pos, count - 1);
      var n :- NumberAt(raw, pos + 32 * (count - 1));
      Some(init + [n])
  }

  /** abi.decode(raw, (OrderData)): follow the offset, read eleven words, follow the data offset. */
  function DecodeOrder(raw: seq<byte>): Option<SolidityOrder> {
    var start :- NumberAt(raw, 0);
    var ns :- NumbersAt(raw, start, 11);
    DecodeData(raw, start, ns)
  }

  /** Follow the data offset, which counts from the start of the tuple. */
  function DecodeData(raw: seq<byte>, start: nat, ns: seq<nat>): Option<SolidityOrder> {
    var offset :- NumberAt(raw, start + 352);
    var length :- NumberAt(raw, start + offset);
    var from := start + offset + 32;
    if |ns| == 11 && from + length <= |raw| then OrderOf(ns, raw[from..from + length]) else None
  }

  /** The fields in their order; a uint32 with higher bits set is refused. */
  function OrderOf(ns: seq<nat>, data: seq<byte>): Option<SolidityOrder>
    requires |ns| == 11
  {
    if ns[7] < TWO32 && ns[8] < TWO32 && ns[10] < TWO32 then
      Some(SolidityOrder(ns[0], ns[1], ns[2], ns[3], ns[4], ns[5], ns[6], ns[7], ns[8], ns[9], ns[10], data))
    else None
  }

  lemma OrderOfStatic(o: SolidityOrder)
    requires o.Fits()
    ensures OrderOf(o.Static(), o.data) == Some(o)
  {
  }

  /** Every word of the encoding, up to and including the length of the data. */
  function EncodedWords(o: SolidityOrder): (ws: seq<seq<byte>>)
    ensures |ws| == 14 && forall i :: 0 <= i < 14 ==> |ws[i]| == 32
  {
    WordsOf([32] + o.Static() + [384, |o.data|])
  }

  lemma NumberAtWord(ns: seq<nat>, rest: seq<byte>, i: nat)
    requires i < |ns| && ns[i] < TWO256
    ensures NumberAt(Flatten(WordsOf(ns)) + rest, 32 * i) == Some(ns[i])
  {
    var ws := WordsOf(ns);
    FlattenAt(ws, 32, i);
    var raw := Flatten(ws) + rest;
    assert raw[32 * i..32 * i + 32] == Flatten(ws)[32 * i..32 * i + 32] == Word(ns[i]);
    FromToBytes(ns[i], 32);
    WordSizes();
    Remainder(0, TWO256, ns[i]);
  }

  lemma {:induction false} NumbersAtWords(ns: seq<nat>, rest: seq<byte>, from: nat, count: nat)
    requires from + count <= |ns| && forall i :: 0 <= i < |ns| ==> ns[i] < TWO256
    ensures NumbersAt(Flatten(WordsOf(ns)) + rest, 32 * from, count) == Some(ns[from..from + count])
  {
    if count > 0 {
      NumbersAtWords(ns, rest, from, count - 1);
      NumberAtWord(ns, rest, from + count - 1);
      assert 32 * from + 32 * (count - 1) == 32 * (from + count - 1);
      assert ns[from..from + count] == ns[from..from + count - 1] + [ns[from + count - 1]];
    }
  }

  function DataPadding(o: SolidityOrder): seq<byte> {
    Zeros((32 - |o.data| % 32) % 32)
  }

  lemma StaticWords(o: SolidityOrder)
    ensures Words(o.StaticValues()) == WordsOf(o.Static())
  {
  }

  lemma EncodingIsWords(o: SolidityOrder)
    ensures Enc(Tuple([o.AbiValue()])) == Flatten(EncodedWords(o)) + (o.data + DataPadding(o))
  {
    StaticWords(o);
    EncOneStruct(o.StaticValues(), DynBytes(o.data));
    FlattenEncodedWords(o);
    EncodedData(o);
    Regroup(Word(32), Flatten(WordsOf(o.Static())), Word(384), Word(|o.data|), o.data, DataPadding(o));
  }

  lemma EncodedData(o: SolidityOrder)
    ensures Enc(DynBytes(o.data)) == Word(|o.data|) + o.data + DataPadding(o)
  {
  }

  lemma Regroup(a: seq<byte>, b: seq<byte>, c: seq<byte>, d: seq<byte>, e: seq<byte>, f: seq<byte>)
    ensures a + (b + c + (d + e + f)) == (a + b + c + d) + (e + f)
  {
  }

  lemma FlattenEncodedWords(o: SolidityOrder)
    ensures Flatten(EncodedWords(o))
         == Word(32) + Flatten(WordsOf(o.Static())) + Word(384) + Word(|o.data|)
  {
    var w, s, t := WordsOf([32]), WordsOf(o.Static()), WordsOf([384, |o.data|]);
    assert EncodedWords(o) == w + s + t;
    FlattenConcat(w, s);
    FlattenConcat(w + s, t);
    FlattenPair(384, |o.data|);
    FlattenSingle(32);
  }

  lemma FlattenSingle(a: nat)
    ensures Flatten(WordsOf([a])) == Word(a)
  {
    assert WordsOf([a])[..0] == [];
    assert [] + Word(a) == Word(a);
  }

  lemma FlattenPair(a: nat, b: nat)
    ensures Flatten(WordsOf([a, b])) == Word(a) + Word(b)
  {
    assert WordsOf([a, b])[..1] == WordsOf([a]);
    FlattenSingle(a);
  }

  /** The three numbers around the static fields, read back from their places. */
  lemma OffsetsReadBack(ns: seq<nat>, rest: seq<byte>)
    requires |ns| == 14 && forall i :: 0 <= i < 14 ==> ns[i] < TWO256
    ensures var raw := Flatten(WordsOf(ns)) + rest;
            NumberAt(raw, 0) == Some(ns[0]) && NumberAt(raw, 384) == Some(ns[12]) && NumberAt(raw, 416) == Some(ns[13])
    ensures |Flatten(WordsOf(ns))| == 448
  {
    NumberAtWord(ns, rest, 0);
    NumberAtWord(ns, rest, 12);
    NumberAtWord(ns, rest, 13);
    FlattenLength(WordsOf(ns), 32);
  }

  /** Decoding the specification's encoding returns the order, for every order and every data. */
  lemma DecodeEncoded(o: SolidityOrder)
    requires o.Fits()
    ensures DecodeOrder(Enc(Tuple([o.AbiValue()]))) == Some(o)
  {
    var ns := [32] + o.Static() + [384, |o.data|];
    var rest := o.data + DataPadding(o);
    EncodingIsWords(o);
    OffsetsReadBack(ns, rest);
    NumbersAtWords(ns, rest, 1, 11);
    assert ns[1..12] == o.Static();
    DataBehind(Flatten(WordsOf(ns)), o.data, DataPadding(o));
    AssembleOrder(Flatten(WordsOf(ns)) + rest, o);
  }

  lemma DataBehind(a: seq<byte>, b: seq<byte>, c: seq<byte>)
    ensures var raw := a + (b + c); |a| + |b| <= |raw| && raw[|a|..|a| + |b|] == b
  {
  }

  lemma DecodeDataAt(raw: seq<byte>, ns: seq<nat>, length: nat)
    requires |ns| == 11 && NumberAt(raw, 384) == Some(384) && NumberAt(raw, 416) == Some(length)
              && 448 + length <= |raw|
    ensures DecodeData(raw, 32, ns) == OrderOf(ns, raw[448..448 + length])
  {
  }

  lemma AssembleOrder(raw: seq<byte>, o: SolidityOrder)
    requires o.Fits() && NumberAt(raw, 0) == Some(32) && NumbersAt(raw, 32, 11) == Some(o.Static())
    requires NumberAt(raw, 384) == Some(384) && NumberAt(raw, 416) == Some(|o.data|)
    requires 448 + |o.data| <= |raw| && raw[448..448 + |o.data|] == o.data
    ensures DecodeOrder(raw) == Some(o)
  {
    OrderOfStatic(o);
    DecodeDataAt(raw, o.Static(), |o.data|);
  }

  // ------------------------------------------------------------- the encoder

  function LeftPadded(src: seq<byte>, size: nat): (r: seq<byte>)
    ensures |r| == size
  {
    if |src| >= size then src[|src| - size..] else Zeros(size - |src|) + src
  }

  lemma LeftPaddedNumber(src: seq<byte>, size: nat)
    ensures FromBytes(LeftPadded(src, size)) == FromBytes(src) % Pow256(size)
  {
    if |src| >= size {
      FromBytesSuffix(src, size);
    } else {
      FromBytesLeadingZeros(size - |src|, src);
      FromBytesBound(src);
      Pow256Monotone(|src|, size);
      Remainder(0, Pow256(size), FromBytes(src));
    }
  }

  lemma LeftPaddedIsLowBytes(n: nat, size: nat)
    ensures LeftPadded(MinimalBytes(n), size) == ToBytes(n, size)
  {
    MinimalBytesValue(n);
    FromToBytes(n, size);
    LeftPaddedNumber(MinimalBytes(n), size);
    FromBytesInjective(LeftPadded(MinimalBytes(n), size), ToBytes(n, size));
  }

  method LeftPad(src: seq<byte>, size: nat) returns (r: seq<byte>)
    ensures r == LeftPadded(src, size)
  {
    if |src| >= size {
      return src[|src| - size..];
    }
    var out := new byte[size](_ => 0);
    var i := 0;
    while i < |src|
      invariant 0 <= i <= |src|
      invariant forall k :: 0 <= k < size - |src| ==> out[k] == 0
      invariant forall k :: 0 <= k < i ==> out[size - |src| + k] == src[k]
    {
      out[size - |src| + i] := src[i];
      i := i + 1;
    }
    r := out[..];
  }

  /** feltToBytes32: felt.Bytes has exactly 32 bytes, copied one by one. */
  method FeltToBytes32(f: felt) returns (r: seq<byte>)
    ensures r == Word(f)
  {
    var b := Word(f);
    var result := new byte[32](_ => 0);
    var i := 0;
    while i < 32
      invariant 0 <= i <= 32
      invariant forall k :: 0 <= k < i ==> result[k] == b[k]
    {
      result[i] := b[i];
      i := i + 1;
    }
    r := result[..];
  }

  method U256ToBytes32(n: Option<int>) returns (r: seq<byte>)
    ensures r == Word(Amount(n))
  {
    WordSizes();
    if n.None? {
      FromBytesZeros(32);
      FromToBytes(0, 32);
      FromBytesInjective(Zeros(32), Word(0));
      return Zeros(32);
    }
    var magnitude := if n.value < 0 then -n.value else n.value;
    r := LeftPad(MinimalBytes(magnitude), 32);
    LeftPaddedIsLowBytes(magnitude, 32);
    ToBytesLow(magnitude, 32);
  }

  lemma FourBytes(v: uint32, b: seq<byte>)
    requires b == Zeros(28) + [v / 0x1000000, v / 0x10000 % 256, v / 0x100 % 256, v % 256]
    ensures b == Word(v)
  {
    var four := b[28..];
    assert b == Zeros(28) + four;
    FromBytesLeadingZeros(28, four);
    FourBytesValue(v, four);
    FromToBytes(v, 32);
    WordSizes();
    Remainder(0, TWO256, v);
    FromBytesInjective(b, Word(v));
  }

  lemma FourBytesValue(v: uint32, b: seq<byte>)
    requires b == [v / 0x1000000, v / 0x10000 % 256, v / 0x100 % 256, v % 256]
    ensures FromBytes(b) == v
  {
    var b1, b2, b3 := b[..1], b[..2], b[..3];
    assert b1[..0] == [] && b2[..1] == b1 && b3[..2] == b2;
    assert FromBytes(b1) == v / 0x1000000;
    assert FromBytes(b2) == v / 0x10000;
    assert FromBytes(b3) == v / 0x100;
  }

  method U32Word(v: uint32) returns (r: seq<byte>)
    ensures r == Word(v)
  {
    var b := new byte[32](_ => 0);
    b[28] := v / 0x1000000;
    b[29] := v / 0x10000 % 256;
    b[30] := v / 0x100 % 256;
    b[31] := v % 256;
    r := b[..];
    FourBytes(v, r);
  }

  /** writeWord appends a word, left-padded to 32 bytes. */
  method WriteWord(dst: seq<byte>, word: seq<byte>, ghost ns: seq<nat>, ghost n: nat) returns (r: seq<byte>)
    requires dst == Flatten(WordsOf(ns)) && LeftPadded(word, 32) == Word(n)
    ensures r == Flatten(WordsOf(ns + [n]))
  {
    var padded := LeftPad(word, 32);
    r := dst + padded;
    FlattenOneMore(ns, n);
  }

  lemma FlattenOneMore(ns: seq<nat>, n: nat)
    ensures Flatten(WordsOf(ns + [n])) == Flatten(WordsOf(ns)) + Word(n)
  {
    assert WordsOf(ns + [n])[..|ns|] == WordsOf(ns);
  }

  method WriteFelt(dst: seq<byte>, f: felt, ghost ns: seq<nat>) returns (r: seq<byte>)
    requires dst == Flatten(WordsOf(ns))
    ensures r == Flatten(WordsOf(ns + [f]))
  {
    var w := FeltToBytes32(f);
    r := WriteWord(dst, w, ns, f);
  }

  method WriteAmount(dst: seq<byte>, n: Option<int>, ghost ns: seq<nat>) returns (r: seq<byte>)
    requires dst == Flatten(WordsOf(ns))
    ensures r == Flatten(WordsOf(ns + [Amount(n)]))
  {
    var w := U256ToBytes32(n);
    r := WriteWord(dst, w, ns, Amount(n));
  }

  method WriteUint32(dst: seq<byte>, v: uint32, ghost ns: seq<nat>) returns (r: seq<byte>)
    requires dst == Flatten(WordsOf(ns))
    ensures r == Flatten(WordsOf(ns + [v]))
  {
    var w := U32Word(v);
    r := WriteWord(dst, w, ns, v);
  }

  /** The raw ABI bytes, word by word. */
  method EncodeRaw(od: StarknetOrderData) returns (raw: seq<byte>)
    ensures raw == Flatten(EncodedWords(Meaning(od)))
  {
    ghost var o := Meaning(od);
    raw := EncodeRawAddresses(od);
    ghost var ns := [32, o.sender, o.recipient, o.inputToken, o.outputToken];
    raw := EncodeRawAmounts(od, raw, ns);
    ns := ns + [o.amountIn, o.amountOut, o.senderNonce];
    raw := EncodeRawDomains(od, raw, ns);
    ns := ns + [o.originDomain, o.destinationDomain, o.destinationSettler];
    raw := EncodeRawDeadline(od, raw, ns);
    ns := ns + [o.fillDeadline];
    raw := EncodeRawNoData(raw, ns);
    NumbersInOrder(o);
  }

  lemma NumbersInOrder(o: SolidityOrder)
    ensures [32, o.sender, o.recipient, o.inputToken, o.outputToken] + [o.amountIn, o.amountOut, o.senderNonce]
            + [o.originDomain, o.destinationDomain, o.destinationSettler] + [o.fillDeadline] + [DATA_OFFSET]
            + [|o.data|]
         == [32] + o.Static() + [384, |o.data|]
  {
  }

  method EncodeRawAddresses(od: StarknetOrderData) returns (raw: seq<byte>)
    ensures var o := Meaning(od);
            raw == Flatten(WordsOf([32, o.sender, o.recipient, o.inputToken, o.outputToken]))
  {
    raw := WriteUint32([], 32, []);
    raw := WriteFelt(raw, od.sender, [] + [32]);
    raw := WriteFelt(raw, od.recipient, [] + [32] + [od.sender]);
    raw := WriteFelt(raw, od.inputToken, [] + [32] + [od.sender] + [od.recipient]);
    raw := WriteFelt(raw, od.outputToken, [] + [32] + [od.sender] + [od.recipient] + [od.inputToken]);
    assert [] + [32] + [od.sender] + [od.recipient] + [od.inputToken] + [od.outputToken]
        == [32, od.sender, od.recipient, od.inputToken, od.outputToken];
  }

  method EncodeRawAmounts(od: StarknetOrderData, dst: seq<byte>, ghost ns: seq<nat>) returns (raw: seq<byte>)
    requires dst == Flatten(WordsOf(ns))
    ensures var o := Meaning(od); raw == Flatten(WordsOf(ns + [o.amountIn, o.amountOut, o.senderNonce]))
  {
    ghost var a, b := Amount(od.amountIn), Amount(od.amountOut);
    raw := WriteAmount(dst, od.amountIn, ns);
    raw := WriteAmount(raw, od.amountOut, ns + [a]);
    raw := WriteFelt(raw, od.senderNonce, ns + [a] + [b]);
    assert ns + [a] + [b] + [od.senderNonce] == ns + [a, b, od.senderNonce];
  }

  method EncodeRawDomains(od: StarknetOrderData, dst: seq<byte>, ghost ns: seq<nat>) returns (raw: seq<byte>)
    requires dst == Flatten(WordsOf(ns))
    ensures var o := Meaning(od);
            raw == Flatten(WordsOf(ns + [o.originDomain, o.destinationDomain, o.destinationSettler]))
  {
    raw := WriteUint32(dst, od.originDomain, ns);
    raw := WriteUint32(raw, od.destinationDomain, ns + [od.originDomain]);
    raw := WriteFelt(raw, od.destinationSettler, ns + [od.originDomain] + [od.destinationDomain]);
    assert ns + [od.originDomain] + [od.destinationDomain] + [od.destinationSettler]
        == ns + [od.originDomain, od.destinationDomain, od.destinationSettler];
  }

  lemma NothingPadsToZero() returns (n: nat)
    ensures n == 0 && LeftPadded([], 32) == Word(n)
  {
    n := 0;
    LeftPaddedIsLowBytes(n, 32);
  }

  method EncodeRawDeadline(od: StarknetOrderData, dst: seq<byte>, ghost ns: seq<nat>) returns (raw: seq<byte>)
    requires dst == Flatten(WordsOf(ns))
    ensures raw == Flatten(WordsOf(ns + [Meaning(od).fillDeadline]))
  {
    var fill32 := Low32(od.fillDeadline);
    raw := WriteUint32(dst, fill32, ns);
  }

  /** The offset of the data and its length, a word padded from nothing. */
  method EncodeRawNoData(dst: seq<byte>, ghost ns: seq<nat>) returns (raw: seq<byte>)
    requires dst == Flatten(WordsOf(ns))
    ensures raw == Flatten(WordsOf(ns + [DATA_OFFSET] + [0]))
  {
    raw := WriteUint32(dst, DATA_OFFSET, ns);
    ghost var zero := NothingPadsToZero();
    raw := WriteWord(raw, [], ns + [DATA_OFFSET], zero);
  }

  /** The Cairo `Bytes` felts of a byte string: size, number of words, words. */
  function CairoBytes(raw: seq<byte>): seq<felt> {
    [BigIntToFelt(|raw|), BigIntToFelt(WordCount(|raw|))] + PackWords(raw)
  }

  lemma WholeChunk(raw: seq<byte>, i: nat)
    requires i + 16 <= |raw|
    ensures i + 16 <= |Padded(raw)| && Padded(raw)[i..i + 16] == raw[i..i + 16]
  {
  }

  /** The packing loop inside encodeStarknetOrderData, a copy of BytesToU128Felts. */
  method PackRaw(raw: seq<byte>) returns (words: seq<felt>)
    ensures words == PackWords(raw)
  {
    words := [];
    var i := 0;
    while i < |raw|
      invariant i == 16 * |words| && |words| <= WordCount(|raw|)
      invariant words == PackWords(raw)[..|words|]
    {
      var end := i + 16;
      var chunk;
      if end > |raw| {
        chunk := CopyChunk(raw, i);
      } else {
        chunk := raw[i..end];
        WholeChunk(raw, i);
      }
      WordOfChunk(raw, |words|, chunk);
      PrefixSnoc(PackWords(raw), |words|);
      words := words + [BigIntToFelt(FromBytes(chunk))];
      i := end;
    }
  }

  /** encodeStarknetOrderData: the raw bytes in 16-byte words, behind their size and count. */
  method EncodeStarknetOrderData(od: StarknetOrderData) returns (bytesStruct: seq<felt>)
    ensures bytesStruct == CairoBytes(RawBytes(od))
    ensures |bytesStruct| == 30 && bytesStruct[0] == 448 && bytesStruct[1] == 28
    ensures UnpackWords(bytesStruct[0], bytesStruct[2..]).Some?
    ensures var order := DecodeOrder(UnpackWords(bytesStruct[0], bytesStruct[2..]).value);
            && order.Some? && order.value.sender == od.sender && order.value.recipient == od.recipient
            && order.value.inputToken == od.inputToken && order.value.outputToken == od.outputToken
            && order.value.amountIn == Magnitude(od.amountIn) % TWO256
            && order.value.amountOut == Magnitude(od.amountOut) % TWO256
            && order.value.senderNonce == od.senderNonce && order.value.originDomain == od.originDomain
            && order.value.destinationDomain == od.destinationDomain
            && order.value.destinationSettler == od.destinationSettler
            && order.value.fillDeadline == od.fillDeadline % TWO32 && order.value.data == []
  {
    var raw := EncodeRaw(od);
    RawBytesAreWords(od);
    var words := PackRaw(raw);
    bytesStruct := [BigIntToFelt(|raw|), BigIntToFelt(|words|)] + words;
    EncoderWritesTheOrder(od);
    MeaningIs(od);
  }

  /** The encoder's bytes, word by word: which number stands where. */
  lemma RawLayout(od: StarknetOrderData)
    ensures |RawBytes(od)| == 448
    ensures var raw := RawBytes(od);
            && FromBytes(raw[0..32]) == 32 && FromBytes(raw[32..64]) == od.sender
            && FromBytes(raw[64..96]) == od.recipient && FromBytes(raw[96..128]) == od.inputToken
            && FromBytes(raw[128..160]) == od.outputToken
            && FromBytes(raw[160..192]) == Magnitude(od.amountIn) % TWO256
            && FromBytes(raw[192..224]) == Magnitude(od.amountOut) % TWO256
            && FromBytes(raw[224..256]) == od.senderNonce
    ensures var raw := RawBytes(od);
            && FromBytes(raw[256..288]) == od.originDomain && FromBytes(raw[288..320]) == od.destinationDomain
            && FromBytes(raw[320..352]) == od.destinationSettler
            && FromBytes(raw[352..384]) == od.fillDeadline % TWO32
            && FromBytes(raw[384..416]) == 384 && FromBytes(raw[416..448]) == 0
  {
    RawBytesAreWords(od);
    MeaningIs(od);
    var ns := [32] + Meaning(od).Static() + [384, 0];
    WordsReadBack(RawBytes(od), ns);
    TwelveFields(RawBytes(od), ns);
  }

  lemma WordsReadBack(raw: seq<byte>, ns: seq<nat>)
    requires raw == Flatten(WordsOf(ns)) && forall k :: 0 <= k < |ns| ==> ns[k] < TWO256
    ensures forall k: nat :: k < |ns| ==> NumberAt(raw, 32 * k) == Some(ns[k])
  {
    assert raw + [] == raw;
    forall k: nat | k < |ns|
      ensures NumberAt(raw, 32 * k) == Some(ns[k])
    {
      NumberAtWord(ns, [], k);
    }
  }

  lemma TwelveFields(raw: seq<byte>, ns: seq<nat>)
    requires |ns| == 14 && |raw| == 448 && forall k: nat :: k < 14 ==> NumberAt(raw, 32 * k) == Some(ns[k])
    ensures FromBytes(raw[0..32]) == ns[0] && FromBytes(raw[32..64]) == ns[1] && FromBytes(raw[64..96]) == ns[2]
    ensures FromBytes(raw[96..128]) == ns[3] && FromBytes(raw[128..160]) == ns[4] && FromBytes(raw[160..192]) == ns[5]
    ensures FromBytes(raw[192..224]) == ns[6] && FromBytes(raw[224..256]) == ns[7]
    ensures FromBytes(raw[256..288]) == ns[8] && FromBytes(raw[288..320]) == ns[9]
    ensures FromBytes(raw[320..352]) == ns[10] && FromBytes(raw[352..384]) == ns[11]
    ensures FromBytes(raw[384..416]) == ns[12] && FromBytes(raw[416..448]) == ns[13]
  {
    assert NumberAt(raw, 32 * 0) == Some(ns[0]) && NumberAt(raw, 32 * 1) == Some(ns[1]);
    assert NumberAt(raw, 32 * 2) == Some(ns[2]) && NumberAt(raw, 32 * 3) == Some(ns[3]);
    assert NumberAt(raw, 32 * 4) == Some(ns[4]) && NumberAt(raw, 32 * 5) == Some(ns[5]);
    assert NumberAt(raw, 32 * 6) == Some(ns[6]) && NumberAt(raw, 32 * 7) == Some(ns[7]);
    assert NumberAt(raw, 32 * 8) == Some(ns[8]) && NumberAt(raw, 32 * 9) == Some(ns[9]);
    assert NumberAt(raw, 32 * 10) == Some(ns[10]) && NumberAt(raw, 32 * 11) == Some(ns[11]);
    assert NumberAt(raw, 32 * 12) == Some(ns[12]) && NumberAt(raw, 32 * 13) == Some(ns[13]);
  }

  /** What a Solidity contract decodes from the encoder's bytes: the twelve fields, for every order. */
  lemma EncoderWritesTheOrder(od: StarknetOrderData)
    ensures |RawBytes(od)| == 448 && DecodeOrder(RawBytes(od)) == Some(Meaning(od))
    ensures UnpackWords(448, CairoBytes(RawBytes(od))[2..]) == Some(RawBytes(od))
  {
    RawBytesAreWords(od);
    DecodeEncoded(Meaning(od));
    PackingIsLossless(RawBytes(od));
    assert CairoBytes(RawBytes(od))[2..] == PackWords(RawBytes(od));
  }

  /** The ABI encoding, by the specification, of the order the encoder writes. */
  function RawBytes(od: StarknetOrderData): seq<byte> {
    Enc(Tuple([Meaning(od).AbiValue()]))
  }

  lemma NoPadding(o: SolidityOrder)
    requires o.data == []
    ensures DataPadding(o) == []
  {
  }

  lemma NothingBehind(b: seq<byte>, c: seq<byte>, d: seq<byte>)
    requires c == [] && d == []
    ensures b + (c + d) == b
  {
  }

  lemma RawBytesAreWords(od: StarknetOrderData)
    ensures RawBytes(od) == Flatten(EncodedWords(Meaning(od))) && |RawBytes(od)| == 448
  {
    var o := Meaning(od);
    EncodingIsWords(o);
    NoPadding(o);
    NothingBehind(Flatten(EncodedWords(o)), o.data, DataPadding(o));
    FlattenLength(EncodedWords(o), 32);
  }
}
