/** Events of other shapes than one output of each kind: what the decoder, which looks for the origin data
    at fixed indices, makes of them. */
module WireShapes {
  import opened Bytes
  import opened StarknetUtil
  import opened Integers
  import opened Wrappers
  import opened OrderEncoder
  import opened FeltDecoder
  import opened WireRoundTrip

  // ------------------------------------------------------------- which felts spell an encoded order

  predicate WordFits(data: seq<felt>, raw: seq<byte>, t: nat)
    requires 23 + t < |data| && t < WordCount(|raw|)
  {
    Low128(data[23 + t]) == PackWords(raw)[t]
  }

  /** The felts 25 to 46 hold the words 2 to 23, up to the bits a u128 has no room for. */
  predicate Spells(data: seq<felt>, raw: seq<byte>) {
    |data| >= 47 && |raw| == 448 && forall t :: 2 <= t < 24 ==> WordFits(data, raw, t)
  }

  /** 448 bytes with the words 0x20, 0x180 and 0 in the places the decoder makes up. */
  predicate HasConstants(raw: seq<byte>) {
    |raw| == 448 && raw[..32] == Word(32) && raw[384..416] == Word(DATA_OFFSET) && raw[416..448] == Word(0)
  }

  function WordOf(raw: seq<byte>, k: nat): seq<byte>
    requires 32 * k + 32 <= |raw|
  {
    raw[32 * k..32 * k + 32]
  }

  lemma WordSpelled(f: felt, raw: seq<byte>, t: nat)
    requires |raw| == 448 && t < 28
    ensures U128Bytes(f) == raw[16 * t..16 * t + 16] <==> Low128(f) == PackWords(raw)[t]
  {
    assert Padded(raw) == raw;
    PackedWordBytes(raw, t);
    WordSizes();
    FromToBytes(Low128(f), 16);
    FromToBytes(PackWords(raw)[t], 16);
    Remainder(0, TWO128, Low128(f));
    Remainder(0, TWO128, PackWords(raw)[t]);
  }

  lemma HalvesEqual(a: seq<byte>, b: seq<byte>, c: seq<byte>, d: seq<byte>)
    requires |a| == |c|
    ensures a + b == c + d <==> a == c && b == d
  {
    assert (a + b)[..|a|] == a && (a + b)[|a|..] == b && (c + d)[..|a|] == c && (c + d)[|a|..] == d;
  }

  lemma FieldSpelled(data: seq<felt>, raw: seq<byte>, j: nat)
    requires |raw| == 448 && j < 14 && 24 + 2 * j < |data|
    ensures FieldAt(data, j) == WordOf(raw, j) <==> WordFits(data, raw, 2 * j) && WordFits(data, raw, 2 * j + 1)
  {
    var hi, lo := data[23 + 2 * j], data[24 + 2 * j];
    var a, b := raw[16 * (2 * j)..16 * (2 * j) + 16], raw[16 * (2 * j + 1)..16 * (2 * j + 1) + 16];
    WordSpelled(hi, raw, 2 * j);
    WordSpelled(lo, raw, 2 * j + 1);
    SliceHalves(raw, j);
    assert FieldAt(data, j) == U128Bytes(hi) + U128Bytes(lo) && WordOf(raw, j) == a + b;
    HalvesEqual(U128Bytes(hi), U128Bytes(lo), a, b);
  }

  /** The fields are the words 1 to 11. */
  predicate FieldsFit(fields: seq<seq<byte>>, raw: seq<byte>)
    requires |fields| == 11 && |raw| == 448
  {
    forall k :: 0 <= k < 11 ==> fields[k] == WordOf(raw, 1 + k)
  }

  lemma SpelledIfFits(data: seq<felt>, raw: seq<byte>)
    requires |data| >= 47 && |raw| == 448 && FieldsFit(FieldsAt(data, 1, 11), raw)
    ensures Spells(data, raw)
  {
    forall t | 2 <= t < 24
      ensures WordFits(data, raw, t)
    {
      var k := t / 2 - 1;
      assert FieldsAt(data, 1, 11)[k] == FieldAt(data, 1 + k);
      FieldSpelled(data, raw, 1 + k);
    }
  }

  lemma FitsIfSpelled(data: seq<felt>, raw: seq<byte>)
    requires Spells(data, raw)
    ensures FieldsFit(FieldsAt(data, 1, 11), raw)
  {
    forall k | 0 <= k < 11
      ensures FieldsAt(data, 1, 11)[k] == WordOf(raw, 1 + k)
    {
      FieldSpelled(data, raw, 1 + k);
      assert WordFits(data, raw, 2 * (1 + k)) && WordFits(data, raw, 2 * (1 + k) + 1);
    }
  }

  lemma FieldsFlattenTo(fields: seq<seq<byte>>, raw: seq<byte>)
    requires |raw| == 448 && |fields| == 11 && forall k :: 0 <= k < 11 ==> |fields[k]| == 32
    ensures |Flatten(fields)| == 352
    ensures Flatten(fields) == raw[32..384] <==> FieldsFit(fields, raw)
  {
    FlattenLength(fields, 32);
    if Flatten(fields) == raw[32..384] {
      forall k | 0 <= k < 11
        ensures fields[k] == WordOf(raw, 1 + k)
      {
        FlattenAt(fields, 32, k);
        SliceOfSlice(raw, k);
      }
    } else if FieldsFit(fields, raw) {
      FlattenSlices(raw, fields, 1);
    }
  }

  lemma SliceOfSlice(raw: seq<byte>, k: nat)
    requires |raw| == 448 && k < 11
    ensures raw[32..384][32 * k..32 * k + 32] == WordOf(raw, 1 + k)
  {
    SliceOf(raw, 32, 384, 32 * k, 32 * k + 32);
  }

  lemma FlattenOne(a: seq<byte>)
    ensures Flatten([a]) == a
  {
    assert [a][..0] == [] && [] + a == a;
  }

  lemma FlattenBetween(a: seq<byte>, fields: seq<seq<byte>>, c: seq<byte>, d: seq<byte>)
    ensures Flatten([a] + fields + [c, d]) == a + Flatten(fields) + (c + d)
  {
    FlattenConcat([a] + fields, [c, d]);
    FlattenConcat([a], fields);
    FlattenTwo(c, d);
    FlattenOne(a);
    assert Flatten([a] + fields) == a + Flatten(fields) && Flatten([c, d]) == c + d;
  }

  /** What parseOriginData returns, in three pieces. */
  lemma OriginDataPieces(data: seq<felt>)
    requires |data| > 22 && FieldCount(data) >= 12
    ensures |data| >= 47
    ensures OriginDataAt(data) == Some(Word(32) + Flatten(FieldsAt(data, 1, 11)) + (Word(DATA_OFFSET) + Word(0)))
  {
    FlattenBetween(Word(32), FieldsAt(data, 1, 11), Word(DATA_OFFSET), Word(0));
  }

  lemma MiddleIs(a: seq<byte>, x: seq<byte>, c: seq<byte>, d: seq<byte>, raw: seq<byte>)
    requires |x| == 352 && |a| == 32 && |c| == 32 && |d| == 32
    requires |raw| == 448 && raw[..32] == a && raw[384..416] == c && raw[416..448] == d
    ensures a + x + (c + d) == raw <==> x == raw[32..384]
  {
    SplitAt(raw);
    assert (a + x + (c + d))[32..384] == x;
  }

  /** Of whatever felts, parseOriginData makes an encoded order exactly if it finds twelve fields and the felts
      at its fixed indices spell that order's words. */
  lemma OriginDataIsIff(data: seq<felt>, raw: seq<byte>)
    requires HasConstants(raw)
    ensures OriginDataAt(data) == Some(raw) <==> |data| > 22 && FieldCount(data) >= 12 && Spells(data, raw)
  {
    if |data| > 22 && FieldCount(data) >= 12 {
      OriginDataPieces(data);
      var fields := FieldsAt(data, 1, 11);
      FieldsFlattenTo(fields, raw);
      MiddleIs(Word(32), Flatten(fields), Word(DATA_OFFSET), Word(0), raw);
      if FieldsFit(fields, raw) {
        SpelledIfFits(data, raw);
      } else if Spells(data, raw) {
        FitsIfSpelled(data, raw);
      }
    }
  }

  /** There are twelve fields exactly if the word count says so and the event is long enough. */
  lemma FieldsSufficeIff(data: seq<felt>)
    ensures |data| > 22 && FieldCount(data) >= 12 <==> |data| >= 47 && data[22] % 0x1_0000_0000_0000_0000 >= 23
  {
    if |data| > 22 {
      LowBits(data[22]);
    }
  }

  /** What the decoder rebuilds, number by number: the felts from index 25 on between three constants. */
  lemma OriginDataNumbers(data: seq<felt>)
    ensures OriginDataAt(data).Some? <==> |data| >= 47 && data[22] % 0x1_0000_0000_0000_0000 >= 23
    ensures OriginDataAt(data).Some? ==>
              var raw := OriginDataAt(data).value;
              && |raw| == 448 && FromBytes(raw[..32]) == 32
              && FromBytes(raw[384..416]) == 384 && FromBytes(raw[416..448]) == 0
              && forall t :: 2 <= t < 24 ==>
                   FromBytes(raw[16 * t..16 * t + 16]) == data[23 + t] % 0x1_00000000_00000000_00000000_00000000
  {
    FieldsSufficeIff(data);
    if OriginDataAt(data).Some? {
      OriginDataPieces(data);
      RebuiltNumbers(data, Flatten(FieldsAt(data, 1, 11)), OriginDataAt(data).value);
    }
  }

  lemma RebuiltNumbers(data: seq<felt>, x: seq<byte>, raw: seq<byte>)
    requires |data| >= 47 && x == Flatten(FieldsAt(data, 1, 11))
    requires raw == Word(32) + x + (Word(DATA_OFFSET) + Word(0))
    ensures |raw| == 448 && FromBytes(raw[..32]) == 32
    ensures FromBytes(raw[384..416]) == 384 && FromBytes(raw[416..448]) == 0
    ensures forall t :: 2 <= t < 24 ==>
              FromBytes(raw[16 * t..16 * t + 16]) == data[23 + t] % 0x1_00000000_00000000_00000000_00000000
  {
    FieldsFlattenLength(FieldsAt(data, 1, 11));
    MiddleParts(Word(32), x, Word(DATA_OFFSET), Word(0), raw);
    WordNumbers();
    forall t | 2 <= t < 24
      ensures FromBytes(raw[16 * t..16 * t + 16]) == data[23 + t] % 0x1_00000000_00000000_00000000_00000000
    {
      HalfOfField(data, x, t);
      SliceOfMiddle(raw, x, t);
    }
  }

  lemma SliceOfMiddle(raw: seq<byte>, x: seq<byte>, t: nat)
    requires |raw| == 448 && raw[32..384] == x && 2 <= t < 24
    ensures raw[16 * t..16 * t + 16] == x[16 * t - 32..16 * t - 16]
  {
    SliceOf(raw, 32, 384, 16 * t - 32, 16 * t - 16);
  }

  lemma FieldsFlattenLength(fields: seq<seq<byte>>)
    requires |fields| == 11 && forall k :: 0 <= k < 11 ==> |fields[k]| == 32
    ensures |Flatten(fields)| == 352
  {
    FlattenLength(fields, 32);
  }

  lemma MiddleParts(a: seq<byte>, x: seq<byte>, c: seq<byte>, d: seq<byte>, raw: seq<byte>)
    requires |x| == 352 && |a| == 32 && |c| == 32 && |d| == 32 && raw == a + x + (c + d)
    ensures |raw| == 448 && raw[..32] == a && raw[32..384] == x && raw[384..416] == c && raw[416..448] == d
  {
  }

  lemma WordNumbers()
    ensures FromBytes(Word(32)) == 32 && FromBytes(Word(DATA_OFFSET)) == 384 && FromBytes(Word(0)) == 0
  {
    WordNumber(32);
    WordNumber(384);
    WordNumber(0);
  }

  lemma WordNumber(n: nat)
    requires n < TWO256
    ensures FromBytes(Word(n)) == n
  {
    WordSizes();
    FromToBytesSmall(n, 32);
  }

  /** A felt's place among the fields laid end to end. */
  lemma HalfOfField(data: seq<felt>, all: seq<byte>, t: nat)
    requires |data| >= 47 && 2 <= t < 24 && all == Flatten(FieldsAt(data, 1, 11)) && |all| == 352
    ensures FromBytes(all[16 * t - 32..16 * t - 16]) == data[23 + t] % 0x1_00000000_00000000_00000000_00000000
  {
    var k := t / 2 - 1;
    TwoHalves(data, all, k);
    LowBytes(data[23 + t]);
    if t % 2 == 0 {
      assert t == 2 * k + 2;
    } else {
      assert t == 2 * k + 3;
    }
  }

  lemma TwoHalves(data: seq<felt>, all: seq<byte>, k: nat)
    requires |data| >= 47 && k < 11 && all == Flatten(FieldsAt(data, 1, 11)) && |all| == 352
    ensures all[32 * k..32 * k + 16] == U128Bytes(data[25 + 2 * k])
    ensures all[32 * k + 16..32 * k + 32] == U128Bytes(data[26 + 2 * k])
  {
    var fields := FieldsAt(data, 1, 11);
    FlattenAt(fields, 32, k);
    assert fields[k] == FieldAt(data, 1 + k);
    HalvesOfSlice(all, 32 * k, U128Bytes(data[25 + 2 * k]), U128Bytes(data[26 + 2 * k]));
  }

  lemma HalvesOfSlice(all: seq<byte>, at: nat, a: seq<byte>, b: seq<byte>)
    requires at + 32 <= |all| && |a| == 16 && |b| == 16 && all[at..at + 32] == a + b
    ensures all[at..at + 16] == a && all[at + 16..at + 32] == b
  {
    SliceOf(all, at, at + 32, 0, 16);
    SliceOf(all, at, at + 32, 16, 32);
  }

  lemma LowBytes(f: felt)
    ensures FromBytes(U128Bytes(f)) == f % 0x1_00000000_00000000_00000000_00000000
  {
    WordSizes();
    FromToBytesSmall(Low128(f), 16);
  }

  // ------------------------------------------------------------- events with the encoder's bytes

  lemma HalvesInPacking(raw: seq<byte>, k: nat, n: nat)
    requires |raw| == 448 && k < 14 && n < TWO256 && raw[32 * k..32 * k + 32] == Word(n)
    ensures PackWords(raw)[2 * k] == High128(n) && PackWords(raw)[2 * k + 1] == Low128(n)
  {
    var b := raw[32 * k..32 * k + 32];
    assert Padded(raw) == raw;
    SliceOf(raw, 32 * k, 32 * k + 32, 0, 16);
    SliceOf(raw, 32 * k, 32 * k + 32, 16, 32);
    assert b[..16] == raw[16 * (2 * k)..16 * (2 * k) + 16] && b[16..32] == raw[16 * (2 * k + 1)..16 * (2 * k + 1) + 16];
    WordNumber(n);
    HalvesOfWord(b);
  }

  /** What is known of an encoded order's words: the first offset, and that domains have small numbers. */
  lemma KnownWords(od: StarknetOrderData)
    ensures var raw := RawBytes(od);
            && HasConstants(raw) && PackWords(raw)[1] == 32 && PackWords(raw)[16] == 0 && PackWords(raw)[18] == 0
  {
    EncodedWordsInPlace(od);
    RawBytesAreWords(od);
    var raw, ws := RawBytes(od), EncodedWords(Meaning(od));
    FlattenAt(ws, 32, 8);
    FlattenAt(ws, 32, 9);
    assert ws[8] == Word(od.originDomain) && ws[9] == Word(od.destinationDomain);
    HalvesInPacking(raw, 0, 32);
    HalvesInPacking(raw, 8, od.originDomain);
    HalvesInPacking(raw, 9, od.destinationDomain);
  }

  /** An event that carries one instruction with an encoded order, and how many outputs it has. */
  predicate CarriesOrder(w: WireOrder, od: StarknetOrderData) {
    w.Serialisable() && |w.instructions| == 1 && w.instructions[0].originData == RawBytes(od)
  }

  function Outputs(w: WireOrder): nat {
    |w.maxSpent| + |w.minReceived|
  }

  /** Where it lies: size, word count, and the words behind them. */
  ghost predicate OrderLiesAt(data: seq<felt>, raw: seq<byte>, j: nat) {
    && |raw| == 448 && |data| == j + 33 && data[j + 3] == 448 && data[j + 4] == 28
    && forall t :: 0 <= t < 28 ==> data[j + 5 + t] == PackWords(raw)[t]
  }

  lemma OrderLies(w: WireOrder, od: StarknetOrderData)
    requires CarriesOrder(w, od)
    ensures OrderLiesAt(Serialise(w), RawBytes(od), 8 + 5 * Outputs(w))
  {
    var data := Serialise(w);
    var i, j := EventLayout(w);
    SingleInstructionLayout(data, w, i, j);
    EncodedWordsInPlace(od);
    forall t | 0 <= t < 28
      ensures data[j + 5 + t] == PackWords(RawBytes(od))[t]
    {
      assert data[j + 5 + t] == data[j + 5..][t];
    }
  }

  /** With too few outputs the words end before the twelfth field. */
  lemma TooShort(data: seq<felt>, raw: seq<byte>, j: nat)
    requires OrderLiesAt(data, raw, j) && j <= 13
    ensures |data| < 47 && OriginDataAt(data) == None
  {
  }

  lemma TwoOutputsSpell(data: seq<felt>, raw: seq<byte>)
    requires OrderLiesAt(data, raw, 18)
    ensures FieldCount(data) >= 12 && Spells(data, raw)
  {
    forall t | 2 <= t < 24
      ensures WordFits(data, raw, t)
    {
      assert data[18 + 5 + t] == PackWords(raw)[t];
    }
  }

  /** A word of an order that is spelled by its own words, lying d felts too far back, equals the word d before
      it. */
  lemma Echo(data: seq<felt>, raw: seq<byte>, d: nat, t: nat)
    requires OrderLiesAt(data, raw, 18 + d) && Spells(data, raw) && 2 <= t < 24 && d <= t
    ensures PackWords(raw)[t] == PackWords(raw)[t - d]
  {
    assert data[18 + d + 5 + (t - d)] == PackWords(raw)[t - d];
    assert WordFits(data, raw, t);
  }

  /** The word that the size takes the place of. */
  lemma SizeAsWord(data: seq<felt>, raw: seq<byte>, d: nat)
    requires OrderLiesAt(data, raw, 18 + d) && Spells(data, raw) && 4 <= d < 26
    ensures PackWords(raw)[d - 2] == 448
  {
    assert WordFits(data, raw, d - 2);
  }

  /** With three to six outputs, the upper half of a domain would have to be the size or the first offset. */
  lemma TooFarBack(data: seq<felt>, raw: seq<byte>, d: nat)
    requires OrderLiesAt(data, raw, 18 + d) && Spells(data, raw) && (d == 5 || d == 10 || d == 15 || d == 20)
    ensures if d == 15 then PackWords(raw)[16] == PackWords(raw)[1] else PackWords(raw)[18] == 448
  {
    if d == 15 {
      Echo(data, raw, d, 16);
    } else {
      SizeAsWord(data, raw, d);
      if d == 5 {
        Echo(data, raw, d, 8);
        Echo(data, raw, d, 13);
        Echo(data, raw, d, 18);
      } else if d == 10 {
        Echo(data, raw, d, 18);
      }
    }
  }

  /** What the solver sees of such an event. */
  lemma OrderSeen(nets: seq<Network>, w: WireOrder)
    requires w.Serialisable() && |w.instructions| == 1
    ensures var origin := OriginDataAt(Serialise(w));
            var f := w.instructions[0];
            OrderAt(nets, Serialise(w)) ==
              if origin.None? then None
              else
                var seen := FillInstruction(ChainOf(nets, f.domain), Address(f.settler), origin.value);
                Some(SeenOrder(nets, w, [seen]))
  {
    var data := Serialise(w);
    var i, j := EventLayout(w);
    OrderAtEvent(nets, data, w, i, j);
    SingleInstructionLayout(data, w, i, j);
    OneInstruction(nets, data, j);
    assert U32(w.instructions[0].domain) == w.instructions[0].domain;
  }

  /** The event is decoded, and its instruction carries the bytes that were put into it. */
  predicate DecodedRight(nets: seq<Network>, w: WireOrder)
    requires w.Serialisable() && |w.instructions| == 1
  {
    match OrderAt(nets, Serialise(w))
    case None => false
    case Some(order) =>
      |order.fillInstructions| == 1 && order.fillInstructions[0].originData == w.instructions[0].originData
  }

  lemma DecodedRightIff(nets: seq<Network>, w: WireOrder)
    requires w.Serialisable() && |w.instructions| == 1
    ensures DecodedRight(nets, w) <==> OriginDataAt(Serialise(w)) == Some(w.instructions[0].originData)
  {
    OrderSeen(nets, w);
  }

  /** With less than two outputs the decoder panics. */
  lemma FewOutputsPanic(nets: seq<Network>, w: WireOrder, od: StarknetOrderData)
    requires CarriesOrder(w, od) && Outputs(w) < 2
    ensures OrderAt(nets, Serialise(w)) == None
  {
    OrderLies(w, od);
    TooShort(Serialise(w), RawBytes(od), 8 + 5 * Outputs(w));
    OrderSeen(nets, w);
  }

  lemma UpToSixOutputs(data: seq<felt>, raw: seq<byte>, outputs: nat)
    requires OrderLiesAt(data, raw, 8 + 5 * outputs) && outputs <= 6
    requires PackWords(raw)[1] == 32 && PackWords(raw)[16] == 0 && PackWords(raw)[18] == 0
    ensures |data| > 22 && FieldCount(data) >= 12 && Spells(data, raw) <==> outputs == 2
  {
    if outputs < 2 {
      TooShort(data, raw, 8 + 5 * outputs);
    } else if outputs == 2 {
      TwoOutputsSpell(data, raw);
    } else if Spells(data, raw) {
      TooFarBack(data, raw, 5 * (outputs - 2));
    }
  }

  /** An event with the encoder's bytes and up to six outputs is decoded right exactly if there are two. */
  lemma DecodedRightIffTwoOutputs(nets: seq<Network>, w: WireOrder, od: StarknetOrderData)
    requires CarriesOrder(w, od) && Outputs(w) <= 6
    ensures DecodedRight(nets, w) <==> Outputs(w) == 2
  {
    DecodedRightIffSpelled(nets, w, od);
    OrderLies(w, od);
    KnownWords(od);
    UpToSixOutputs(Serialise(w), RawBytes(od), Outputs(w));
  }

  /** With more outputs, whose felts then are read as fields, exactly if those spell the order. */
  lemma DecodedRightIffSpelled(nets: seq<Network>, w: WireOrder, od: StarknetOrderData)
    requires CarriesOrder(w, od)
    ensures var data := Serialise(w);
            DecodedRight(nets, w) <==> |data| > 22 && FieldCount(data) >= 12 && Spells(data, RawBytes(od))
  {
    DecodedRightIff(nets, w);
    KnownWords(od);
    OriginDataIsIff(Serialise(w), RawBytes(od));
  }

  /** One output spent and two received: the word count is read from the last output's domain, and if that is
      large enough the event is decoded, into other bytes than were sent. */
  lemma ThreeOutputsAreMisread(nets: seq<Network>, w: WireOrder, od: StarknetOrderData)
    requires CarriesOrder(w, od) && |w.maxSpent| == 1 && |w.minReceived| == 2
    ensures !DecodedRight(nets, w)
    ensures OrderAt(nets, Serialise(w)).Some? <==> w.minReceived[1].domain >= 23
  {
    DecodedRightIffTwoOutputs(nets, w, od);
    OrderSeen(nets, w);
    OrderLies(w, od);
    LastDomain(w);
  }

  lemma LastDomain(w: WireOrder)
    requires w.Serialisable() && |w.maxSpent| == 1 && |w.minReceived| == 2
    ensures |Serialise(w)| > 22 && Serialise(w)[22] == w.minReceived[1].domain
  {
    var data := Serialise(w);
    var i, j := EventLayout(w);
    var os := SerialiseOutputs(w.minReceived);
    assert os == SerialiseOutputs(w.minReceived[..1]) + SerialiseOutput(w.minReceived[1]);
    assert os[9] == SerialiseOutput(w.minReceived[1])[4];
    assert i == 12 && data[i + 1 + 9] == os[9];
  }

  // ------------------------------------------------------------- seven outputs

  /** Where the fields of an encoded order are among its words. */
  lemma FieldWords(od: StarknetOrderData, k: nat)
    requires 1 <= k <= 11
    ensures |RawBytes(od)| == 448 && Meaning(od).Static()[k - 1] < TWO256
    ensures PackWords(RawBytes(od))[2 * k] == High128(Meaning(od).Static()[k - 1])
    ensures PackWords(RawBytes(od))[2 * k + 1] == Low128(Meaning(od).Static()[k - 1])
  {
    RawBytesAreWords(od);
    var ws := EncodedWords(Meaning(od));
    FlattenAt(ws, 32, k);
    assert ws[k] == Word(Meaning(od).Static()[k - 1]);
    HalvesInPacking(RawBytes(od), k, Meaning(od).Static()[k - 1]);
  }

  lemma {:induction false} OutputCell(os: seq<WireOutput>, i: nat, k: nat)
    requires i < |os| && k < 5
    ensures SerialiseOutputs(os)[5 * i + k] == SerialiseOutput(os[i])[k]
  {
    if i < |os| - 1 {
      OutputCell(os[..|os| - 1], i, k);
    }
  }

  /** A settler whose lower half is zero. */
  function OddSettler(): felt {
    WordSizes();
    0x1_00000000_00000000_00000000_00000000
  }

  /** An order of zeros but for the settler and the deadline. */
  function OddOrder(): StarknetOrderData {
    StarknetOrderData(0, 0, 0, 0, None, None, 0, 0, 0, OddSettler(), 0, 448, [])
  }

  /** Seven outputs of zeros but for the domain that is read as word count. */
  function OddOutputs(): seq<WireOutput> {
    seq(7, i => WireOutput(0, 0, 0, 0, if i == 2 then 28 else 0))
  }

  function OddEvent(): WireOrder {
    WireOrder(0, 0, 0, 0, 0, 0, [], OddOutputs(), [WireInstruction(0, OddSettler(), RawBytes(OddOrder()))])
  }

  lemma OddCells(c: nat)
    requires c < 35
    ensures |SerialiseOutputs(OddOutputs())| == 35
    ensures SerialiseOutputs(OddOutputs())[c] == if c == 14 then 28 else 0
  {
    var i, k := c / 5, c % 5;
    OutputCell(OddOutputs(), i, k);
    assert c == 5 * i + k;
  }

  lemma OddLayout()
    ensures CarriesOrder(OddEvent(), OddOrder()) && Outputs(OddEvent()) == 7
    ensures var data := Serialise(OddEvent());
            && |data| == 76 && data[22] == 28 && (forall x :: 23 <= x < 43 ==> data[x] == 0)
            && data[43] == 1 && data[44] == 0 && data[45] == OddSettler() && data[46] == 448
  {
    var w, od := OddEvent(), OddOrder();
    EncodedWordsInPlace(od);
    assert CarriesOrder(w, od);
    var data := Serialise(w);
    var i, j := EventLayout(w);
    SingleInstructionLayout(data, w, i, j);
    OddCellsAt(data, i, j, w);
  }

  lemma OddCellsAt(data: seq<felt>, i: nat, j: nat, w: WireOrder)
    requires w == OddEvent() && LiesAt(data, w, i, j)
    ensures i == 7 && |data| >= 43 && data[22] == 28 && forall x :: 23 <= x < 43 ==> data[x] == 0
  {
    var os := SerialiseOutputs(w.minReceived);
    forall x | 22 <= x < 43
      ensures x < |data| && data[x] == if x == 22 then 28 else 0
    {
      OddCells(x - 8);
      assert data[i + 1 + (x - 8)] == os[x - 8];
    }
  }

  lemma OddWords(t: nat)
    requires 2 <= t < 24
    ensures |RawBytes(OddOrder())| == 448
    ensures PackWords(RawBytes(OddOrder()))[t] == if t == 20 then 1 else if t == 23 then 448 else 0
  {
    var k := t / 2;
    FieldWords(OddOrder(), k);
    OddField(k);
    if t % 2 == 0 {
      assert t == 2 * k;
    } else {
      assert t == 2 * k + 1;
    }
  }

  lemma OddField(k: nat)
    requires 1 <= k <= 11
    ensures var n := Meaning(OddOrder()).Static()[k - 1];
            && High128(n) == (if k == 10 then 1 else 0) && Low128(n) == (if k == 11 then 448 else 0)
  {
  }

  lemma OddSpells(data: seq<felt>, raw: seq<byte>)
    requires |data| == 76 && data[22] == 28 && (forall x :: 23 <= x < 43 ==> data[x] == 0)
    requires data[43] == 1 && data[44] == 0 && data[45] == OddSettler() && data[46] == 448 && |raw| == 448
    requires forall t :: 2 <= t < 24 ==> PackWords(raw)[t] == if t == 20 then 1 else if t == 23 then 448 else 0
    ensures FieldCount(data) >= 12 && Spells(data, raw)
  {
    forall t | 2 <= t < 24
      ensures WordFits(data, raw, t)
    {
      assert data[23 + t] == if t == 20 then 1 else if t == 22 then OddSettler() else if t == 23 then 448 else 0;
    }
  }

  /** Six is where it stops: an event with seven outputs, whose instruction count, domain, settler and size are
      read as the order's last two fields, is decoded right. */
  lemma SevenOutputsCanSpell(nets: seq<Network>)
    ensures CarriesOrder(OddEvent(), OddOrder()) && Outputs(OddEvent()) == 7 && DecodedRight(nets, OddEvent())
  {
    OddLayout();
    var data, raw := Serialise(OddEvent()), RawBytes(OddOrder());
    OddWords(2);
    forall t | 2 <= t < 24
      ensures PackWords(raw)[t] == if t == 20 then 1 else if t == 23 then 448 else 0
    {
      OddWords(t);
    }
    OddSpells(data, raw);
    DecodedRightIffSpelled(nets, OddEvent(), OddOrder());
  }
}
