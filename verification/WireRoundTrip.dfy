/** Printer and parser of the wire format undo each other: the Cairo serialisation of an Open event
    against the solver's decoder, with the order encoder's bytes inside. */
module WireRoundTrip {
  import opened Bytes
  import opened StarknetUtil
  import opened Integers
  import opened Wrappers
  import opened OrderEncoder
  import opened FeltDecoder

  // ------------------------------------------------------------- the event as Cairo writes it

  datatype WireOutput = WireOutput(token: felt, amountLow: u128, amountHigh: u128, recipient: felt, domain: uint32)

  datatype WireInstruction = WireInstruction(domain: uint32, settler: felt, originData: seq<byte>)

  datatype WireOrder = WireOrder(
    user: felt,
    originDomain: uint32,
    openDeadline: uint64,
    fillDeadline: uint64,
    idLow: u128,
    idHigh: u128,
    maxSpent: seq<WireOutput>,
    minReceived: seq<WireOutput>,
    instructions: seq<WireInstruction>
  ) {
    /** Array lengths and byte sizes are Cairo usize values. */
    predicate Serialisable() {
      && |maxSpent| < TWO32 && |minReceived| < TWO32 && |instructions| < TWO32
      && forall i :: 0 <= i < |instructions| ==> |instructions[i].originData| < TWO32
    }
  }

  function SerialiseOutput(o: WireOutput): (s: seq<felt>)
    ensures |s| == 5
  {
    WordSizes();
    [o.token, o.amountLow, o.amountHigh, o.recipient, o.domain]
  }

  function SerialiseOutputs(os: seq<WireOutput>): (s: seq<felt>)
    ensures |s| == 5 * |os|
  {
    if |os| == 0 then [] else SerialiseOutputs(os[..|os| - 1]) + SerialiseOutput(os[|os| - 1])
  }

  function SerialiseInstructions(fs: seq<WireInstruction>): seq<felt> {
    if |fs| == 0 then []
    else [fs[0].domain, fs[0].settler] + CairoBytes(fs[0].originData) + SerialiseInstructions(fs[1..])
  }

  function SerialiseHeader(w: WireOrder): (s: seq<felt>)
    ensures |s| == 6
  {
    WordSizes();
    [w.user, w.originDomain, w.openDeadline, w.fillDeadline, w.idLow, w.idHigh]
  }

  /** The data of the Open event: the order's members in declaration order, arrays length first. */
  function Serialise(w: WireOrder): seq<felt>
    requires w.Serialisable()
  {
    Members(SerialiseHeader(w), |w.maxSpent|, SerialiseOutputs(w.maxSpent), |w.minReceived|,
            SerialiseOutputs(w.minReceived), |w.instructions|, SerialiseInstructions(w.instructions))
  }

  function Members(a: seq<felt>, m: uint32, b: seq<felt>, n: uint32, c: seq<felt>, l: uint32, d: seq<felt>): seq<felt> {
    a + [m] + b + [n] + c + [l] + d
  }

  // ------------------------------------------------------------- what the solver should see

  function Seen(nets: seq<Network>, o: WireOutput): Output {
    Output(Address(o.token), CombineU256(o.amountLow, o.amountHigh), Address(o.recipient), ChainOf(nets, o.domain))
  }

  function SeenAll(nets: seq<Network>, os: seq<WireOutput>): (r: seq<Output>)
    ensures |r| == |os|
  {
    seq(|os|, i requires 0 <= i < |os| => Seen(nets, os[i]))
  }

  /** s lies in data from index i on. */
  ghost predicate At(data: seq<felt>, i: nat, s: seq<felt>) {
    i + |s| <= |data| && forall k :: 0 <= k < |s| ==> data[i + k] == s[k]
  }

  lemma AtConcat(data: seq<felt>, i: nat, a: seq<felt>, b: seq<felt>)
    ensures At(data, i, a + b) <==> At(data, i, a) && At(data, i + |a|, b)
  {
    var s := a + b;
    if At(data, i, a) && At(data, i + |a|, b) {
      forall k | 0 <= k < |s|
        ensures data[i + k] == s[k]
      {
        if k >= |a| {
          assert data[(i + |a|) + (k - |a|)] == b[k - |a|];
        }
      }
    } else if At(data, i, s) {
      assert forall k :: 0 <= k < |a| ==> a[k] == s[k];
      forall k | 0 <= k < |b|
        ensures data[i + |a| + k] == b[k]
      {
        assert data[i + (|a| + k)] == s[|a| + k];
      }
    }
  }

  lemma OutputRoundTrip(nets: seq<Network>, data: seq<felt>, i: nat, o: WireOutput)
    requires At(data, i, SerialiseOutput(o))
    ensures OutputAt(nets, data, i) == Seen(nets, o)
  {
    var s := SerialiseOutput(o);
    assert data[i + 0] == s[0] && data[i + 1] == s[1] && data[i + 2] == s[2] && data[i + 3] == s[3]
        && data[i + 4] == s[4];
    assert U32(o.domain) == o.domain;
  }

  lemma OutputsSnoc(nets: seq<Network>, data: seq<felt>, i: nat, n: nat)
    requires i + 5 * n + 5 <= |data|
    ensures OutputsAt(nets, data, i, n + 1) == OutputsAt(nets, data, i, n) + [OutputAt(nets, data, i + 5 * n)]
  {
  }

  lemma SeenSnoc(nets: seq<Network>, os: seq<WireOutput>)
    requires |os| > 0
    ensures SeenAll(nets, os) == SeenAll(nets, os[..|os| - 1]) + [Seen(nets, os[|os| - 1])]
  {
  }

  lemma {:induction false} OutputsRoundTrip(nets: seq<Network>, data: seq<felt>, i: nat, os: seq<WireOutput>)
    requires i <= |data| && At(data, i, SerialiseOutputs(os))
    ensures i + 5 * |os| <= |data| && OutputsAt(nets, data, i, |os|) == SeenAll(nets, os)
  {
    if |os| > 0 {
      var init, o := os[..|os| - 1], os[|os| - 1];
      AtConcat(data, i, SerialiseOutputs(init), SerialiseOutput(o));
      OutputsRoundTrip(nets, data, i, init);
      OutputRoundTrip(nets, data, i + 5 * |init|, o);
      OutputsSnoc(nets, data, i, |init|);
      SeenSnoc(nets, os);
    }
  }

  lemma LengthFits(data: seq<felt>, i: nat, n: nat)
    requires n < TWO32 && i < |data| && data[i] == n
    ensures U64(data[i]) == n
  {
  }

  /** An output array placed anywhere is read back, and the cursor ends behind it. */
  lemma OutputArrayRoundTrip(nets: seq<Network>, data: seq<felt>, i: nat, os: seq<WireOutput>)
    requires |os| < TWO32 && i < |data| && data[i] == |os| && At(data, i + 1, SerialiseOutputs(os))
    ensures OutputArrayAt(nets, data, i) == Some((SeenAll(nets, os), i + 1 + 5 * |os|))
  {
    LengthFits(data, i, |os|);
    OutputsRoundTrip(nets, data, i + 1, os);
    ArrayFrom(nets, data, i, |os|, SeenAll(nets, os));
  }

  lemma ArrayFrom(nets: seq<Network>, data: seq<felt>, i: nat, n: nat, outs: seq<Output>)
    requires i < |data| && U64(data[i]) == n && i + 1 + 5 * n <= |data| && OutputsAt(nets, data, i + 1, n) == outs
    ensures OutputArrayAt(nets, data, i) == Some((outs, i + 1 + 5 * n))
  {
  }

  // ------------------------------------------------------------- the rebuilt origin data

  lemma FieldIsTwoWords(data: seq<felt>, raw: seq<byte>, j: nat)
    requires |data| == 23 + WordCount(|raw|) && data[23..] == PackWords(raw)
    requires 2 * j + 1 < WordCount(|raw|)
    ensures FieldAt(data, j) == Padded(raw)[32 * j..32 * j + 32]
  {
    WordBytes(data, raw, 2 * j);
    WordBytes(data, raw, 2 * j + 1);
    SliceHalves(Padded(raw), j);
  }

  lemma WordBytes(data: seq<felt>, raw: seq<byte>, k: nat)
    requires |data| == 23 + WordCount(|raw|) && data[23..] == PackWords(raw)
    requires k < WordCount(|raw|)
    ensures U128Bytes(data[23 + k]) == Padded(raw)[16 * k..16 * k + 16]
  {
    var w: u128 := PackWords(raw)[k];
    assert data[23..][k] == w;
    PackedWordBytes(raw, k);
  }

  lemma SliceHalves(p: seq<byte>, j: nat)
    requires 32 * j + 32 <= |p|
    ensures p[32 * j..32 * j + 32] == p[16 * (2 * j)..16 * (2 * j) + 16] + p[16 * (2 * j + 1)..16 * (2 * j + 1) + 16]
  {
  }

  /** With the words at the expected place and nothing behind them, the decoder returns the bytes
      32 to 384 between its three constants, or fails when there are fewer. */
  lemma OriginDataIsRebuilt(data: seq<felt>, raw: seq<byte>)
    requires |raw| < TWO32 && |data| == 23 + WordCount(|raw|)
    requires data[22] == WordCount(|raw|) && data[23..] == PackWords(raw)
    ensures |Padded(raw)| < 384 ==> OriginDataAt(data) == None
    ensures |Padded(raw)| >= 384 ==>
              OriginDataAt(data) == Some(Word(32) + Padded(raw)[32..384] + (Word(DATA_OFFSET) + Word(0)))
  {
    var n, p := WordCount(|raw|), Padded(raw);
    assert |p| == 16 * n;
    assert FieldCount(data) == n / 2;
    if n >= 24 {
      FieldsAreSlices(data, raw);
      RebuiltFlat(p, FieldsAt(data, 1, 11));
    }
  }

  lemma FieldsAreSlices(data: seq<felt>, raw: seq<byte>)
    requires |data| == 23 + WordCount(|raw|) && data[23..] == PackWords(raw) && WordCount(|raw|) >= 24
    ensures var fields := FieldsAt(data, 1, 11);
            forall k :: 0 <= k < 11 ==> fields[k] == Padded(raw)[32 * (1 + k)..32 * (1 + k) + 32]
  {
    var fields, p := FieldsAt(data, 1, 11), Padded(raw);
    forall k | 0 <= k < 11
      ensures fields[k] == p[32 * (1 + k)..32 * (1 + k) + 32]
    {
      FieldIsTwoWords(data, raw, 1 + k);
    }
  }

  lemma RebuiltFlat(p: seq<byte>, fields: seq<seq<byte>>)
    requires |p| >= 384 && |fields| == 11
    requires forall k :: 0 <= k < 11 ==> fields[k] == p[32 * (1 + k)..32 * (1 + k) + 32]
    ensures Flatten([Word(32)] + fields + [Word(DATA_OFFSET), Word(0)])
         == Word(32) + p[32..384] + (Word(DATA_OFFSET) + Word(0))
  {
    FlattenSlices(p, fields, 1);
    FlattenConcat([Word(32)] + fields, [Word(DATA_OFFSET), Word(0)]);
    FlattenConcat([Word(32)], fields);
    FlattenWord(32);
    FlattenTwo(Word(DATA_OFFSET), Word(0));
  }

  lemma FlattenTwo(a: seq<byte>, b: seq<byte>)
    ensures Flatten([a, b]) == a + b
  {
    FlattenSnoc([], a);
    FlattenSnoc([a], b);
    assert [] + [a] == [a] && [a] + [b] == [a, b];
  }

  lemma {:induction false} FlattenSlices(p: seq<byte>, ws: seq<seq<byte>>, from: nat)
    requires 32 * (from + |ws|) <= |p|
    requires forall k :: 0 <= k < |ws| ==> ws[k] == p[32 * (from + k)..32 * (from + k) + 32]
    ensures Flatten(ws) == p[32 * from..32 * (from + |ws|)]
  {
    if |ws| > 0 {
      FlattenSlices(p, ws[..|ws| - 1], from);
    }
  }

  /** parseOriginData gives the emitted bytes back if and only if they are an encoded order with no
      data: 448 bytes with the words 0x20, 0x180 and 0 in the places the decoder makes up. */
  lemma OriginDataRoundTripsIff(data: seq<felt>, raw: seq<byte>)
    requires |raw| < TWO32 && |data| == 23 + WordCount(|raw|)
    requires data[22] == WordCount(|raw|) && data[23..] == PackWords(raw)
    ensures OriginDataAt(data) == Some(raw)
       <==> |raw| == 448 && raw[..32] == Word(32) && raw[384..416] == Word(DATA_OFFSET) && raw[416..448] == Word(0)
  {
    OriginDataIsRebuilt(data, raw);
    var p := Padded(raw);
    if |p| >= 384 {
      RebuiltIsRawIff(raw, p);
    }
  }

  lemma RebuiltIsRawIff(raw: seq<byte>, p: seq<byte>)
    requires p == Padded(raw) && |p| >= 384
    ensures Word(32) + p[32..384] + (Word(DATA_OFFSET) + Word(0)) == raw
       <==> |raw| == 448 && raw[..32] == Word(32) && raw[384..416] == Word(DATA_OFFSET) && raw[416..448] == Word(0)
  {
    var a, c, d := Word(32), Word(DATA_OFFSET), Word(0);
    var rebuilt := a + p[32..384] + (c + d);
    if |raw| == 448 {
      assert p == raw;
      SplitAt(raw);
    }
    SlicesOf(a, p[32..384], c, d);
  }

  lemma SlicesOf(a: seq<byte>, b: seq<byte>, c: seq<byte>, d: seq<byte>)
    requires |a| == 32 && |b| == 352 && |c| == 32 && |d| == 32
    ensures var r := a + b + (c + d);
            |r| == 448 && r[..32] == a && r[384..416] == c && r[416..448] == d
  {
  }

  lemma SplitAt(b: seq<byte>)
    requires |b| == 448
    ensures b == b[..32] + b[32..384] + (b[384..416] + b[416..448])
  {
  }

  lemma EncodedWordsInPlace(od: StarknetOrderData)
    ensures var raw := RawBytes(od);
            && |raw| == 448 && raw[..32] == Word(32)
            && raw[384..416] == Word(DATA_OFFSET) && raw[416..448] == Word(0)
  {
    RawBytesAreWords(od);
    var ws := EncodedWords(Meaning(od));
    FlattenAt(ws, 32, 0);
    FlattenAt(ws, 32, 12);
    FlattenAt(ws, 32, 13);
    assert ws[0] == Word(32) && ws[12] == Word(384) && ws[13] == Word(|Meaning(od).data|);
  }

  // ------------------------------------------------------------- the whole event

  /** Where the parts of an event lie; i and j are the indices of the second and third length. */
  ghost predicate LiesAt(data: seq<felt>, w: WireOrder, i: nat, j: nat) {
    w.Serialisable() &&
    MembersLieAt(data, i, j, SerialiseHeader(w), |w.maxSpent|, SerialiseOutputs(w.maxSpent), |w.minReceived|,
                 SerialiseOutputs(w.minReceived), |w.instructions|, SerialiseInstructions(w.instructions))
  }

  ghost predicate MembersLieAt(data: seq<felt>, i: nat, j: nat, a: seq<felt>, m: uint32, b: seq<felt>, n: uint32,
                               c: seq<felt>, l: uint32, d: seq<felt>) {
    && i == |a| + 1 + |b| && j == i + 1 + |c| && j < |data|
    && At(data, 0, a)
    && data[|a|] == m && At(data, |a| + 1, b)
    && data[i] == n && At(data, i + 1, c)
    && data[j] == l && data[j + 1..] == d
  }

  lemma MembersLie(a: seq<felt>, m: uint32, b: seq<felt>, n: uint32, c: seq<felt>, l: uint32, d: seq<felt>)
    ensures MembersLieAt(Members(a, m, b, n, c, l, d), |a| + 1 + |b|, |a| + 2 + |b| + |c|, a, m, b, n, c, l, d)
  {
  }

  lemma EventLayout(w: WireOrder) returns (i: nat, j: nat)
    requires w.Serialisable()
    ensures j == 8 + 5 * (|w.maxSpent| + |w.minReceived|)
    ensures LiesAt(Serialise(w), w, i, j)
  {
    var a, b, c, d := SerialiseHeader(w), SerialiseOutputs(w.maxSpent), SerialiseOutputs(w.minReceived),
                      SerialiseInstructions(w.instructions);
    i, j := |a| + 1 + |b|, |a| + 2 + |b| + |c|;
    MembersLie(a, |w.maxSpent|, b, |w.minReceived|, c, |w.instructions|, d);
    assert Serialise(w) == Members(a, |w.maxSpent|, b, |w.minReceived|, c, |w.instructions|, d);
  }

  lemma HeaderOfEvent(data: seq<felt>, w: WireOrder)
    requires At(data, 0, SerialiseHeader(w))
    ensures |data| >= 6 && data[0] == w.user && data[1] == w.originDomain && data[2] == w.openDeadline
    ensures data[3] == w.fillDeadline && data[4] == w.idLow && data[5] == w.idHigh
    ensures CombineU256(data[4], data[5]) < TWO256
  {
    var h := SerialiseHeader(w);
    assert data[0 + 0] == h[0] && data[0 + 1] == h[1] && data[0 + 2] == h[2];
    assert data[0 + 3] == h[3] && data[0 + 4] == h[4] && data[0 + 5] == h[5];
    U256HalvesRoundTrip(w.idLow, w.idHigh);
  }

  /** What the decoder returns when it finds instructions fs. */
  function SeenOrder(nets: seq<Network>, w: WireOrder, fs: seq<FillInstruction>): ResolvedOrder {
    ResolvedOrder(Address(w.user), w.originDomain, Low32(w.openDeadline), Low32(w.fillDeadline),
      Word(CombineU256(w.idLow, w.idHigh)), SeenAll(nets, w.maxSpent), SeenAll(nets, w.minReceived), fs)
  }

  /** Member by member. */
  lemma SeenOrderIs(nets: seq<Network>, w: WireOrder, fs: seq<FillInstruction>)
    ensures var o := SeenOrder(nets, w, fs);
            && o.user == Address(w.user) && o.originChainID == w.originDomain && o.fillInstructions == fs
            && o.openDeadline == w.openDeadline % TWO32 && o.fillDeadline == w.fillDeadline % TWO32
            && |o.orderID| == 32 && FromBytes(o.orderID) == (w.idLow as nat) + (w.idHigh as nat) * TWO128
            && |o.maxSpent| == |w.maxSpent| && |o.minReceived| == |w.minReceived|
    ensures var o := SeenOrder(nets, w, fs);
            && (forall k :: 0 <= k < |w.maxSpent| ==>
                  && o.maxSpent[k].token == Address(w.maxSpent[k].token)
                  && o.maxSpent[k].recipient == Address(w.maxSpent[k].recipient)
                  && o.maxSpent[k].amount
                  == (w.maxSpent[k].amountLow as nat) + (w.maxSpent[k].amountHigh as nat) * TWO128
                  && o.maxSpent[k].chainID == ChainOf(nets, w.maxSpent[k].domain))
            && (forall k :: 0 <= k < |w.minReceived| ==>
                  && o.minReceived[k].token == Address(w.minReceived[k].token)
                  && o.minReceived[k].recipient == Address(w.minReceived[k].recipient)
                  && o.minReceived[k].amount
                  == (w.minReceived[k].amountLow as nat) + (w.minReceived[k].amountHigh as nat) * TWO128
                  && o.minReceived[k].chainID == ChainOf(nets, w.minReceived[k].domain))
  {
    U256HalvesRoundTrip(w.idLow, w.idHigh);
    WordSizes();
    FromToBytesSmall(CombineU256(w.idLow, w.idHigh), 32);
  }

  lemma AssembleOrder(nets: seq<Network>, data: seq<felt>, i: nat, j: nat, spent: seq<Output>, received: seq<Output>)
    requires |data| >= 6 && CombineU256(data[4], data[5]) < TWO256
    requires OutputArrayAt(nets, data, 6) == Some((spent, i))
    requires OutputArrayAt(nets, data, i) == Some((received, j))
    ensures var fs := InstructionArrayAt(nets, data, j);
            OrderAt(nets, data) ==
              if fs.None? then None
              else Some(ResolvedOrder(Address(data[0]), U32(data[1]), Low32(U64(data[2])), Low32(U64(data[3])),
                                      Word(CombineU256(data[4], data[5])), spent, received, fs.value))
  {
  }

  /** Everything in front of the instructions is decoded correctly, whatever the number of outputs. */
  lemma OrderAtEvent(nets: seq<Network>, data: seq<felt>, w: WireOrder, i: nat, j: nat)
    requires LiesAt(data, w, i, j)
    ensures var fs := InstructionArrayAt(nets, data, j);
            OrderAt(nets, data) == if fs.None? then None else Some(SeenOrder(nets, w, fs.value))
  {
    HeaderOfEvent(data, w);
    OutputArraysOfEvent(nets, data, w, i, j);
    AssembleOrder(nets, data, i, j, SeenAll(nets, w.maxSpent), SeenAll(nets, w.minReceived));
    SmallNumbers(w);
  }

  lemma OutputArraysOfEvent(nets: seq<Network>, data: seq<felt>, w: WireOrder, i: nat, j: nat)
    requires LiesAt(data, w, i, j)
    ensures OutputArrayAt(nets, data, 6) == Some((SeenAll(nets, w.maxSpent), i))
    ensures OutputArrayAt(nets, data, i) == Some((SeenAll(nets, w.minReceived), j))
  {
    OutputArrayRoundTrip(nets, data, 6, w.maxSpent);
    OutputArrayRoundTrip(nets, data, i, w.minReceived);
  }

  lemma SmallNumbers(w: WireOrder)
    ensures U32(w.originDomain) == w.originDomain
    ensures U64(w.openDeadline) == w.openDeadline && U64(w.fillDeadline) == w.fillDeadline
  {
  }

  lemma FirstInstructionCells(data: seq<felt>, w: WireOrder, i: nat, j: nat)
    requires LiesAt(data, w, i, j) && |w.instructions| > 0
    ensures j + 4 < |data|
    ensures data[j + 1] == w.instructions[0].domain && data[j + 2] == w.instructions[0].settler
    ensures data[j + 3] == |w.instructions[0].originData|
    ensures data[j + 4] == BigIntToFelt(WordCount(|w.instructions[0].originData|))
  {
    var f, s := w.instructions[0], data[j + 1..];
    var c := CairoBytes(f.originData);
    assert s == [f.domain, f.settler] + c + SerialiseInstructions(w.instructions[1..]);
    assert s[0] == data[j + 1] && s[1] == data[j + 2] && s[2] == data[j + 3] && s[3] == data[j + 4];
    assert s[2] == c[0] && s[3] == c[1];
  }

  /** The instructions begin where the decoder looks for them, whatever the number of outputs. */
  lemma InstructionsStartAt(nets: seq<Network>, data: seq<felt>, w: WireOrder, i: nat, j: nat)
    requires LiesAt(data, w, i, j)
    ensures InstructionsStart(nets, data) == Some(j)
  {
    HeaderOfEvent(data, w);
    OutputArraysOfEvent(nets, data, w, i, j);
  }

  lemma FirstCursor(data: seq<felt>, j: nat)
    requires j + 2 < |data| && U64(data[j]) > 0
    ensures |InstructionCursors(data, j)| > 0 && InstructionCursors(data, j)[0] == j + 3
  {
  }

  /** When the decoder first calls parseOriginData its cursor is at the first instruction's byte size, index
      11 + 5(m + n). The hard-wired index 21 is that index exactly when the order has two outputs in all. */
  lemma CursorAtOriginData(nets: seq<Network>, w: WireOrder)
    requires w.Serialisable() && |w.instructions| > 0
    ensures var data, cs := Serialise(w), CursorsOf(nets, Serialise(w));
            && |cs| > 0 && cs[0] == 11 + 5 * (|w.maxSpent| + |w.minReceived|) && cs[0] + 1 < |data|
            && data[cs[0]] == |w.instructions[0].originData|
            && data[cs[0] + 1] == WordCount(|w.instructions[0].originData|)
            && (cs[0] == 21 <==> |w.maxSpent| + |w.minReceived| == 2)
  {
    var i, j := EventLayout(w);
    InstructionsStartAt(nets, Serialise(w), w, i, j);
    FirstInstructionCells(Serialise(w), w, i, j);
    FirstCursor(Serialise(w), j);
  }

  lemma OneInstruction(nets: seq<Network>, data: seq<felt>, i: nat)
    requires i + 2 < |data| && data[i] == 1
    ensures InstructionArrayAt(nets, data, i) ==
              if OriginDataAt(data).None? then None
              else Some([InstructionAt(nets, data, i + 1, OriginDataAt(data).value)])
  {
    if OriginDataAt(data).Some? {
      var fi := InstructionAt(nets, data, i + 1, OriginDataAt(data).value);
      assert InstructionsAt(nets, data, i + 1, 1).value == [fi];
    }
  }

  /** Of an event with one instruction and two outputs, no read leaves the array and every field
      equals the serialised one, up to the domain mapping, the 32-bit deadlines and the rebuilt
      origin data; fewer than 384 bytes of origin data make the decoder panic. */
  lemma DecodeSingleInstruction(nets: seq<Network>, w: WireOrder)
    requires w.Serialisable() && |w.instructions| == 1 && |w.maxSpent| + |w.minReceived| == 2
    ensures OrderAt(nets, Serialise(w)) == SeenSingle(nets, w)
  {
    var i, j := EventLayout(w);
    SingleAt(nets, Serialise(w), w, i, j);
  }

  function SeenSingle(nets: seq<Network>, w: WireOrder): Option<ResolvedOrder>
    requires |w.instructions| == 1
  {
    var f := w.instructions[0];
    var p := Padded(f.originData);
    if |p| < 384 then None
    else
      Some(SeenOrder(nets, w, [FillInstruction(ChainOf(nets, f.domain), Address(f.settler),
                                               Word(32) + p[32..384] + (Word(DATA_OFFSET) + Word(0)))]))
  }

  lemma SingleAt(nets: seq<Network>, data: seq<felt>, w: WireOrder, i: nat, j: nat)
    requires LiesAt(data, w, i, j) && j == 18 && |w.instructions| == 1
    ensures OrderAt(nets, data) == SeenSingle(nets, w)
  {
    OrderAtEvent(nets, data, w, i, j);
    SingleInstructionLayout(data, w, i, j);
    OriginDataIsRebuilt(data, w.instructions[0].originData);
    OneInstruction(nets, data, j);
    assert U32(w.instructions[0].domain) == w.instructions[0].domain;
  }

  /** Where a single instruction lies, whatever the number of outputs. */
  lemma SingleInstructionLayout(data: seq<felt>, w: WireOrder, i: nat, j: nat)
    requires LiesAt(data, w, i, j) && |w.instructions| == 1
    ensures var f := w.instructions[0];
            && |data| == j + 5 + WordCount(|f.originData|)
            && data[j] == 1 && data[j + 1] == f.domain && data[j + 2] == f.settler && data[j + 3] == |f.originData|
            && data[j + 4] == WordCount(|f.originData|) && data[j + 5..] == PackWords(f.originData)
  {
    var f := w.instructions[0];
    var s := data[j + 1..];
    assert SerialiseInstructions(w.instructions[1..]) == [];
    assert s == [f.domain, f.settler] + CairoBytes(f.originData);
    assert s[0] == data[j + 1] && s[1] == data[j + 2] && s[2] == data[j + 3] && s[3] == data[j + 4];
    assert s[4..] == PackWords(f.originData) && s[4..] == data[j + 5..];
  }

  lemma DecodedFrom(nets: seq<Network>, w: WireOrder, o: ResolvedOrder)
    requires w.Serialisable() && OrderAt(nets, Serialise(w)) == Some(o)
    ensures o == SeenOrder(nets, w, o.fillInstructions)
  {
    var i, j := EventLayout(w);
    OrderAtEvent(nets, Serialise(w), w, i, j);
  }

  /** The chain of a decoded output is that of the first network with the serialised domain; of a domain that no
      network has, the domain. */
  lemma DecodedChain(nets: seq<Network>, w: WireOrder, o: ResolvedOrder, k: nat, i: nat)
    requires w.Serialisable() && OrderAt(nets, Serialise(w)) == Some(o) && i < |nets| && nets[i].chainID < TWO64 / 2
    ensures |o.maxSpent| == |w.maxSpent| && |o.minReceived| == |w.minReceived|
    ensures k < |w.maxSpent| && nets[i].domain == w.maxSpent[k].domain
            && (forall h :: 0 <= h < i ==> nets[h].domain != w.maxSpent[k].domain) ==>
              o.maxSpent[k].chainID == nets[i].chainID
    ensures k < |w.minReceived| && nets[i].domain == w.minReceived[k].domain
            && (forall h :: 0 <= h < i ==> nets[h].domain != w.minReceived[k].domain) ==>
              o.minReceived[k].chainID == nets[i].chainID
  {
    DecodedFrom(nets, w, o);
    SeenOrderIs(nets, w, o.fillInstructions);
    if k < |w.maxSpent| && nets[i].domain == w.maxSpent[k].domain
       && forall h :: 0 <= h < i ==> nets[h].domain != w.maxSpent[k].domain {
      ChainOfFirst(nets, w.maxSpent[k].domain, i);
    }
    if k < |w.minReceived| && nets[i].domain == w.minReceived[k].domain
       && forall h :: 0 <= h < i ==> nets[h].domain != w.minReceived[k].domain {
      ChainOfFirst(nets, w.minReceived[k].domain, i);
    }
  }

  /** The same for the first instruction, which also keeps its settler. */
  lemma DecodedInstruction(nets: seq<Network>, w: WireOrder, o: ResolvedOrder, i: nat)
    requires w.Serialisable() && OrderAt(nets, Serialise(w)) == Some(o) && |w.instructions| > 0
    requires i < |nets| && nets[i].domain == w.instructions[0].domain && nets[i].chainID < TWO64 / 2
    requires forall h :: 0 <= h < i ==> nets[h].domain != w.instructions[0].domain
    ensures |o.fillInstructions| == |w.instructions|
    ensures o.fillInstructions[0].destinationSettler == Address(w.instructions[0].settler)
    ensures o.fillInstructions[0].destinationChainID == nets[i].chainID
  {
    InstructionRead(nets, w, o);
    ChainOfFirst(nets, w.instructions[0].domain, i);
  }

  lemma UnknownDestination(nets: seq<Network>, w: WireOrder, o: ResolvedOrder)
    requires w.Serialisable() && OrderAt(nets, Serialise(w)) == Some(o) && |w.instructions| > 0
    requires forall i :: 0 <= i < |nets| ==> nets[i].domain != w.instructions[0].domain
    ensures |o.fillInstructions| > 0 && o.fillInstructions[0].destinationChainID == w.instructions[0].domain
  {
    InstructionRead(nets, w, o);
    ChainOfNone(nets, w.instructions[0].domain);
  }

  lemma InstructionRead(nets: seq<Network>, w: WireOrder, o: ResolvedOrder)
    requires w.Serialisable() && OrderAt(nets, Serialise(w)) == Some(o) && |w.instructions| > 0
    ensures |o.fillInstructions| == |w.instructions|
    ensures o.fillInstructions[0].destinationSettler == Address(w.instructions[0].settler)
    ensures o.fillInstructions[0].destinationChainID == ChainOf(nets, w.instructions[0].domain)
  {
    var j := 8 + 5 * |w.maxSpent| + 5 * |w.minReceived|;
    InstructionsDecoded(nets, w, o);
    InstructionsStartCells(w, j);
    FirstInstructionIs(nets, Serialise(w), j, |w.instructions|, w.instructions[0].domain);
  }

  lemma InstructionsStartCells(w: WireOrder, j: nat)
    requires w.Serialisable() && |w.instructions| > 0 && j == 8 + 5 * |w.maxSpent| + 5 * |w.minReceived|
    ensures var data, f := Serialise(w), w.instructions[0];
            && |data| > j + 2 && data[j] == |w.instructions| && data[j + 1] == f.domain && data[j + 2] == f.settler
  {
    InstructionCells(w);
    HeaderCells(w);
  }

  lemma FirstInstructionIs(nets: seq<Network>, data: seq<felt>, j: nat, n: uint32, domain: uint32)
    requires n > 0 && j + 2 < |data| && data[j] == n && data[j + 1] == domain
    requires InstructionArrayAt(nets, data, j).Some?
    ensures var fs := InstructionArrayAt(nets, data, j).value;
            && |fs| == n && fs[0].destinationChainID == ChainOf(nets, domain)
            && fs[0].destinationSettler == Address(data[j + 2])
  {
    InstructionArrayIs(nets, data, j, 0);
    LengthFits(data, j, n);
    assert data[j + 1 + 2 * 0] == domain;
  }

  lemma InstructionsDecoded(nets: seq<Network>, w: WireOrder, o: ResolvedOrder)
    requires w.Serialisable() && OrderAt(nets, Serialise(w)) == Some(o)
    ensures InstructionArrayAt(nets, Serialise(w), 8 + 5 * |w.maxSpent| + 5 * |w.minReceived|)
         == Some(o.fillInstructions)
  {
    var i, j := EventLayout(w);
    OrderAtEvent(nets, Serialise(w), w, i, j);
  }

  /** What an event is, felt by felt: the header and the three lengths. */
  lemma HeaderCells(w: WireOrder)
    requires w.Serialisable()
    ensures var data, m, n := Serialise(w), |w.maxSpent|, |w.minReceived|;
            && |data| > 8 + 5 * m + 5 * n
            && data[0] == w.user && data[1] == w.originDomain && data[2] == w.openDeadline
            && data[3] == w.fillDeadline && data[4] == w.idLow && data[5] == w.idHigh
            && data[6] == m && data[7 + 5 * m] == n && data[8 + 5 * m + 5 * n] == |w.instructions|
  {
    var i, j := EventLayout(w);
    HeaderOfEvent(Serialise(w), w);
  }

  /** Where the two output arrays lie. */
  lemma OutputsLie(w: WireOrder)
    requires w.Serialisable()
    ensures At(Serialise(w), 7, SerialiseOutputs(w.maxSpent))
    ensures At(Serialise(w), 8 + 5 * |w.maxSpent|, SerialiseOutputs(w.minReceived))
  {
    var i, j := EventLayout(w);
    OutputsLieIn(Serialise(w), w, i, j);
  }

  lemma OutputsLieIn(data: seq<felt>, w: WireOrder, i: nat, j: nat)
    requires LiesAt(data, w, i, j)
    ensures i == 7 + 5 * |w.maxSpent| && At(data, 7, SerialiseOutputs(w.maxSpent))
    ensures At(data, i + 1, SerialiseOutputs(w.minReceived))
  {
  }

  /** The outputs, five felts each. */
  lemma SpentCells(w: WireOrder, k: nat)
    requires w.Serialisable() && k < |w.maxSpent|
    ensures IsAt(Serialise(w), 7 + 5 * k, w.maxSpent[k])
  {
    OutputsLie(w);
    OutputCells(Serialise(w), 7, w.maxSpent, k);
  }

  lemma ReceivedCells(w: WireOrder, k: nat)
    requires w.Serialisable() && k < |w.minReceived|
    ensures IsAt(Serialise(w), 8 + 5 * |w.maxSpent| + 5 * k, w.minReceived[k])
  {
    var i, j := EventLayout(w);
    ReceivedCellsIn(Serialise(w), w, i, j, k);
  }

  lemma ReceivedCellsIn(data: seq<felt>, w: WireOrder, i: nat, j: nat, k: nat)
    requires LiesAt(data, w, i, j) && k < |w.minReceived|
    ensures IsAt(data, 8 + 5 * |w.maxSpent| + 5 * k, w.minReceived[k])
  {
    OutputsLieIn(data, w, i, j);
    OutputCells(data, i + 1, w.minReceived, k);
  }

  predicate IsAt(data: seq<felt>, b: nat, o: WireOutput) {
    && b + 5 <= |data| && data[b] == o.token && data[b + 1] == o.amountLow
    && data[b + 2] == o.amountHigh && data[b + 3] == o.recipient && data[b + 4] == o.domain
  }

  /** The first instruction and the size of its data. */
  lemma InstructionCells(w: WireOrder)
    requires w.Serialisable() && |w.instructions| > 0
    ensures var data, b, f := Serialise(w), 9 + 5 * |w.maxSpent| + 5 * |w.minReceived|, w.instructions[0];
            && |data| > b + 3 && data[b] == f.domain && data[b + 1] == f.settler
            && data[b + 2] == |f.originData| && data[b + 3] == (|f.originData| + 15) / 16
  {
    var i, j := EventLayout(w);
    FirstInstructionCells(Serialise(w), w, i, j);
    WordSizes();
  }

  lemma {:induction false} OutputCells(data: seq<felt>, at: nat, os: seq<WireOutput>, k: nat)
    requires At(data, at, SerialiseOutputs(os)) && k < |os|
    ensures IsAt(data, at + 5 * k, os[k])
  {
    var init, last := os[..|os| - 1], os[|os| - 1];
    AtConcat(data, at, SerialiseOutputs(init), SerialiseOutput(last));
    if k < |init| {
      OutputCells(data, at, init, k);
    } else {
      var s, b := SerialiseOutput(last), at + 5 * k;
      assert data[b + 0] == s[0] && data[b + 1] == s[1] && data[b + 2] == s[2];
      assert data[b + 3] == s[3] && data[b + 4] == s[4];
    }
  }

  /** The wire round trip: an event that carries the bytes encodeStarknetOrderData built is decoded
      into exactly those 448 bytes, and a Solidity settler decodes them into the order written. */
  lemma WireRoundTrip(nets: seq<Network>, w: WireOrder, od: StarknetOrderData)
    requires w.Serialisable() && |w.instructions| == 1 && |w.maxSpent| + |w.minReceived| == 2
    requires w.instructions[0].originData == RawBytes(od)
    ensures var f := w.instructions[0];
            OrderAt(nets, Serialise(w))
            == Some(SeenOrder(nets, w, [FillInstruction(ChainOf(nets, f.domain), Address(f.settler), RawBytes(od))]))
    ensures DecodeOrder(OrderAt(nets, Serialise(w)).value.fillInstructions[0].originData) == Some(Meaning(od))
  {
    DecodeSingleInstruction(nets, w);
    RebuiltRawBytes(od);
    EncoderWritesTheOrder(od);
  }

  lemma RebuiltRawBytes(od: StarknetOrderData)
    ensures var p := Padded(RawBytes(od));
            |p| == 448 && Word(32) + p[32..384] + (Word(DATA_OFFSET) + Word(0)) == RawBytes(od)
  {
    var raw := RawBytes(od);
    EncodedWordsInPlace(od);
    assert Padded(raw) == raw;
    RebuiltIsRawIff(raw, raw);
  }

  /** parseOriginData leaves the cursor in front of the bytes it parsed, so a second instruction is
      read from the first one's byte size and word count. */
  lemma SecondInstructionIsMisread(nets: seq<Network>, w: WireOrder, decoded: ResolvedOrder)
    requires w.Serialisable() && |w.instructions| >= 2 && OrderAt(nets, Serialise(w)) == Some(decoded)
    ensures var size := |w.instructions[0].originData|;
            && |decoded.fillInstructions| == |w.instructions|
            && decoded.fillInstructions[1].destinationChainID == ChainOf(nets, size)
            && decoded.fillInstructions[1].destinationSettler == Address(BigIntToFelt(WordCount(size)))
  {
    var i, j := EventLayout(w);
    var data := Serialise(w);
    OrderAtEvent(nets, data, w, i, j);
    FirstInstructionCells(data, w, i, j);
    MisreadAt(nets, data, w, j, decoded);
  }

  lemma MisreadAt(nets: seq<Network>, data: seq<felt>, w: WireOrder, j: nat, decoded: ResolvedOrder)
    requires w.Serialisable() && |w.instructions| >= 2
    requires j + 4 < |data| && data[j] == |w.instructions|
    requires data[j + 3] == |w.instructions[0].originData|
    requires data[j + 4] == BigIntToFelt(WordCount(|w.instructions[0].originData|))
    requires InstructionArrayAt(nets, data, j) == Some(decoded.fillInstructions)
    ensures var size := |w.instructions[0].originData|;
            && |decoded.fillInstructions| == |w.instructions|
            && decoded.fillInstructions[1].destinationChainID == ChainOf(nets, size)
            && decoded.fillInstructions[1].destinationSettler == Address(BigIntToFelt(WordCount(size)))
  {
    SecondInstruction(nets, data, j);
    assert U32(data[j + 3]) == data[j + 3];
  }

  lemma SecondInstruction(nets: seq<Network>, data: seq<felt>, i: nat)
    requires i + 4 < |data| && U64(data[i]) >= 2 && InstructionArrayAt(nets, data, i).Some?
    ensures var fs := InstructionArrayAt(nets, data, i).value;
            && |fs| == U64(data[i])
            && fs[1].destinationChainID == ChainOf(nets, U32(data[i + 3]))
            && fs[1].destinationSettler == Address(data[i + 4])
  {
  }
}
