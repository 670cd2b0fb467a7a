/** feltDecoder: the Open event of the Starknet contract, read felt by felt. A read past the end
    of the event is a Go run-time panic, modelled as None. */
module FeltDecoder {
  import opened Bytes
  import opened Hex
  import opened StarknetUtil
  import opened Integers
  import opened Wrappers
  import opened OrderEncoder

  /** A configured network, in the order one iteration of config.Networks meets them. */
  datatype Network = Network(chainID: uint64, domain: uint64, isStarknet: bool)

  datatype Output = Output(token: string, amount: nat, recipient: string, chainID: int)

  datatype FillInstruction = FillInstruction(
    destinationChainID: int,
    destinationSettler: string,
    originData: seq<byte>
  )

  datatype ResolvedOrder = ResolvedOrder(
    user: string,
    originChainID: nat,
    openDeadline: uint32,
    fillDeadline: uint32,
    orderID: seq<byte>,
    maxSpent: seq<Output>,
    minReceived: seq<Output>,
    fillInstructions: seq<FillInstruction>
  )

  // ------------------------------------------------------------- what one felt means

  function U64(f: felt): (r: uint64)
    ensures f < TWO64 ==> r == f
  {
    f % 0x1_00000000_00000000
  }

  function U32(f: felt): (r: uint32)
    ensures f < TWO32 ==> r == f
  {
    Low32(U64(f))
  }

  function Address(f: felt): string {
    Bytes32ToHexString(Word(f))
  }

  /** big.NewInt(int64(id)). */
  function AsInt64(id: uint64): int {
    if id < 0x8000_0000_0000_0000 then id else id - TWO64
  }

  /** domainToChainID, falling back to the domain itself. */
  function ChainOf(nets: seq<Network>, domain: uint32): int {
    if |nets| == 0 then domain
    else if nets[0].domain == domain then AsInt64(nets[0].chainID)
    else ChainOf(nets[1..], domain)
  }

  /** The chain id of the first network with that domain, as int64; of a domain no network has, the domain. */
  lemma {:induction false} ChainOfFirst(nets: seq<Network>, domain: uint32, i: nat)
    requires i < |nets| && nets[i].domain == domain && forall k :: 0 <= k < i ==> nets[k].domain != domain
    ensures ChainOf(nets, domain)
         == if nets[i].chainID < 0x8000_0000_0000_0000 then nets[i].chainID
            else nets[i].chainID - 0x1_0000_0000_0000_0000
  {
    if i > 0 {
      ChainOfFirst(nets[1..], domain, i - 1);
    }
  }

  lemma {:induction false} ChainOfNone(nets: seq<Network>, domain: uint32)
    requires forall i :: 0 <= i < |nets| ==> nets[i].domain != domain
    ensures ChainOf(nets, domain) == domain
  {
    if |nets| > 0 {
      ChainOfNone(nets[1..], domain);
    }
  }

  /** A felt read as an address is its number in 64 lower-case digits behind the prefix. */
  lemma AddressSpells(f: felt)
    ensures HasPrefix(Address(f)) && |Address(f)| == 66 && HexToBN(Address(f)) == Some(f)
    ensures forall i :: 2 <= i < 66 ==> '0' <= Address(f)[i] <= '9' || 'a' <= Address(f)[i] <= 'f'
  {
    HexToBNOfBytes(Word(f));
    WordSizes();
    FromToBytesSmall(f, 32);
    EncodeIsLowerCase(Word(f));
    assert Address(f)[2..] == Encode(Word(f));
    assert forall i :: 2 <= i < 66 ==> Address(f)[i] == Encode(Word(f))[i - 2];
  }

  /** Small numbers are read off the low bits. */
  lemma LowBits(f: felt)
    ensures U64(f) == f % 0x1_0000_0000_0000_0000 && U32(f) == f % 0x1_0000_0000
    ensures Low32(U64(f)) == f % 0x1_0000_0000
  {
    var q, r := f / 0x1_0000_0000_0000_0000, f % 0x1_0000_0000_0000_0000;
    assert f == (q * 0x1_0000_0000 + r / 0x1_0000_0000) * 0x1_0000_0000 + r % 0x1_0000_0000;
    RemainderOf(f, q * 0x1_0000_0000 + r / 0x1_0000_0000, 0x1_0000_0000, r % 0x1_0000_0000);
  }

  // ------------------------------------------------------------- what a stretch of felts means

  function OutputAt(nets: seq<Network>, data: seq<felt>, i: nat): Output
    requires i + 5 <= |data|
  {
    Output(Address(data[i]), CombineU256(data[i + 1], data[i + 2]), Address(data[i + 3]),
           ChainOf(nets, U32(data[i + 4])))
  }

  function OutputsAt(nets: seq<Network>, data: seq<felt>, i: nat, n: nat): (os: seq<Output>)
    requires i + 5 * n <= |data|
    ensures |os| == n
  {
    seq(n, k requires 0 <= k < n => OutputAt(nets, data, i + 5 * k))
  }

  /** The array of outputs starting with its length at i, and the index after it. */
  function OutputArrayAt(nets: seq<Network>, data: seq<felt>, i: nat): Option<(seq<Output>, nat)> {
    if i < |data| && i + 1 + 5 * U64(data[i]) <= |data| then
      Some((OutputsAt(nets, data, i + 1, U64(data[i])), i + 1 + 5 * U64(data[i])))
    else None
  }

  /** How many two-felt fields parseOriginData's loop collects. */
  function FieldCount(data: seq<felt>): nat
    requires |data| > 22
  {
    var wanted, present := (U64(data[22]) + 1) / 2, (|data| - 23) / 2;
    if wanted <= present then wanted else present
  }

  function FieldAt(data: seq<felt>, j: nat): (w: seq<byte>)
    requires 24 + 2 * j < |data|
    ensures |w| == 32
  {
    U128Bytes(data[23 + 2 * j]) + U128Bytes(data[24 + 2 * j])
  }

  function FieldsAt(data: seq<felt>, from: nat, n: nat): (ws: seq<seq<byte>>)
    requires 23 + 2 * (from + n) <= |data|
    ensures |ws| == n && forall k :: 0 <= k < n ==> |ws[k]| == 32
  {
    var ws := seq(n, k requires 0 <= k < n => FieldAt(data, from + k));
    assert forall k :: 0 <= k < n ==> |ws[k]| == 32 by {
      forall k | 0 <= k < n
        ensures ws[k] == FieldAt(data, from + k)
      {
      }
    }
    ws
  }

  /** parseOriginData: constant first word, fields 1 to 11, constant offset, constant zero. It reads
      at the absolute indices 21, 22, 23, wherever the cursor is. */
  function OriginDataAt(data: seq<felt>): Option<seq<byte>> {
    if |data| > 22 && FieldCount(data) >= 12 then
      Some(Flatten([Word(32)] + FieldsAt(data, 1, 11) + [Word(DATA_OFFSET), Word(0)]))
    else None
  }

  function InstructionAt(nets: seq<Network>, data: seq<felt>, i: nat, originData: seq<byte>): FillInstruction
    requires i + 2 <= |data|
  {
    FillInstruction(ChainOf(nets, U32(data[i])), Address(data[i + 1]), originData)
  }

  /** n instructions from i on; every one advances the cursor by two felts only. */
  function InstructionsAt(nets: seq<Network>, data: seq<felt>, i: nat, n: nat): (fs: Option<seq<FillInstruction>>)
    ensures fs.Some? ==> |fs.value| == n
  {
    if n == 0 then Some([])
    else if i + 2 * n > |data| then None
    else
      var origin :- OriginDataAt(data);
      Some(seq(n, k requires 0 <= k < n => InstructionAt(nets, data, i + 2 * k, origin)))
  }

  function InstructionArrayAt(nets: seq<Network>, data: seq<felt>, i: nat): Option<seq<FillInstruction>> {
    if i < |data| then InstructionsAt(nets, data, i + 1, U64(data[i])) else None
  }

  /** decodeResolvedOrderFromFelts. */
  function OrderAt(nets: seq<Network>, data: seq<felt>): Option<ResolvedOrder> {
    if |data| < 6 || CombineU256(data[4], data[5]) >= TWO256 then None
    else
      var (maxSpent, i) :- OutputArrayAt(nets, data, 6);
      var (minReceived, j) :- OutputArrayAt(nets, data, i);
      var instructions :- InstructionArrayAt(nets, data, j);
      Some(ResolvedOrder(Address(data[0]), U32(data[1]), Low32(U64(data[2])), Low32(U64(data[3])),
                         Word(CombineU256(data[4], data[5])), maxSpent, minReceived, instructions))
  }

  // ------------------------------------------------------------- the order, felt by felt

  lemma OutputIs(nets: seq<Network>, data: seq<felt>, i: nat)
    requires i + 5 <= |data|
    ensures var o := OutputAt(nets, data, i);
            && o.token == Address(data[i])
            && o.amount == (data[i + 1] as nat) + (data[i + 2] as nat) * TWO128
            && o.recipient == Address(data[i + 3]) && o.chainID == ChainOf(nets, data[i + 4] % 0x1_0000_0000)
  {
    LowBits(data[i + 4]);
  }

  lemma OutputArrayIs(nets: seq<Network>, data: seq<felt>, i: nat, k: nat)
    requires OutputArrayAt(nets, data, i).Some?
    ensures i < |data|
    ensures var n, (os, end) := data[i] % 0x1_0000_0000_0000_0000, OutputArrayAt(nets, data, i).value;
            && |os| == n && end == i + 1 + 5 * n <= |data|
            && (k < n ==>
                  && os[k].token == Address(data[i + 1 + 5 * k])
                  && os[k].amount == (data[i + 2 + 5 * k] as nat) + (data[i + 3 + 5 * k] as nat) * TWO128
                  && os[k].recipient == Address(data[i + 4 + 5 * k])
                  && os[k].chainID == ChainOf(nets, data[i + 5 + 5 * k] % 0x1_0000_0000))
  {
    LowBits(data[i]);
    if k < U64(data[i]) {
      OutputIs(nets, data, i + 1 + 5 * k);
      assert OutputArrayAt(nets, data, i).value.0[k] == OutputAt(nets, data, i + 1 + 5 * k);
    }
  }

  lemma InstructionIs(nets: seq<Network>, data: seq<felt>, i: nat, originData: seq<byte>)
    requires i + 2 <= |data|
    ensures var f := InstructionAt(nets, data, i, originData);
            && f.destinationChainID == ChainOf(nets, data[i] % 0x1_0000_0000)
            && f.destinationSettler == Address(data[i + 1]) && f.originData == originData
  {
    LowBits(data[i]);
  }

  lemma InstructionArrayIs(nets: seq<Network>, data: seq<felt>, i: nat, k: nat)
    requires InstructionArrayAt(nets, data, i).Some?
    ensures i < |data|
    ensures var n, fs := data[i] % 0x1_0000_0000_0000_0000, InstructionArrayAt(nets, data, i).value;
            && |fs| == n
            && (k < n ==>
                  && i + 1 + 2 * n <= |data|
                  && fs[k].destinationChainID == ChainOf(nets, data[i + 1 + 2 * k] % 0x1_0000_0000)
                  && fs[k].destinationSettler == Address(data[i + 2 + 2 * k])
                  && Some(fs[k].originData) == OriginDataAt(data))
  {
    LowBits(data[i]);
    if k < U64(data[i]) {
      InstructionOf(nets, data, i + 1, U64(data[i]), k);
      InstructionIs(nets, data, i + 1 + 2 * k, OriginDataAt(data).value);
    }
  }

  lemma InstructionOf(nets: seq<Network>, data: seq<felt>, i: nat, n: nat, k: nat)
    requires k < n && InstructionsAt(nets, data, i, n).Some?
    ensures i + 2 * n <= |data| && OriginDataAt(data).Some?
    ensures InstructionsAt(nets, data, i, n).value[k]
         == InstructionAt(nets, data, i + 2 * k, OriginDataAt(data).value)
  {
  }

  /** Where every member of a decoded order was read. */
  lemma OrderIs(nets: seq<Network>, data: seq<felt>)
    requires OrderAt(nets, data).Some?
    ensures |data| >= 7
    ensures var o := OrderAt(nets, data).value;
            && o.user == Address(data[0]) && o.originChainID == data[1] % 0x1_0000_0000
            && o.openDeadline == data[2] % 0x1_0000_0000 && o.fillDeadline == data[3] % 0x1_0000_0000
            && |o.orderID| == 32
            && FromBytes(o.orderID) == (data[4] as nat) + (data[5] as nat) * TWO128
            && exists i, j ::
                 && OutputArrayAt(nets, data, 6) == Some((o.maxSpent, i))
                 && OutputArrayAt(nets, data, i) == Some((o.minReceived, j))
                 && InstructionArrayAt(nets, data, j) == Some(o.fillInstructions)
  {
    var n := CombineU256(data[4], data[5]);
    LowBits(data[1]);
    LowBits(data[2]);
    LowBits(data[3]);
    FromToBytes(n, 32);
    WordSizes();
    Remainder(0, TWO256, n);
    var (maxSpent, i) := OutputArrayAt(nets, data, 6).value;
    var (minReceived, j) := OutputArrayAt(nets, data, i).value;
  }

  /** There is no order exactly if a part is missing or the id has more than 256 bits. */
  lemma NoOrderIff(nets: seq<Network>, data: seq<felt>)
    ensures OrderAt(nets, data).None? <==>
              || |data| < 7
              || (data[4] as nat) + (data[5] as nat) * TWO128
                 >= 0x1_00000000_00000000_00000000_00000000_00000000_00000000_00000000_00000000
              || OutputArrayAt(nets, data, 6).None?
              || OutputArrayAt(nets, data, OutputArrayAt(nets, data, 6).value.1).None?
              || InstructionArrayAt(nets, data, OutputArrayAt(nets, data, OutputArrayAt(nets, data, 6).value.1).value.1)
                 .None?
  {
  }

  /** An array is missing exactly if its length or one of its felts is. */
  lemma NoArrayIff(nets: seq<Network>, data: seq<felt>, i: nat)
    ensures OutputArrayAt(nets, data, i).None? <==>
              i >= |data| || i + 1 + 5 * (data[i] % 0x1_0000_0000_0000_0000) > |data|
    ensures InstructionArrayAt(nets, data, i).None? <==>
              || i >= |data|
              || (data[i] % 0x1_0000_0000_0000_0000 > 0
                  && (i + 1 + 2 * (data[i] % 0x1_0000_0000_0000_0000) > |data| || OriginDataAt(data).None?))
  {
    if i < |data| {
      LowBits(data[i]);
    }
  }

  // ------------------------------------------------------------- where the cursor is

  /** The index of the instructions' length, if everything in front of it can be read. */
  function InstructionsStart(nets: seq<Network>, data: seq<felt>): Option<nat> {
    if |data| < 6 || CombineU256(data[4], data[5]) >= TWO256 then None
    else
      var (_, i) :- OutputArrayAt(nets, data, 6);
      var (_, j) :- OutputArrayAt(nets, data, i);
      Some(j)
  }

  /** The cursors of n instructions from i on once their two felts are read. */
  function CursorsFrom(i: nat, n: nat): (cs: seq<nat>)
    ensures |cs| == n && forall k :: 0 <= k < n ==> cs[k] == i + 2 * k + 2
  {
    seq(n, k => i + 2 * k + 2)
  }

  /** The same for those of the n instructions that get as far as parseOriginData: it stops the decoder at
      the first call or at none. */
  function CursorsAt(data: seq<felt>, i: nat, n: nat): seq<nat>
    requires i <= |data|
  {
    var read := if n <= (|data| - i) / 2 then n else (|data| - i) / 2;
    CursorsFrom(i, if OriginDataAt(data).None? && read > 1 then 1 else read)
  }

  function InstructionCursors(data: seq<felt>, j: nat): seq<nat> {
    if j < |data| then CursorsAt(data, j + 1, U64(data[j])) else []
  }

  /** Where the cursor stands at every call of parseOriginData, which reads at fixed indices. */
  function CursorsOf(nets: seq<Network>, data: seq<felt>): seq<nat> {
    match InstructionsStart(nets, data)
    case None => []
    case Some(j) => InstructionCursors(data, j)
  }

  // ------------------------------------------------------------- the decoder

  class Decoder {
    const data: seq<felt>
    const nets: seq<Network>
    var idx: nat
    ghost var parsedAt: seq<nat>   // the cursor at every call of ParseOriginData

    constructor (nets: seq<Network>, data: seq<felt>)
      ensures this.data == data && this.nets == nets && idx == 0 && parsedAt == []
    {
      this.data, this.nets, idx := data, nets, 0;
      parsedAt := [];
    }

    method ReadFelt() returns (r: Option<felt>)
      modifies this`idx
      ensures old(idx) < |data| ==> r == Some(data[old(idx)]) && idx == old(idx) + 1
      ensures old(idx) >= |data| ==> r == None && idx == old(idx)
    {
      if idx >= |data| {
        return None;
      }
      r := Some(data[idx]);
      idx := idx + 1;
    }

    method ReadU256() returns (r: Option<nat>)
      modifies this`idx
      ensures old(idx) + 2 <= |data| ==>
                && r == Some(CombineU256(data[old(idx)], data[old(idx) + 1])) && idx == old(idx) + 2
                && r.value == (data[old(idx)] as nat) + (data[old(idx) + 1] as nat) * TWO128
      ensures old(idx) + 2 > |data| ==> r == None
    {
      var low :- ReadFelt();
      var high :- ReadFelt();
      r := Some(CombineU256(low, high));
    }

    /** domainToChainID's search, with the caller's fallback. */
    method DomainToChainID(domain: uint32) returns (chainID: int)
      ensures chainID == ChainOf(nets, domain)
      ensures forall i ::
                0 <= i < |nets| && nets[i].domain == domain && (forall k :: 0 <= k < i ==> nets[k].domain != domain)
                ==> chainID == AsInt64(nets[i].chainID)
      ensures (forall i :: 0 <= i < |nets| ==> nets[i].domain != domain) ==> chainID == domain
    {
      var i := 0;
      while i < |nets|
        invariant 0 <= i <= |nets|
        invariant forall k :: 0 <= k < i ==> nets[k].domain != domain
        invariant ChainOf(nets, domain) == ChainOf(nets[i..], domain)
      {
        if nets[i].domain == domain {
          return AsInt64(nets[i].chainID);
        }
        i := i + 1;
      }
      chainID := domain;
    }

    method ReadOutput() returns (r: Option<Output>)
      modifies this`idx
      ensures old(idx) + 5 <= |data| ==> r == Some(OutputAt(nets, data, old(idx))) && idx == old(idx) + 5
      ensures old(idx) + 5 > |data| ==> r == None
    {
      var token :- ReadFelt();
      var amount :- ReadU256();
      var recipient :- ReadFelt();
      var domain :- ReadFelt();
      var chainID := DomainToChainID(U32(domain));
      r := Some(Output(Address(token), amount, Address(recipient), chainID));
    }

    method ReadOutputs() returns (r: Option<seq<Output>>)
      modifies this`idx
      ensures var a := OutputArrayAt(nets, data, old(idx));
              (a.Some? ==> r == Some(a.value.0) && idx == a.value.1) && (a.None? ==> r == None)
    {
      var start := idx;
      var lengthFelt :- ReadFelt();
      var length := U64(lengthFelt);
      var outs: seq<Output> := [];
      while |outs| < length
        invariant |outs| <= length
        invariant idx == start + 1 + 5 * |outs| <= |data|
        invariant outs == OutputsAt(nets, data, start + 1, |outs|)
      {
        var out :- ReadOutput();
        outs := outs + [out];
      }
      r := Some(outs);
    }

    /** The loop over pairs of words; the cursor is neither read nor moved. */
    method CollectFields() returns (orderDataFields: seq<seq<byte>>)
      requires |data| > 22
      ensures orderDataFields == FieldsAt(data, 0, FieldCount(data))
    {
      var u128ArrayLength := U64(data[22]);
      orderDataFields := [];
      var i := 0;
      while i < u128ArrayLength && 23 + i + 1 < |data|
        invariant 0 <= i && i == 2 * |orderDataFields| && |orderDataFields| <= FieldCount(data)
        invariant orderDataFields == FieldsAt(data, 0, |orderDataFields|)
      {
        var lowU128 := U128Bytes(data[23 + i]);
        var highU128 := U128Bytes(data[23 + i + 1]);
        orderDataFields := orderDataFields + [lowU128 + highU128];
        i := i + 2;
      }
    }

    method ParseOriginData() returns (r: Option<seq<byte>>)
      modifies this`parsedAt
      ensures r == OriginDataAt(data)
      ensures parsedAt == old(parsedAt) + [idx]
    {
      parsedAt := parsedAt + [idx];
      r := RebuildOriginData();
    }

    method RebuildOriginData() returns (r: Option<seq<byte>>)
      ensures r == OriginDataAt(data)
    {
      if |data| <= 22 {
        return None;
      }
      var orderDataFields := CollectFields();
      if |orderDataFields| < 12 {
        return None;
      }
      var evmOriginData := Word(32);
      ghost var ws := [Word(32)];
      FlattenWord(32);
      var field := 1;
      while field < 12
        invariant 1 <= field <= 12
        invariant evmOriginData == Flatten(ws) && ws == [Word(32)] + FieldsAt(data, 1, field - 1)
      {
        FlattenSnoc(ws, orderDataFields[field]);
        evmOriginData := evmOriginData + orderDataFields[field];
        ws := ws + [orderDataFields[field]];
        field := field + 1;
      }
      evmOriginData := AppendEmptyData(evmOriginData, ws);
      r := Some(evmOriginData);
    }

    /** The offset of the data and its zero length. */
    method AppendEmptyData(head: seq<byte>, ghost ws: seq<seq<byte>>) returns (r: seq<byte>)
      requires head == Flatten(ws)
      ensures r == Flatten(ws + [Word(DATA_OFFSET), Word(0)])
    {
      r := head + Word(DATA_OFFSET);
      r := r + Word(0);
      FlattenSnoc(ws, Word(DATA_OFFSET));
      FlattenSnoc(ws + [Word(DATA_OFFSET)], Word(0));
      assert ws + [Word(DATA_OFFSET)] + [Word(0)] == ws + [Word(DATA_OFFSET), Word(0)];
    }

    method ReadFillInstruction() returns (r: Option<FillInstruction>)
      modifies this`idx, this`parsedAt
      ensures var i := old(idx);
              if i + 2 <= |data| && OriginDataAt(data).Some? then
                r == Some(InstructionAt(nets, data, i, OriginDataAt(data).value))
                && idx == i + 2
              else r == None
      ensures parsedAt == old(parsedAt) + if old(idx) + 2 <= |data| then [old(idx) + 2] else []
    {
      var domain :- ReadFelt();
      var chainID := DomainToChainID(U32(domain));
      var settler :- ReadFelt();
      var origin :- ParseOriginData();
      r := Some(FillInstruction(chainID, Address(settler), origin));
    }

    method ReadFillInstructions() returns (r: Option<seq<FillInstruction>>)
      requires parsedAt == []
      modifies this`idx, this`parsedAt
      ensures r == InstructionArrayAt(nets, data, old(idx))
      ensures parsedAt == InstructionCursors(data, old(idx))
    {
      var lengthFelt :- ReadFelt();
      r := ReadThatMany(U64(lengthFelt));
    }

    method ReadThatMany(length: uint64) returns (r: Option<seq<FillInstruction>>)
      requires parsedAt == [] && idx <= |data|
      modifies this`idx, this`parsedAt
      ensures r == InstructionsAt(nets, data, old(idx), length)
      ensures parsedAt == CursorsAt(data, old(idx), length)
    {
      var start := idx;
      var arr: seq<FillInstruction> := [];
      while |arr| < length
        invariant |arr| <= length
        invariant idx == start + 2 * |arr| <= |data|
        invariant |arr| > 0 ==> OriginDataAt(data).Some?
        invariant parsedAt == CursorsFrom(start, |arr|)
        invariant InstructionsAt(nets, data, start, |arr|) == Some(arr)
      {
        if idx + 2 <= |data| && OriginDataAt(data).Some? {
          InstructionsSnoc(nets, data, start, arr);
          CursorsSnoc(start, |arr|);
        } else {
          NoNextInstruction(nets, data, start, |arr|, length);
        }
        var fi :- ReadFillInstruction();
        arr := arr + [fi];
      }
      AllInstructions(data, start, length);
      r := Some(arr);
    }

    /** decodeResolvedOrderFromFelts, from the first felt. */
    method DecodeResolvedOrder() returns (r: Option<ResolvedOrder>)
      requires idx == 0 && parsedAt == []
      modifies this`idx, this`parsedAt
      ensures r == OrderAt(nets, data)
      ensures parsedAt == CursorsOf(nets, data)
    {
      var user :- ReadFelt();
      var origin :- ReadFelt();
      var openDeadline :- ReadFelt();
      var fillDeadline :- ReadFelt();
      var orderID :- ReadU256();
      var orderBytes := MinimalBytes(orderID);
      OrderIdFits(orderID);
      if |orderBytes| > 32 {
        return None;
      }
      var orderArr := LeftPad(orderBytes, 32);
      LeftPaddedIsLowBytes(orderID, 32);
      var maxSpent :- ReadOutputs();
      var minReceived :- ReadOutputs();
      var instructions :- ReadFillInstructions();
      r := Some(ResolvedOrder(Address(user), U32(origin), Low32(U64(openDeadline)), Low32(U64(fillDeadline)),
                              orderArr, maxSpent, minReceived, instructions));
    }
  }

  lemma OrderIdFits(n: nat)
    ensures |MinimalBytes(n)| <= 32 <==> n < TWO256
  {
    if n < TWO256 {
      MinimalBytesShort(n);
    } else {
      MinimalBytesLong(n);
    }
  }

  lemma FlattenWord(n: nat)
    ensures Flatten([Word(n)]) == Word(n)
  {
    assert [] + Word(n) == Word(n);
    FlattenSnoc([], Word(n));
    assert [] + [Word(n)] == [Word(n)];
  }

  lemma FlattenSnoc(ws: seq<seq<byte>>, w: seq<byte>)
    ensures Flatten(ws + [w]) == Flatten(ws) + w
  {
    assert (ws + [w])[..|ws|] == ws;
  }

  lemma InstructionsSnoc(nets: seq<Network>, data: seq<felt>, i: nat, fs: seq<FillInstruction>)
    requires InstructionsAt(nets, data, i, |fs|) == Some(fs)
    requires i + 2 * |fs| + 2 <= |data| && OriginDataAt(data).Some?
    ensures InstructionsAt(nets, data, i, |fs| + 1)
         == Some(fs + [InstructionAt(nets, data, i + 2 * |fs|, OriginDataAt(data).value)])
  {
    var origin := OriginDataAt(data).value;
    var more, last := InstructionsAt(nets, data, i, |fs| + 1).value, InstructionAt(nets, data, i + 2 * |fs|, origin);
    forall k | 0 <= k < |fs|
      ensures more[k] == fs[k]
    {
      InstructionOf(nets, data, i, |fs|, k);
      InstructionOf(nets, data, i, |fs| + 1, k);
    }
    InstructionOf(nets, data, i, |fs| + 1, |fs|);
    assert more[..|fs|] == fs && more == more[..|fs|] + [last];
  }

  /** Where the decoder stops if one more instruction cannot be read. */
  lemma NoNextInstruction(nets: seq<Network>, data: seq<felt>, i: nat, n: nat, length: uint64)
    requires n < length && i + 2 * n <= |data| && (n > 0 ==> OriginDataAt(data).Some?)
    requires i + 2 * n + 2 > |data| || OriginDataAt(data).None?
    ensures InstructionsAt(nets, data, i, length) == None
    ensures CursorsAt(data, i, length) == CursorsFrom(i, n) + if i + 2 * n + 2 <= |data| then [i + 2 * n + 2] else []
  {
    NoMoreInstructions(nets, data, i, n, length);
    if OriginDataAt(data).None? {
      StopsAtFirst(data, i, length);
    } else {
      StopsAtEnd(data, i, n, length);
    }
  }

  lemma NoMoreInstructions(nets: seq<Network>, data: seq<felt>, i: nat, n: nat, length: uint64)
    requires n < length && (i + 2 * n + 2 > |data| || OriginDataAt(data).None?)
    ensures InstructionsAt(nets, data, i, length) == None
  {
  }

  lemma CursorsSnoc(i: nat, n: nat)
    ensures CursorsFrom(i, n + 1) == CursorsFrom(i, n) + [i + 2 * n + 2]
  {
  }

  lemma StopsAtFirst(data: seq<felt>, i: nat, length: uint64)
    requires length > 0 && i <= |data| && OriginDataAt(data).None?
    ensures CursorsAt(data, i, length) == CursorsFrom(i, 0) + if i + 2 <= |data| then [i + 2] else []
  {
    CursorsSnoc(i, 0);
  }

  lemma StopsAtEnd(data: seq<felt>, i: nat, n: nat, length: uint64)
    requires n < length && |data| - 2 < i + 2 * n <= |data| && OriginDataAt(data).Some?
    ensures CursorsAt(data, i, length) == CursorsFrom(i, n) + []
  {
    assert (|data| - i) / 2 == n;
  }

  lemma AllInstructions(data: seq<felt>, i: nat, n: nat)
    requires i + 2 * n <= |data| && (n > 0 ==> OriginDataAt(data).Some?)
    ensures CursorsAt(data, i, n) == CursorsFrom(i, n)
  {
  }
}
