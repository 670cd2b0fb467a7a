/** A destination chain as its handler sees it: what each call is answered, the ERC20 allowances,
    order status reads and the wait for a status. */
module DestinationChain {
  import opened Bytes
  import opened Journal
  import opened StarknetUtil
  import opened Integers
  import opened Wrappers

  datatype Kind = Evm | Starknet

  /** Whether the handler goes on as if the transaction had worked. On an EVM chain it looks at the
      receipt's status; on Starknet it only looks whether waiting for the receipt failed, and a reverted
      transaction has a receipt too. */
  predicate CountsAsSuccess(kind: Kind, tx: TxOutcome) {
    tx.Mined? || (kind.Starknet? && tx.Reverted?)
  }

  /** Everything one call to the chain may be answered with; each call uses the part it asked for. */
  datatype Reply = Reply(
    data: Option<seq<byte>>,     // an EVM contract call
    felts: Option<seq<felt>>,    // a Starknet contract call
    fails: bool,                 // an allowance query without a usable answer
    cancelled: bool,             // the context is done before the next retry
    quote: Option<nat>,          // the gas payment
    tx: TxOutcome
  )

  // ------------------------------------------------------------- order status

  /** The ASCII codes of the two names. */
  const FILLED_TEXT: seq<byte> := [70, 73, 76, 76, 69, 68]
  const SETTLED_TEXT: seq<byte> := [83, 69, 84, 84, 76, 69, 68]

  const FILLED_HASH: nat := 0x46494c4c45440000000000000000000000000000000000000000000000000000
  const SETTLED_HASH: nat := 0x534554544c454400000000000000000000000000000000000000000000000000
  const FILLED_FELT: nat := 0x46494c4c4544
  const SETTLED_FELT: nat := 0x534554544c4544

  /** interpretStatusHash. */
  function InterpretStatusHash(statusHash: nat): Status {
    if statusHash == 0 then UNKNOWN
    else if statusHash == FILLED_HASH then FILLED
    else if statusHash == SETTLED_HASH then SETTLED
    else Other(statusHash)
  }

  /** interpretStarknetStatus. */
  function InterpretStarknetStatus(status: felt): Status {
    if status == 0 then UNKNOWN
    else if status == FILLED_FELT then FILLED
    else if status == SETTLED_FELT then SETTLED
    else Other(status)
  }

  /** What GetOrderStatus makes of an answer. An empty Starknet answer counts as UNKNOWN. */
  function StatusIn(kind: Kind, reply: Reply): Option<Status> {
    match kind
    case Evm =>
      var res :- reply.data;
      if |res| < 32 then None else Some(InterpretStatusHash(FromBytes(res[..32])))
    case Starknet =>
      var resp :- reply.felts;
      if |resp| == 0 then Some(UNKNOWN) else Some(InterpretStarknetStatus(resp[0]))
  }

  lemma FromBytesStep(b: seq<byte>, i: nat)
    requires i < |b|
    ensures FromBytes(b[..i + 1]) == FromBytes(b[..i]) * 256 + b[i]
  {
    assert b[..i + 1][..i] == b[..i];
  }

  lemma FilledAsNumber()
    ensures FromBytes(FILLED_TEXT) == FILLED_FELT
  {
    FromBytesStep(FILLED_TEXT, 0);
    FromBytesStep(FILLED_TEXT, 1);
    FromBytesStep(FILLED_TEXT, 2);
    FromBytesStep(FILLED_TEXT, 3);
    FromBytesStep(FILLED_TEXT, 4);
    FromBytesStep(FILLED_TEXT, 5);
    assert FILLED_TEXT[..0] == [] && FILLED_TEXT[..6] == FILLED_TEXT;
  }

  lemma SettledAsNumber()
    ensures FromBytes(SETTLED_TEXT) == SETTLED_FELT
  {
    FromBytesStep(SETTLED_TEXT, 0);
    FromBytesStep(SETTLED_TEXT, 1);
    FromBytesStep(SETTLED_TEXT, 2);
    FromBytesStep(SETTLED_TEXT, 3);
    FromBytesStep(SETTLED_TEXT, 4);
    FromBytesStep(SETTLED_TEXT, 5);
    FromBytesStep(SETTLED_TEXT, 6);
    assert SETTLED_TEXT[..0] == [] && SETTLED_TEXT[..7] == SETTLED_TEXT;
  }

  lemma NameAsWord(text: seq<byte>, pad: nat)
    ensures FromBytes(text + Zeros(pad)) == FromBytes(text) * Pow256(pad)
  {
    FromBytesConcat(text, Zeros(pad));
    FromBytesZeros(pad);
  }

  /** The hard-coded hashes are the contract's bytes32 constants: an answer reads as FILLED, SETTLED or
      UNKNOWN exactly when its first 32 bytes are "FILLED" or "SETTLED" followed by zeros, or all zero. */
  lemma StatusWordsAreExact(res: seq<byte>, reply: Reply)
    requires reply.data == Some(res) && |res| >= 32
    ensures StatusIn(Evm, reply) == Some(FILLED) <==> res[..32] == FILLED_TEXT + Zeros(26)
    ensures StatusIn(Evm, reply) == Some(SETTLED) <==> res[..32] == SETTLED_TEXT + Zeros(25)
    ensures StatusIn(Evm, reply) == Some(UNKNOWN) <==> res[..32] == Zeros(32)
  {
    FilledAsNumber();
    SettledAsNumber();
    NameAsWord(FILLED_TEXT, 26);
    NameAsWord(SETTLED_TEXT, 25);
    FromBytesZeros(32);
    WordSizes();
    assert Pow256(20) == TWO128 * 0x1_00000000;
    assert Pow256(24) == TWO128 * 0x1_00000000_00000000;
    assert Pow256(26) == 256 * Pow256(25) == 65536 * Pow256(24);
    SameWord(res[..32], FILLED_TEXT + Zeros(26));
    SameWord(res[..32], SETTLED_TEXT + Zeros(25));
    SameWord(res[..32], Zeros(32));
  }

  /** The same on Starknet: the call's first felt is the name's short string; an empty answer is UNKNOWN, and only
      a call that failed gives no status. */
  lemma StarknetStatusIsExact(reply: Reply)
    ensures StatusIn(Starknet, reply).None? <==> reply.felts.None?
    ensures reply.felts.Some? ==>
              var resp := reply.felts.value;
              && (StatusIn(Starknet, reply) == Some(FILLED) <==> resp != [] && resp[0] == FromBytes(FILLED_TEXT))
              && (StatusIn(Starknet, reply) == Some(SETTLED) <==> resp != [] && resp[0] == FromBytes(SETTLED_TEXT))
              && (StatusIn(Starknet, reply) == Some(UNKNOWN) <==> resp == [] || resp[0] == 0)
  {
    FilledAsNumber();
    SettledAsNumber();
  }

  /** The texts are the names, letter by letter. */
  lemma TextsAreNames()
    ensures |FILLED_TEXT| == |"FILLED"| && forall i :: 0 <= i < 6 ==> FILLED_TEXT[i] == "FILLED"[i] as int
    ensures |SETTLED_TEXT| == |"SETTLED"| && forall i :: 0 <= i < 7 ==> SETTLED_TEXT[i] == "SETTLED"[i] as int
  {
  }

  /** An EVM answer gives no status exactly if the call failed or its answer is shorter than a word. */
  lemma EvmStatusFailsIff(reply: Reply)
    ensures StatusIn(Evm, reply).None? <==> reply.data.None? || |reply.data.value| < 32
  {
  }

  /** What counts as a success, kind by kind. */
  lemma SuccessesAre(tx: TxOutcome)
    ensures CountsAsSuccess(Evm, tx) <==> !tx.NotSent? && !tx.Reverted? && !tx.Lost?
    ensures CountsAsSuccess(Starknet, tx) <==> !tx.NotSent? && !tx.Lost?
  {
  }

  lemma SameWord(a: seq<byte>, b: seq<byte>)
    requires |a| == |b|
    ensures FromBytes(a) == FromBytes(b) <==> a == b
  {
    if FromBytes(a) == FromBytes(b) {
      FromBytesInjective(a, b);
    }
  }
}
