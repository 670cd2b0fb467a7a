/** The orchestrator (solver.go): gate, fill and settle an order through per-chain handlers. */
module Solver {
  import opened Approvals
  import opened Bytes
  import opened DestinationChain
  import opened FeltDecoder
  import opened Handlers
  import opened Hex
  import opened HyperlaneEvm
  import opened HyperlaneStarknet
  import opened Integers
  import opened Intents
  import opened Journal
  import opened OrderStatus
  import opened Rules
  import opened Settlements
  import opened Types
  import opened Wrappers

  /** What a new client finds on its chain. */
  datatype Connection = Connection(reply: nat -> Reply, allowance: Allowances)

  /** isStarknetChain and isEVMChain: by the first network with that chain id. */
  function KindOf(nets: seq<Network>, chainID: int): Option<Kind> {
    if |nets| == 0 then None
    else if nets[0].chainID == Uint64(chainID) then Some(if nets[0].isStarknet then Starknet else Evm)
    else KindOf(nets[1..], chainID)
  }

  function Amounts(outputs: seq<Output>): seq<int> {
    seq(|outputs|, i requires 0 <= i < |outputs| => outputs[i].amount)
  }

  lemma AmountsAre(outputs: seq<Output>)
    ensures |Amounts(outputs)| == |outputs|
    ensures forall i :: 0 <= i < |outputs| ==> Amounts(outputs)[i] == outputs[i].amount
  {
  }

  /** A chain is of the kind that the first network with its id says; of an id no network has, of none. */
  lemma {:induction false} KindOfFirst(nets: seq<Network>, chainID: int, i: nat)
    requires i < |nets| && nets[i].chainID == Uint64(chainID)
    requires forall k :: 0 <= k < i ==> nets[k].chainID != Uint64(chainID)
    ensures KindOf(nets, chainID) == Some(if nets[i].isStarknet then Starknet else Evm)
  {
    if i > 0 {
      KindOfFirst(nets[1..], chainID, i - 1);
    }
  }

  lemma {:induction false} KindOfNone(nets: seq<Network>, chainID: int)
    ensures KindOf(nets, chainID).None? <==> forall i :: 0 <= i < |nets| ==> nets[i].chainID != Uint64(chainID)
  {
    if |nets| > 0 {
      KindOfNone(nets[1..], chainID);
      assert forall i :: 1 <= i < |nets| ==> nets[i] == nets[1..][i - 1];
    }
  }

  /** Two settlers whose last bytes differ are two accounts. */
  lemma TwoSettlers()
    ensures var a := TokenAccount(Bytes32ToHexString(Zeros(31) + [1]));
            var b := TokenAccount(Bytes32ToHexString(Zeros(31) + [2]));
            a.Some? && b.Some? && a != b
  {
    var a, b := Zeros(31) + [1], Zeros(31) + [2];
    EventAddressRoundTrip(a);
    EventAddressRoundTrip(b);
    assert a[12..][19] != b[12..][19];
    if FromBytes(a[12..]) == FromBytes(b[12..]) {
      FromBytesInjective(a[12..], b[12..]);
    }
  }

  /** A Go slice is shorter than 2^63. */
  predicate IsSized(args: ParsedArgs) {
    forall i :: 0 <= i < |args.resolvedOrder.fillInstructions| ==>
      |args.resolvedOrder.fillInstructions[i].originData| < 0x1_00000000_00000000
  }

  class Hyperlane7683Solver {
    const lists: AllowBlockLists
    const settings: Settings
    const kindOf: int -> Option<Kind>
    const evmOf: AddressOf          // types.ToEVMAddress
    const feltOf: AddressOf         // utils.HexToFelt
    const connect: (nat, int) -> Option<Connection>   // clients and signers, by number of the attempt
    const log: Log
    var attempts: nat
    var evmHandlers: map<nat, HyperlaneEVM>
    var hyperlaneStarknet: HyperlaneStarknet?
    ghost var repr: set<object>

    ghost predicate Valid()
      reads this, repr
    {
      && this in repr && log in repr
      && (forall c :: c in evmHandlers ==>
            && evmHandlers[c] in repr && evmHandlers[c].client in repr
            && evmHandlers[c].client.log == log && evmHandlers[c].settings == settings
            && evmHandlers[c].client.kind.Evm? && evmHandlers[c].client.chain == c && evmHandlers[c].addressOf == evmOf)
      && (hyperlaneStarknet != null ==>
            && hyperlaneStarknet in repr && hyperlaneStarknet.client in repr
            && hyperlaneStarknet.client.log == log && hyperlaneStarknet.settings == settings
            && hyperlaneStarknet.client.kind.Starknet? && hyperlaneStarknet.addressOf == feltOf)
    }

    constructor (lists: AllowBlockLists, settings: Settings, feltOf: AddressOf,
                 connect: (nat, int) -> Option<Connection>)
      ensures Valid() && fresh(repr) && log.events == [] && evmHandlers == map[]
      ensures this.lists == lists && this.settings == settings
      ensures forall id :: kindOf(id) == KindOf(settings.nets, id)
      ensures (forall text :: evmOf(text) == TokenAccount(text)) && this.feltOf == feltOf
    {
      var empty := new Log();
      this.lists, this.settings, this.feltOf, this.connect := lists, settings, feltOf, connect;
      kindOf := id => KindOf(settings.nets, id);
      evmOf := text => TokenAccount(text);
      log, attempts, evmHandlers, hyperlaneStarknet := empty, 0, map[], null;
      repr := {this, empty};
    }

    /** Every handler is kept, and its signer's value is what it was. */
    twostate predicate KeepsHandlers()
      reads this, repr
      requires old(Valid()) && Valid()
    {
      && (old(hyperlaneStarknet) != null ==> hyperlaneStarknet == old(hyperlaneStarknet))
      && (forall c :: c in old(evmHandlers) ==>
            && c in evmHandlers && evmHandlers[c] == old(evmHandlers[c])
            && evmHandlers[c].signerValue == old(evmHandlers[c].signerValue))
    }

    /** getEVMHandler: the chain's handler, created and stored on first use. */
    method GetEVMHandler(chainID: int) returns (handler: HyperlaneEVM?)
      requires Valid()
      modifies repr
      ensures Valid() && fresh(repr - old(repr)) && KeepsHandlers()
      ensures log.events == old(log.events) && hyperlaneStarknet == old(hyperlaneStarknet)
      ensures handler != null ==> Uint64(chainID) in evmHandlers && evmHandlers[Uint64(chainID)] == handler
      ensures Uint64(chainID) in old(evmHandlers) ==>
                handler == old(evmHandlers)[Uint64(chainID)] && evmHandlers == old(evmHandlers)
      ensures handler == null ==> evmHandlers == old(evmHandlers)
      ensures forall c :: c in evmHandlers && c != Uint64(chainID) ==> c in old(evmHandlers)
    {
      var id := Uint64(chainID);
      if id in evmHandlers {
        return evmHandlers[id];
      }
      var connection := connect(attempts, chainID);
      attempts := attempts + 1;
      if connection.None? {
        return null;
      }
      var client := new Client(Evm, id, connection.value.reply, log, connection.value.allowance);
      handler := new HyperlaneEVM(client, settings, evmOf);
      evmHandlers := evmHandlers[id := handler];
      repr := repr + {client, handler};
    }

    /** getStarknetHandler: one handler for all Starknet chains, bound to the first one asked for; its
        constructor may return nil. */
    method GetStarknetHandler(chainID: int)
      requires Valid()
      modifies repr
      ensures Valid() && fresh(repr - old(repr)) && KeepsHandlers()
      ensures log.events == old(log.events) && evmHandlers == old(evmHandlers)
      ensures old(hyperlaneStarknet) == null && hyperlaneStarknet != null ==>
                hyperlaneStarknet.client.chain == Uint64(chainID)
    {
      if hyperlaneStarknet != null {
        return;
      }
      var connection := connect(attempts, chainID);
      attempts := attempts + 1;
      if connection.None? {
        return;
      }
      var client := new Client(Starknet, Uint64(chainID), connection.value.reply, log, connection.value.allowance);
      var handler := new HyperlaneStarknet(client, settings, feltOf);
      hyperlaneStarknet := handler;
      repr := repr + {client, handler};
    }

    /** Where an operation on that chain is carried out: always at the first instruction's settler; on
        Starknet, on the chain of the one handler. */
    function LegOf(args: ParsedArgs, chainID: int): Option<Leg>
      reads this
    {
      if |InstructionsOf(args)| == 0 || kindOf(chainID).None? then None
      else
        var text := InstructionsOf(args)[0].destinationSettler;
        match kindOf(chainID).value
        case Evm => if evmOf(text).Some? then Some(Leg(Evm, Site(Uint64(chainID), evmOf(text).value))) else None
        case Starknet =>
          if feltOf(text).Some? && hyperlaneStarknet != null
          then Some(Leg(Starknet, Site(hyperlaneStarknet.client.chain, feltOf(text).value))) else None
    }

    /** That is: of a chain whose network is EVM or Starknet, at the settler the first instruction names. */
    lemma LegOfIs(args: ParsedArgs, chainID: int)
      ensures LegOf(args, chainID).Some? ==>
                var leg, text := LegOf(args, chainID).value, args.resolvedOrder.fillInstructions[0].destinationSettler;
                && |args.resolvedOrder.fillInstructions| > 0 && kindOf(chainID) == Some(leg.kind)
                && (leg.kind == Evm ==> leg.at.chain == Uint64(chainID) && evmOf(text) == Some(leg.at.settler))
                && (leg.kind == Starknet ==>
                      && hyperlaneStarknet != null && leg.at.chain == hyperlaneStarknet.client.chain
                      && feltOf(text) == Some(leg.at.settler))
    {
    }

    /** An instruction's own settler and chain. */
    function OwnSite(args: ParsedArgs, i: nat): Option<Site>
      requires i < |InstructionsOf(args)|
    {
      var instruction := InstructionsOf(args)[i];
      var kind :- kindOf(instruction.destinationChainID);
      var settler :- (if kind.Evm? then evmOf else feltOf)(instruction.destinationSettler);
      Some(Site(Uint64(instruction.destinationChainID), settler))
    }

    /** executeChainOperation. */
    method ExecuteChainOperation(args: ParsedArgs, chainID: int, operation: Operation) returns (action: Action)
      requires Valid() && IsSized(args)
      modifies repr
      ensures Valid() && fresh(repr - old(repr)) && KeepsHandlers()
      ensures Operated(args, settings, LegOf(args, chainID), operation, action, old(log.events), log.events)
      ensures action.Panicked? ==> hyperlaneStarknet == null
    {
      match kindOf(chainID)
      case None =>
        return Failed;
      case Some(Starknet) =>
        GetStarknetHandler(chainID);
        if hyperlaneStarknet == null {
          return Panicked;
        }
        if operation.Fill? {
          action := FillOnStarknet(args, chainID);
        } else {
          action := SettleOnStarknet(args, chainID);
        }
      case Some(Evm) =>
        var handler := GetEVMHandler(chainID);
        if handler == null {
          return Failed;
        }
        if operation.Fill? {
          action := FillOnEVM(handler, args, chainID);
        } else {
          action := SettleOnEVM(handler, args, chainID);
        }
    }

    method FillOnEVM(handler: HyperlaneEVM, args: ParsedArgs, chainID: int) returns (action: Action)
      requires Valid() && kindOf(chainID) == Some(Evm)
      requires Uint64(chainID) in evmHandlers && evmHandlers[Uint64(chainID)] == handler
      modifies repr
      ensures Valid() && repr == old(repr) && KeepsHandlers()
      ensures Operated(args, settings, LegOf(args, chainID), Operation.Fill, action, old(log.events), log.events)
      ensures !action.Panicked?
    {
      ghost var before, from := log.events, handler.client.now;
      action := handler.Fill(args);
      if handler.CanTry(args) {
        ghost var leg := LegOf(args, chainID).value;
        FillOperated(args, settings, leg, action, before,
                     StatusRead(args.orderID, leg.at, handler.client.StatusAt(args.orderID, from)), log.events);
      }
    }

    method SettleOnEVM(handler: HyperlaneEVM, args: ParsedArgs, chainID: int) returns (action: Action)
      requires Valid() && kindOf(chainID) == Some(Evm)
      requires Uint64(chainID) in evmHandlers && evmHandlers[Uint64(chainID)] == handler
      modifies repr
      ensures Valid() && repr == old(repr) && KeepsHandlers()
      ensures Operated(args, settings, LegOf(args, chainID), Operation.Settle, action, old(log.events), log.events)
      ensures !action.Panicked?
    {
      ghost var before, from := log.events, handler.client.now;
      var ok: bool;
      ghost var sent;
      ok, sent := handler.Settle(args);
      action := if ok then Complete else Failed;
      if handler.CanTry(args) {
        ghost var leg, client := LegOf(args, chainID).value, handler.client;
        ghost var last := client.LastRead(args.orderID, from);
        client.ReadsAre(args.orderID, leg.at.settler, from, last + 1);
        SettleOperated(args, settings, leg, action, before, client.Reads(args.orderID, leg.at.settler, from, last + 1),
                       sent, log.events);
      }
    }

    method FillOnStarknet(args: ParsedArgs, chainID: int) returns (action: Action)
      requires Valid() && hyperlaneStarknet != null && IsSized(args) && kindOf(chainID) == Some(Starknet)
      modifies repr
      ensures Valid() && repr == old(repr) && KeepsHandlers()
      ensures Operated(args, settings, LegOf(args, chainID), Operation.Fill, action, old(log.events), log.events)
      ensures !action.Panicked?
    {
      ghost var before, from := log.events, hyperlaneStarknet.client.now;
      action := hyperlaneStarknet.Fill(args);
      if hyperlaneStarknet.CanTry(args) {
        ghost var leg := LegOf(args, chainID).value;
        FillOperated(args, settings, leg, action, before,
                     StatusRead(args.orderID, leg.at, hyperlaneStarknet.client.StatusAt(args.orderID, from)),
                     log.events);
      }
    }

    method SettleOnStarknet(args: ParsedArgs, chainID: int) returns (action: Action)
      requires Valid() && hyperlaneStarknet != null && kindOf(chainID) == Some(Starknet)
      modifies repr
      ensures Valid() && repr == old(repr) && KeepsHandlers()
      ensures Operated(args, settings, LegOf(args, chainID), Operation.Settle, action, old(log.events), log.events)
      ensures !action.Panicked?
    {
      ghost var before, from := log.events, hyperlaneStarknet.client.now;
      var ok: bool;
      ghost var sent;
      ok, sent := hyperlaneStarknet.Settle(args);
      action := if ok then Complete else Failed;
      if hyperlaneStarknet.CanTry(args) {
        ghost var leg, client := LegOf(args, chainID).value, hyperlaneStarknet.client;
        ghost var last := client.LastRead(args.orderID, from);
        client.ReadsAre(args.orderID, leg.at.settler, from, last + 1);
        SettleOperated(args, settings, leg, action, before, client.Reads(args.orderID, leg.at.settler, from, last + 1),
                       sent, log.events);
      }
    }

    /** Fill. No handler answers Complete, so the first instruction decides: at most one status read and
        one fill, at its own settler, and success exactly with the order read as filled or a fill that
        counts as a success. */
    method Fill(args: ParsedArgs) returns (action: Action)
      requires Valid() && IsSized(args)
      modifies repr
      ensures Valid() && fresh(repr - old(repr)) && KeepsHandlers()
      ensures |InstructionsOf(args)| == 0 ==> action.Failed? && log.events == old(log.events)
      ensures |InstructionsOf(args)| > 0 ==>
                Operated(args, settings, LegOf(args, InstructionsOf(args)[0].destinationChainID), Operation.Fill,
                         action, old(log.events), log.events)
      ensures action.Panicked? ==> hyperlaneStarknet == null
    {
      var instructions := args.resolvedOrder.fillInstructions;
      if |instructions| == 0 {
        return Failed;
      }
      for i := 0 to |instructions|
        invariant i == 0 && Valid() && repr == old(repr) && KeepsHandlers() && log.events == old(log.events)
      {
        action := ExecuteChainOperation(args, instructions[i].destinationChainID, Operation.Fill);
        if action.Failed? || action.Panicked? {
          return;
        }
        if action.SettleNext? {
          return;
        }
        assert false; // Complete would go on to the next instruction
      }
      action := Complete;
    }

    /** The legs of the first instructions. */
    ghost predicate AreLegs(args: ParsedArgs, legs: seq<Leg>)
      reads this
    {
      |legs| <= |InstructionsOf(args)|
      && forall i :: 0 <= i < |legs| ==> LegOf(args, InstructionsOf(args)[i].destinationChainID) == Some(legs[i])
    }

    /** An event of one of the operations of a settlement. */
    ghost predicate IsSettling(args: ParsedArgs, e: Event) {
      !e.Begin? && !e.ListsAllow? && !e.RulesPass? && !e.FillSent? && e.order == args.orderID
    }

    /** One instruction's settlement. */
    method SettleOne(args: ParsedArgs, i: nat, ghost start: nat, ghost legs: seq<Leg>, ghost marks: seq<nat>)
      returns (action: Action, ghost legs': seq<Leg>, ghost marks': seq<nat>)
      requires Valid() && IsSized(args) && i < |InstructionsOf(args)| && |marks| == i && start <= |log.events|
      requires AreLegs(args, legs) && SettledSoFar(args, settings, legs, start, log.events, marks)
      modifies repr
      ensures Valid() && fresh(repr - old(repr)) && KeepsHandlers()
      ensures old(log.events) <= log.events && !action.SettleNext?
      ensures old(IsCleared(log.events, args.orderID)) ==> IsCleared(log.events, args.orderID)
      ensures forall k :: |old(log.events)| <= k < |log.events| ==> IsSettling(args, log.events[k])
      ensures AreLegs(args, legs') && |marks'| == if action.Complete? then i + 1 else i
      ensures SettledSoFar(args, settings, legs', start, log.events, marks')
      ensures action.Panicked? ==> hyperlaneStarknet == null
    {
      ghost var before := log.events;
      var chainID := InstructionsOf(args)[i].destinationChainID;
      action := ExecuteChainOperation(args, chainID, Operation.Settle);
      legs', marks' := legs, marks;
      if action.Complete? {
        OneMoreSettled(args, settings, legs, start, before, log.events, marks, LegOf(args, chainID).value);
        legs', marks' := legs + [LegOf(args, chainID).value], marks + [|log.events|];
      } else {
        SettledStays(args, settings, legs, start, before, log.events, marks);
      }
    }

    /** SettleOrder: every instruction is settled on its chain, one after the other, up to the first
        failure. Each mark is the length of the log when one more of them had been settled. */
    method SettleOrder(args: ParsedArgs) returns (r: Outcome, ghost legs: seq<Leg>, ghost marks: seq<nat>)
      requires Valid() && IsSized(args)
      modifies repr
      ensures Valid() && fresh(repr - old(repr)) && KeepsHandlers()
      ensures old(log.events) <= log.events
      ensures old(IsCleared(log.events, args.orderID)) ==> IsCleared(log.events, args.orderID)
      ensures forall k :: |old(log.events)| <= k < |log.events| ==> IsSettling(args, log.events[k])
      ensures AreLegs(args, legs)
      ensures r.Done? <==> AllSettled(args, settings, legs, |old(log.events)|, log.events, marks)
      ensures r.Panic? ==> hyperlaneStarknet == null
    {
      var instructions := args.resolvedOrder.fillInstructions;
      legs, marks := [], [];
      if |instructions| == 0 {
        return NotDone, legs, marks;
      }
      for i := 0 to |instructions|
        invariant Valid() && fresh(repr - old(repr)) && KeepsHandlers()
        invariant old(log.events) <= log.events
        invariant old(IsCleared(log.events, args.orderID)) ==> IsCleared(log.events, args.orderID)
        invariant forall k :: |old(log.events)| <= k < |log.events| ==> IsSettling(args, log.events[k])
        invariant |marks| == i && AreLegs(args, legs)
        invariant SettledSoFar(args, settings, legs, |old(log.events)|, log.events, marks)
      {
        var action: Action;
        action, legs, marks := SettleOne(args, i, |old(log.events)|, legs, marks);
        if action.Panicked? {
          return Panic, legs, marks;
        }
        if action.Failed? {
          return NotDone, legs, marks;
        }
      }
      r := Done;
    }

    /** EvaluateAll: the balance rule, then the profitability rule. It looks at the first instruction
        before any rule, and panics if there is none. */
    method EvaluateAll(args: ParsedArgs, hasBalance: bool) returns (passed: Option<bool>)
      ensures passed.None? <==> |args.resolvedOrder.fillInstructions| == 0
      ensures passed.Some? ==> (passed.value <==> RulesAccept(args, hasBalance))
      ensures passed == Some(true) <==>
                && |args.resolvedOrder.fillInstructions| > 0 && hasBalance
                && args.resolvedOrder.maxSpent != [] && args.resolvedOrder.minReceived != []
                && Sum(Amounts(args.resolvedOrder.minReceived))
                   % 0x1_00000000_00000000_00000000_00000000_00000000_00000000_00000000_00000000
                   > Sum(Amounts(args.resolvedOrder.maxSpent))
                     % 0x1_00000000_00000000_00000000_00000000_00000000_00000000_00000000_00000000
    {
      RulesAcceptIff(args, hasBalance);
      if |args.resolvedOrder.fillInstructions| == 0 {
        return None;
      }
      if !hasBalance {
        return Some(false);
      }
      var verdict := EvaluateProfitability(Amounts(args.resolvedOrder.maxSpent),
                                           Amounts(args.resolvedOrder.minReceived));
      passed := Some(verdict.Passed?);
    }

    predicate RulesAccept(args: ParsedArgs, hasBalance: bool) {
      hasBalance && Passes(Amounts(args.resolvedOrder.maxSpent), Amounts(args.resolvedOrder.minReceived))
    }

    /** The rules accept an order exactly if there is a balance for it, both lists have outputs, and what is
        received leaves more than what is spent modulo 2^256. */
    lemma RulesAcceptIff(args: ParsedArgs, hasBalance: bool)
      ensures RulesAccept(args, hasBalance) <==>
                && hasBalance && args.resolvedOrder.maxSpent != [] && args.resolvedOrder.minReceived != []
                && Sum(Amounts(args.resolvedOrder.minReceived))
                   % 0x1_00000000_00000000_00000000_00000000_00000000_00000000_00000000_00000000
                   > Sum(Amounts(args.resolvedOrder.maxSpent))
                     % 0x1_00000000_00000000_00000000_00000000_00000000_00000000_00000000_00000000
    {
    }

    /** With sums that fit, they accept it exactly if it receives more than it spends. */
    lemma FittingOrderIsAcceptedIff(args: ParsedArgs, hasBalance: bool)
      requires 0 <= Sum(Amounts(args.resolvedOrder.maxSpent)) < TWO256
      requires 0 <= Sum(Amounts(args.resolvedOrder.minReceived)) < TWO256
      ensures RulesAccept(args, hasBalance) <==>
                && hasBalance && args.resolvedOrder.maxSpent != [] && args.resolvedOrder.minReceived != []
                && Sum(Amounts(args.resolvedOrder.minReceived)) > Sum(Amounts(args.resolvedOrder.maxSpent))
    {
      RulesAcceptIff(args, hasBalance);
    }

    lemma FittingOrders(args: ParsedArgs, hasBalance: bool)
      ensures 0 <= Sum(Amounts(args.resolvedOrder.minReceived)) <= Sum(Amounts(args.resolvedOrder.maxSpent)) < TWO256
              ==> !RulesAccept(args, hasBalance)
      ensures 0 <= Sum(Amounts(args.resolvedOrder.maxSpent)) < Sum(Amounts(args.resolvedOrder.minReceived)) < TWO256
              && args.resolvedOrder.maxSpent != [] && hasBalance ==>
                RulesAccept(args, hasBalance)
    {
      RulesAcceptIff(args, hasBalance);
      assert Amounts([]) == [];
    }

    method Record(e: Event)
      requires Valid()
      modifies log
      ensures Valid() && log.events == old(log.events) + [e]
      ensures Monitor(log.events)
           == if old(Monitor(log.events)).Some? then Next(old(Monitor(log.events)).value, e) else None
    {
      MonitorSnoc(log.events, e);
      log.events := log.events + [e];
    }

    /** Fills go to the first instruction's leg, with its origin data. */
    ghost predicate FillsGoToTheFirst(args: ParsedArgs, start: nat, events: seq<Event>)
      reads this
    {
      forall k :: start <= k < |events| && events[k].FillSent? ==>
        && |InstructionsOf(args)| > 0
        && LegOf(args, InstructionsOf(args)[0].destinationChainID).Some?
        && IsAbout(args, LegOf(args, InstructionsOf(args)[0].destinationChainID).value.at, events[k])
    }

    /** The fill's read says SETTLED at the first instruction's leg, and no later read there FILLED. */
    ghost predicate ReadsStaySettled(args: ParsedArgs, start: nat, events: seq<Event>)
      reads this
    {
      && |InstructionsOf(args)| > 0 && LegOf(args, InstructionsOf(args)[0].destinationChainID).Some?
      && StaysSettled(events, start, LegOf(args, InstructionsOf(args)[0].destinationChainID).value.at)
    }

    /** ProcessIntent. Whatever the chains answer, no send breaks the gating rule and fills only go to
        the first instruction's settler. True means exactly that the lists and the rules accepted the
        order, that it then counted as filled, and that after that every instruction counted as settled
        at its leg. An order without instructions that the lists allow is a panic. An order whose fill
        reads SETTLED is never done unless a later read goes back to FILLED, and if it never reads as
        anything else nothing is sent for it, whatever reads fail. */
    method ProcessIntent(args: ParsedArgs, hasBalance: bool)
      returns (r: Outcome, ghost filled: nat, ghost legs: seq<Leg>, ghost marks: seq<nat>)
      requires Valid() && IsSized(args)
      modifies repr
      ensures Valid() && fresh(repr - old(repr)) && KeepsHandlers()
      ensures old(log.events) + [Begin(args.orderID)] <= log.events
      ensures old(Monitor(log.events)).Some? ==> Monitor(log.events).Some?
      ensures FillsGoToTheFirst(args, |old(log.events)|, log.events) && AreLegs(args, legs)
      ensures !Allows(lists, args) ==> r.NotDone? && log.events == old(log.events) + [Begin(args.orderID)]
      ensures Allows(lists, args) && |InstructionsOf(args)| == 0 ==> r.Panic?
      ensures Allows(lists, args) && |InstructionsOf(args)| > 0 && !RulesAccept(args, hasBalance) ==>
                r.NotDone? && log.events == old(log.events) + [Begin(args.orderID), ListsAllow(args.orderID)]
      ensures r.Done? <==>
              && Allows(lists, args) && |InstructionsOf(args)| > 0 && RulesAccept(args, hasBalance)
              && FilledThenSettled(args, settings, legs, |old(log.events)|, log.events, filled, marks)
      ensures r.Panic? ==> |InstructionsOf(args)| == 0 || hyperlaneStarknet == null
      ensures old(Monitor(log.events)).Some? && OnlySettledReads(log.events, |old(log.events)|) ==>
                !r.Done? && forall k :: |old(log.events)| <= k < |log.events| ==> !IsSend(log.events[k])
      ensures old(Monitor(log.events)).Some? && ReadsStaySettled(args, |old(log.events)|, log.events) ==> !r.Done?
      ensures 0 <= Sum(Amounts(args.resolvedOrder.minReceived)) <= Sum(Amounts(args.resolvedOrder.maxSpent)) < TWO256
              ==> !r.Done? && StopsAtTheRules(log.events[|old(log.events)|..])
      ensures Allows(lists, args) && |InstructionsOf(args)| > 0 && hasBalance && args.resolvedOrder.maxSpent != []
              && 0 <= Sum(Amounts(args.resolvedOrder.maxSpent)) < Sum(Amounts(args.resolvedOrder.minReceived)) < TWO256
              ==>
                old(log.events) + [Begin(args.orderID), ListsAllow(args.orderID), RulesPass(args.orderID)] <= log.events
    {
      FittingOrders(args, hasBalance);
      filled, legs, marks := 0, [], [];
      ghost var start := |log.events|;
      var ended := PassGates(args, hasBalance);
      if ended.Some? {
        r := ended.value;
      } else {
        r, filled, legs, marks := FillAndSettle(args);
      }
      SettledMeansNotDone(args, start, legs, log.events, filled, marks, r.Done?);
    }

    /** The rules do not pass and nothing is sent. */
    ghost predicate StopsAtTheRules(events: seq<Event>) {
      forall e <- events :: !e.RulesPass? && !e.FillSent? && !e.SettleSent?
    }

    /** What a call for a SETTLED order does not do. */
    lemma SettledMeansNotDone(args: ParsedArgs, start: nat, legs: seq<Leg>, events: seq<Event>, filled: nat,
                              marks: seq<nat>, done: bool)
      requires start < |events| && events[start].Begin? && AreLegs(args, legs)
      requires done ==> FilledThenSettled(args, settings, legs, start, events, filled, marks)
      ensures Monitor(events).Some? && OnlySettledReads(events, start) ==>
                !done && forall k :: start <= k < |events| ==> !IsSend(events[k])
      ensures Monitor(events).Some? && ReadsStaySettled(args, start, events) ==> !done
    {
      if Monitor(events).Some? && OnlySettledReads(events, start) {
        SettledOrderIsNeverDone(args, settings, legs, start, events, filled, marks);
      }
      if Monitor(events).Some? && ReadsStaySettled(args, start, events) && |legs| > 0 {
        SettledStaysNeverDone(args, settings, legs, start, events, filled, marks);
      }
    }

    /** The lists and the rules; None if the order passes. */
    method PassGates(args: ParsedArgs, hasBalance: bool) returns (ended: Option<Outcome>)
      requires Valid()
      modifies log
      ensures Valid()
      ensures old(Monitor(log.events)).Some? ==> Monitor(log.events).Some?
      ensures var begun := old(log.events) + [Begin(args.orderID)];
              if !Allows(lists, args) then ended == Some(NotDone) && log.events == begun
              else if |InstructionsOf(args)| == 0 then
                ended == Some(Panic) && log.events == begun + [ListsAllow(args.orderID)]
              else if !RulesAccept(args, hasBalance) then
                ended == Some(NotDone) && log.events == begun + [ListsAllow(args.orderID)]
              else
                && ended.None? && log.events == begun + [ListsAllow(args.orderID)] + [RulesPass(args.orderID)]
                && (old(Monitor(log.events)).Some? ==> IsCleared(log.events, args.orderID))
    {
      Record(Begin(args.orderID));
      var allowed := IsAllowedIntent(lists, args);
      if !allowed {
        return Some(NotDone);
      }
      Record(ListsAllow(args.orderID));
      var passed := EvaluateAll(args, hasBalance);
      if passed.None? {
        return Some(Panic);
      }
      if !passed.value {
        return Some(NotDone);
      }
      Record(RulesPass(args.orderID));
      ended := None;
    }

    /** The rest of ProcessIntent, once the order is cleared. */
    method FillAndSettle(args: ParsedArgs)
      returns (r: Outcome, ghost filled: nat, ghost legs: seq<Leg>, ghost marks: seq<nat>)
      requires Valid() && IsSized(args) && |InstructionsOf(args)| > 0
      modifies repr
      ensures Valid() && fresh(repr - old(repr)) && KeepsHandlers()
      ensures old(log.events) <= log.events
      ensures old(IsCleared(log.events, args.orderID)) ==> IsCleared(log.events, args.orderID)
      ensures FillsGoToTheFirst(args, |old(log.events)|, log.events) && AreLegs(args, legs)
      ensures r.Done? ==> FilledThenSettled(args, settings, legs, |old(log.events)|, log.events, filled, marks)
      ensures !r.Done? ==> forall start :: !FilledThenSettled(args, settings, legs, start, log.events, filled, marks)
      ensures r.Panic? ==> hyperlaneStarknet == null
    {
      filled, legs, marks := 0, [], [];
      var action := Fill(args); // never Complete
      if action.Failed? {
        return NotDone, filled, legs, marks;
      }
      if action.Panicked? {
        return Panic, filled, legs, marks;
      }
      filled := |log.events|;
      ghost var after := log.events;
      r, legs, marks := SettleOrder(args);
      assert log.events[..filled] == after;
    }

    // ----------------------------------------------------------- the right settler

    /** An instruction's settler is the first one's, and on Starknet its chain is the handler's. */
    predicate AgreesWithFirst(args: ParsedArgs, i: nat)
      requires i < |InstructionsOf(args)|
      reads this
    {
      var own, first := InstructionsOf(args)[i], InstructionsOf(args)[0];
      match kindOf(own.destinationChainID)
      case None => false
      case Some(Evm) =>
        evmOf(own.destinationSettler).Some? && evmOf(own.destinationSettler) == evmOf(first.destinationSettler)
      case Some(Starknet) =>
        && feltOf(own.destinationSettler).Some? && feltOf(own.destinationSettler) == feltOf(first.destinationSettler)
        && hyperlaneStarknet != null && hyperlaneStarknet.client.chain == Uint64(own.destinationChainID)
    }

    /** A done order had its i-th instruction settled at that instruction's own settler and chain exactly
        if the settler is the first instruction's, and on Starknet the chain the handler's. */
    lemma SettledAtItsOwnIff(args: ParsedArgs, start: nat, legs: seq<Leg>, events: seq<Event>, filled: nat,
                             marks: seq<nat>, i: nat)
      requires AreLegs(args, legs) && FilledThenSettled(args, settings, legs, start, events, filled, marks)
                && i < |marks|
      ensures OwnSite(args, i) == Some(events[marks[i] - 1].at) <==> AgreesWithFirst(args, i)
    {
      SettledWhereIff(args, settings, legs, filled, events, marks, i, legs[i].at);
      assert LegOf(args, InstructionsOf(args)[i].destinationChainID) == Some(legs[i]);
    }

    /** So every instruction is settled at its own settler exactly if all agree with the first; with one
        instruction on an EVM chain they do. */
    lemma AllSettledAtTheirOwnIff(args: ParsedArgs, start: nat, legs: seq<Leg>, events: seq<Event>, filled: nat,
                                  marks: seq<nat>)
      requires AreLegs(args, legs) && FilledThenSettled(args, settings, legs, start, events, filled, marks)
      ensures (forall i :: 0 <= i < |marks| ==> OwnSite(args, i) == Some(events[marks[i] - 1].at))
         <==> (forall i :: 0 <= i < |marks| ==> AgreesWithFirst(args, i))
      ensures |InstructionsOf(args)| == 1 && kindOf(InstructionsOf(args)[0].destinationChainID) == Some(Evm) ==>
                AgreesWithFirst(args, 0)
    {
      forall i | 0 <= i < |marks|
        ensures OwnSite(args, i) == Some(events[marks[i] - 1].at) <==> AgreesWithFirst(args, i)
      {
        SettledAtItsOwnIff(args, start, legs, events, filled, marks, i);
      }
      assert LegOf(args, InstructionsOf(args)[0].destinationChainID) == Some(legs[0]);
    }

    /** Two instructions on EVM chains with two settlers, such as those of TwoSettlers: whenever the order
        is done, the second one was settled at the first one's settler, and no fill went to its own. */
    lemma SecondSettlerIsPassedOver(args: ParsedArgs, start: nat, legs: seq<Leg>, events: seq<Event>, filled: nat,
                                    marks: seq<nat>, own: Site)
      requires |InstructionsOf(args)| == 2 && kindOf(InstructionsOf(args)[0].destinationChainID) == Some(Evm)
      requires kindOf(InstructionsOf(args)[1].destinationChainID) == Some(Evm)
      requires evmOf(InstructionsOf(args)[0].destinationSettler) != evmOf(InstructionsOf(args)[1].destinationSettler)
      requires AreLegs(args, legs) && FilledThenSettled(args, settings, legs, start, events, filled, marks)
      requires FillsGoToTheFirst(args, start, events) && OwnSite(args, 1) == Some(own)
      ensures events[marks[1] - 1].at != own
      ensures forall k :: start <= k < |events| && events[k].FillSent? ==> events[k].at != own
    {
      SettledAtItsOwnIff(args, start, legs, events, filled, marks, 1);
    }
  }
}
