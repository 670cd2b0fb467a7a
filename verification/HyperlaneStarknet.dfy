/** The handler of a Starknet destination (hyperlane_starknet.go): the calldata of a fill, fill, settle
    and token approvals. */
module HyperlaneStarknet {
  import opened Approvals
  import opened Bytes
  import opened DestinationChain
  import opened FeltDecoder
  import opened Handlers
  import opened Hex
  import opened Intents
  import opened Journal
  import opened OrderStatus
  import opened StarknetUtil
  import opened Integers
  import opened Wrappers

  /** The arguments of the Cairo entry point fill(order_id: u256, origin_data: Bytes, filler_data: Bytes). */
  datatype FillArguments = FillArguments(idLow: nat, idHigh: nat, originData: seq<byte>, fillerData: seq<byte>)

  /** Cairo's deserialisation of a Bytes value at i: size, word count, words. */
  function ReadBytes(calldata: seq<felt>, i: nat): Option<(seq<byte>, nat)> {
    if i + 2 > |calldata| || i + 2 + calldata[i + 1] > |calldata| then None
    else
      var ws := calldata[i + 2..i + 2 + calldata[i + 1]];
      if exists k :: 0 <= k < |ws| && ws[k] >= TWO128 then None
      else
        var b :- UnpackWords(calldata[i], ws);
        Some((b, i + 2 + calldata[i + 1]))
  }

  function ReadFillArguments(calldata: seq<felt>): Option<FillArguments> {
    if |calldata| < 2 || calldata[0] >= TWO128 || calldata[1] >= TWO128 then None
    else
      var (origin, i) :- ReadBytes(calldata, 2);
      var (filler, j) :- ReadBytes(calldata, i);
      if j == |calldata| then Some(FillArguments(calldata[0], calldata[1], origin, filler)) else None
  }

  /** Fill's calldata: order id halves, the origin data as Cairo Bytes, empty filler data. */
  method FillCalldata(orderID: string, originData: seq<byte>) returns (r: Option<seq<felt>>)
    requires |originData| < 0x1_00000000_00000000
    ensures r.Some? <==> OrderIdFelts(orderID).Some?
    ensures r.Some? ==>
              var (low, high), words := OrderIdFelts(orderID).value, PackWords(originData);
              r.value == [low as felt, high, |originData|, |words|] + words + [0, 0]
    ensures r.Some? ==> ReadFillArguments(r.value) == Some(FillArguments(
              OrderIdFelts(orderID).value.0, OrderIdFelts(orderID).value.1, originData, []))
  {
    var words := BytesToU128Felts(originData);
    var id :- ConvertSolidityOrderIDForStarknet(orderID);
    var (orderIDLow, orderIDHigh) := id;
    var size: felt, count: felt := |originData|, |words|;
    var calldata: seq<felt> := [orderIDLow, orderIDHigh, size, count];
    calldata := calldata + words;
    calldata := calldata + [0, 0];
    CalldataReadsBack(orderIDLow, orderIDHigh, originData, calldata);
    r := Some(calldata);
  }

  lemma CalldataReadsBack(low: u128, high: u128, origin: seq<byte>, calldata: seq<felt>)
    requires |origin| < 0x1_00000000_00000000
    requires calldata == [low as felt, high, |origin|, WordCount(|origin|)] + PackWords(origin) + [0, 0]
    ensures ReadFillArguments(calldata) == Some(FillArguments(low, high, origin, []))
  {
    var n := WordCount(|origin|);
    assert calldata[2] == |origin| && calldata[3] == n;
    assert calldata[4..4 + n] == PackWords(origin);
    PackingIsLossless(origin);
    assert ReadBytes(calldata, 2) == Some((origin, 4 + n));
    EmptyBytes(calldata, 4 + n);
  }

  lemma EmptyBytes(calldata: seq<felt>, i: nat)
    requires i + 2 == |calldata| && calldata[i] == 0 && calldata[i + 1] == 0
    ensures ReadBytes(calldata, i) == Some(([], i + 2))
  {
    assert calldata[i + 2..i + 2] == [];
    var all := Flatten(seq(0, i requires 0 <= i < 0 => []));
    assert all[..0] == [];
  }

  // ------------------------------------------------------------- the handler

  /** The hard-coded ETH contract. */
  const ETH_ADDRESS: Account := 0x49d36570d4e46f48e99674bd3fcc84644ddd6b96f7c741b1562b82f9e004dc7

  /** What ensureTokenApproval and ensureETHApproval answer: a token without code is an error here, and
      so is an amount that is not a u256; of the transaction only the wait for its receipt counts. */
  predicate ApprovalCounts(allowance: Allowances, key: (Account, Account), amount: nat, reply: Reply) {
    && !reply.fails && key in allowance
    && (allowance[key] < amount ==> amount < TWO256 && CountsAsSuccess(Starknet, reply.tx))
  }

  /** Case by case: no usable answer or no code, an allowance that suffices, and one that does not. */
  lemma ApprovalCountsIff(allowance: Allowances, key: (Account, Account), amount: nat, reply: Reply)
    ensures reply.fails || key !in allowance ==> !ApprovalCounts(allowance, key, amount, reply)
    ensures !reply.fails && key in allowance && allowance[key] >= amount ==>
              ApprovalCounts(allowance, key, amount, reply)
    ensures !reply.fails && key in allowance && allowance[key] < amount ==>
              (ApprovalCounts(allowance, key, amount, reply) <==>
                 amount < TWO256 && (reply.tx.Mined? || reply.tx.Reverted?))
  {
  }

  lemma AfterApprovalIs(allowance: Allowances, key: (Account, Account), amount: nat, reply: Reply)
    ensures var after := AfterApproval(allowance, key, amount, reply);
            && after.Keys == allowance.Keys
            && (forall other :: other in allowance && other != key ==> after[other] == allowance[other])
            && (key in allowance && !reply.fails && allowance[key] < amount < TWO256
                && (reply.tx.Mined? || reply.tx == Lost(true)) ==>
                  after[key] == amount)
            && (key in allowance && (reply.fails || allowance[key] >= amount || amount >= TWO256
                                     || (!reply.tx.Mined? && reply.tx != Lost(true))) ==>
                  after[key] == allowance[key])
  {
  }

  /** What they do: a reverted approval does nothing, although it counts. */
  function AfterApproval(allowance: Allowances, key: (Account, Account), amount: nat, reply: Reply): Allowances {
    if !reply.fails && amount < TWO256 && (reply.tx.Mined? || reply.tx == Lost(true))
    then Approve(allowance, key, amount)
    else allowance
  }

  class HyperlaneStarknet {
    const client: Client
    const settings: Settings
    const addressOf: AddressOf       // utils.HexToFelt
    var calldata: seq<felt>          // of the last fill sent

    constructor (client: Client, settings: Settings, addressOf: AddressOf)
      ensures this.client == client && this.settings == settings && this.addressOf == addressOf
    {
      this.client, this.settings, this.addressOf, calldata := client, settings, addressOf, [];
    }

    method EnsureTokenApproval(token: Account, spender: Account, amount: nat) returns (ok: bool)
      modifies client`now, client`allowance
      ensures client.now == old(client.now) + 1
      ensures ok <==> ApprovalCounts(old(client.allowance), (token, spender), amount, client.reply(old(client.now)))
      ensures ok <==> var reply, key := client.reply(old(client.now)), (token, spender);
                      && !reply.fails && key in old(client.allowance)
                      && (old(client.allowance)[key] < amount ==>
                            amount < TWO256 && (reply.tx.Mined? || reply.tx.Reverted?))
      ensures client.allowance
           == AfterApproval(old(client.allowance), (token, spender), amount, client.reply(old(client.now)))
    {
      var reply := client.reply(client.now);
      client.now := client.now + 1;
      if reply.fails || (token, spender) !in client.allowance {
        return false;
      }
      var current := client.allowance[(token, spender)];
      if current >= amount {
        return true;
      }
      if amount >= TWO256 {
        return false;
      }
      if reply.tx.Mined? || reply.tx == Lost(true) {
        client.allowance := Approve(client.allowance, (token, spender), amount);
      }
      ok := reply.tx.Mined? || reply.tx.Reverted?;
    }

    /** The token exists on this chain, and the amount is a u256. */
    predicate IsApprovable(o: Output, spender: Account)
      reads client`allowance
    {
      addressOf(o.token).Some? && (addressOf(o.token).value, spender) in client.allowance && o.amount < TWO256
    }

    ghost predicate Approvable(outputs: seq<Output>, destination: int, spender: Account)
      reads client`allowance
    {
      forall i :: 0 <= i < |outputs| && IsRelevant(outputs[i], destination) ==> IsApprovable(outputs[i], spender)
    }

    /** The first n outputs' approvals were sent with the calls from from on; those that reverted did
        nothing. */
    ghost predicate SentUpTo(outputs: seq<Output>, destination: int, spender: Account, n: nat, from: nat,
                             before: Allowances, after: Allowances)
      requires n <= |outputs|
    {
      TakenUpTo(addressOf, outputs, destination, spender, n, client.Took(from), before, after)
    }

    /** One approval of setupApprovals. */
    method ApproveOne(outputs: seq<Output>, destination: int, spender: Account, i: nat, token: Account, ghost from: nat,
                      ghost before: Allowances)
      returns (ok: bool)
      requires i < |outputs| && IsRelevant(outputs[i], destination) && addressOf(outputs[i].token) == Some(token)
      requires SentUpTo(outputs, destination, spender, i, from, before, client.allowance)
      requires client.now == from + CountUpTo(addressOf, outputs, destination, spender, i)
      modifies client`now, client`allowance
      ensures client.now == old(client.now) + 1 && client.allowance.Keys == old(client.allowance).Keys
      ensures ok ==>
                && SentUpTo(outputs, destination, spender, i + 1, from, before, client.allowance)
                && client.now == from + CountUpTo(addressOf, outputs, destination, spender, i + 1)
      ensures !ok ==>
                || SentUpTo(outputs, destination, spender, i, from, before, client.allowance)
                || SentUpTo(outputs, destination, spender, i + 1, from, before, client.allowance)
      ensures old(IsApprovable(outputs[i], spender)) && client.AllWell(old(client.now), client.now) ==> ok
    {
      TakenOneMore(addressOf, outputs, destination, spender, i, client.Took(from), before, client.allowance);
      ok := EnsureTokenApproval(token, spender, outputs[i].amount);
    }

    /** setupApprovals: as on an EVM chain, but every token to approve has to exist, and a reverted
        approval counts as made. */
    method SetupApprovals(args: ParsedArgs, spender: Account) returns (ok: bool)
      requires |args.resolvedOrder.fillInstructions| > 0
      modifies client`now, client`allowance
      ensures client.now >= old(client.now)
      ensures var outputs := args.resolvedOrder.maxSpent;
              var destination := args.resolvedOrder.fillInstructions[0].destinationChainID;
              var from, before := old(client.now), old(client.allowance);
              && (ok ==> SentUpTo(outputs, destination, spender, |outputs|, from, before, client.allowance))
              && (exists n: nat :: n <= |outputs|
                    && SentUpTo(outputs, destination, spender, n, from, before, client.allowance))
              && (old(Approvable(outputs, destination, spender)) && client.AllWell(from, client.now) ==> ok)
    {
      var outputs := args.resolvedOrder.maxSpent;
      var destination := args.resolvedOrder.fillInstructions[0].destinationChainID;
      ghost var from, before := client.now, client.allowance;
      for i := 0 to |outputs|
        invariant client.now == from + CountUpTo(addressOf, outputs, destination, spender, i)
        invariant SentUpTo(outputs, destination, spender, i, from, before, client.allowance)
        invariant client.allowance.Keys == before.Keys
      {
        var maxSpent := outputs[i];
        TakenOneMore(addressOf, outputs, destination, spender, i, client.Took(from), before, client.allowance);
        if maxSpent.token == "" {
          continue;
        }
        if Uint64(maxSpent.chainID) != Uint64(destination) {
          continue;
        }
        var token := addressOf(maxSpent.token);
        if token.None? {
          assert !old(IsApprovable(maxSpent, spender));
          return false;
        }
        assert old(IsApprovable(maxSpent, spender)) ==> IsApprovable(maxSpent, spender);
        var approved := ApproveOne(outputs, destination, spender, i, token.value, from, before);
        if !approved {
          return false;
        }
      }
      ok := true;
    }

    predicate CanTry(args: ParsedArgs) {
      var instructions := args.resolvedOrder.fillInstructions;
      |instructions| > 0 && addressOf(instructions[0].destinationSettler).Some?
    }

    /** Where every call about the order goes: the first instruction's settler, on the chain of this one
        handler. */
    function SiteOf(args: ParsedArgs): Site
      requires CanTry(args)
    {
      Site(client.chain, addressOf(args.resolvedOrder.fillInstructions[0].destinationSettler).value)
    }

    /** The order can be filled if the chain answers well. */
    ghost predicate CanSend(args: ParsedArgs)
      requires CanTry(args)
      reads client`allowance
    {
      var instruction := args.resolvedOrder.fillInstructions[0];
      && OrderIdFelts(args.orderID).Some?
      && Approvable(args.resolvedOrder.maxSpent, instruction.destinationChainID, SiteOf(args).settler)
    }

    /** The order's id, the origin data and no filler data, in Cairo's serialisation. */
    predicate IsCallFor(args: ParsedArgs)
      requires CanTry(args)
      reads this`calldata
    {
      var id := OrderIdFelts(args.orderID);
      id.Some? && ReadFillArguments(calldata)
               == Some(FillArguments(id.value.0, id.value.1, args.resolvedOrder.fillInstructions[0].originData, []))
    }

    /** Every approval the fill needs was sent with the calls from from on. */
    ghost predicate AllSent(args: ParsedArgs, from: nat, before: Allowances, after: Allowances)
      requires CanTry(args)
    {
      var instruction, outputs := args.resolvedOrder.fillInstructions[0], args.resolvedOrder.maxSpent;
      SentUpTo(outputs, instruction.destinationChainID, SiteOf(args).settler, |outputs|, from, before, after)
    }

    /** From a status read that lets it: the fill is sent or not; it is sent with every approval made and
        with calldata that reads back, as the Cairo entry point reads it, as the order's id, the
        instruction's origin data and no filler data; it is sent whenever the order can be filled and the
        chain answers well; and it asks for settlement if it was mined or if it reverted. */
    ghost predicate FillResult(args: ParsedArgs, action: Action, before: seq<Event>, from: nat,
                               allowance: Allowances, canSend: bool)
      requires CanTry(args)
      reads this, client, client.log
    {
      var tx := if client.now > 0 then client.reply(client.now - 1).tx else NotSent;
      var sent := before + [FillSent(args.orderID, SiteOf(args), args.resolvedOrder.fillInstructions[0].originData,
                                     None, tx)];
      && client.log.events in {before, sent}
      && (action == if client.log.events == sent && CountsAsSuccess(Starknet, tx) then SettleNext else Failed)
      && (client.log.events == sent ==> IsCallFor(args) && AllSent(args, from, allowance, client.allowance))
      && (canSend && client.AllWell(from, client.now) ==> client.log.events == sent)
    }

    /** That is: at most one fill is sent, to the settler that the first instruction names, with its data and
        without value, and with calldata that reads back as the two halves of the order's id, that data and no
        filler data; and the action goes by the transaction, which counts if it has a receipt. */
    lemma FillResultIs(args: ParsedArgs, action: Action, before: seq<Event>, from: nat, allowance: Allowances,
                       canSend: bool)
      requires CanTry(args) && FillResult(args, action, before, from, allowance, canSend)
      ensures |args.resolvedOrder.fillInstructions| > 0
      ensures client.log.events == before ==> action.Failed?
      ensures client.log.events != before ==>
                && |client.log.events| == |before| + 1 && client.log.events[..|before|] == before
                && var e, instruction := client.log.events[|before|], args.resolvedOrder.fillInstructions[0];
                   && e.FillSent? && e.order == args.orderID && e.data == instruction.originData && e.value == None
                   && e.at.chain == client.chain && addressOf(instruction.destinationSettler) == Some(e.at.settler)
                   && (client.now > 0 ==> e.tx == client.reply(client.now - 1).tx)
                   && action == if e.tx.Mined? || e.tx.Reverted? then SettleNext else Failed
      ensures client.log.events != before ==>
                && HexToBN(args.orderID).Some? && ReadFillArguments(calldata).Some?
                && var fill := ReadFillArguments(calldata).value;
                   && fill.originData == args.resolvedOrder.fillInstructions[0].originData && fill.fillerData == []
                   && (HexToBN(args.orderID).value < TWO256 ==>
                         fill.idLow + fill.idHigh * TWO128 == HexToBN(args.orderID).value)
      ensures canSend && client.AllWell(from, client.now) ==> client.log.events != before
    {
      OrderIdFeltsAre(args.orderID);
    }

    /** The order can be filled exactly if its id is a number and every token to approve is an address of a token
        that exists on this chain, with an amount that is a u256. */
    lemma CanSendIff(args: ParsedArgs)
      requires CanTry(args)
      ensures CanSend(args) <==>
                var outputs, instruction := args.resolvedOrder.maxSpent, args.resolvedOrder.fillInstructions[0];
                && HexToBN(args.orderID).Some?
                && forall o <- outputs :: |o.token| > 0 && Uint64(o.chainID) == Uint64(instruction.destinationChainID)
                     ==>
                       && addressOf(o.token).Some? && o.amount < TWO256
                       && (addressOf(o.token).value, addressOf(instruction.destinationSettler).value)
                          in client.allowance
    {
      OrderIdFeltsAre(args.orderID);
      var outputs := args.resolvedOrder.maxSpent;
      assert forall i :: 0 <= i < |outputs| ==> outputs[i] in outputs;
    }

    /** When a fill is sent and no approval reverted, the settler may spend every amount of the order on its
        chain. */
    lemma FillIsCovered(args: ParsedArgs, action: Action, before: seq<Event>, from: nat, allowance: Allowances,
                        canSend: bool, i: nat, token: Account, settler: Account)
      requires CanTry(args) && FillResult(args, action, before, from, allowance, canSend)
      requires client.log.events != before && i < |args.resolvedOrder.maxSpent|
      requires forall k :: k >= from ==> !client.reply(k).tx.Reverted?
      requires forall o <- args.resolvedOrder.maxSpent :: o.amount < TWO256
      requires addressOf(args.resolvedOrder.fillInstructions[0].destinationSettler) == Some(settler)
      requires var o := args.resolvedOrder.maxSpent[i];
               && |o.token| > 0 && addressOf(o.token) == Some(token) && (token, settler) in allowance
               && Uint64(o.chainID) == Uint64(args.resolvedOrder.fillInstructions[0].destinationChainID)
      ensures (token, settler) in client.allowance
      ensures client.allowance[(token, settler)] >= args.resolvedOrder.maxSpent[i].amount
    {
      var outputs := args.resolvedOrder.maxSpent;
      var destination := args.resolvedOrder.fillInstructions[0].destinationChainID;
      TakenCover(addressOf, outputs, destination, settler, client.Took(from), allowance, client.allowance,
                 outputs[i], token);
    }

    /** Fill: the same gates as on an EVM chain. */
    method Fill(args: ParsedArgs) returns (action: Action)
      requires forall i :: 0 <= i < |args.resolvedOrder.fillInstructions| ==>
                 |args.resolvedOrder.fillInstructions[i].originData| < 0x1_00000000_00000000
      modifies this`calldata, client`now, client`allowance, client.log
      ensures client.now >= old(client.now)
      ensures old(IsCleared(client.log.events, args.orderID)) ==> IsCleared(client.log.events, args.orderID)
      ensures !CanTry(args) ==>
                && action.Failed? && client.log.events == old(client.log.events)
                && client.allowance == old(client.allowance)
      ensures CanTry(args) ==>
                var status := client.StatusAt(args.orderID, old(client.now));
                var read := old(client.log.events) + [StatusRead(args.orderID, SiteOf(args), status)];
                if MayFill(status) then
                  FillResult(args, action, read, old(client.now) + 1, old(client.allowance), old(CanSend(args)))
                else
                  && action == (if status.None? then Failed else SettleNext)
                  && client.log.events == read && client.allowance == old(client.allowance)
      ensures var instructions := args.resolvedOrder.fillInstructions;
              if |instructions| == 0 || addressOf(instructions[0].destinationSettler).None? then
                client.log.events == old(client.log.events)
              else
                old(client.log.events)
                + [StatusRead(args.orderID, Site(client.chain, addressOf(instructions[0].destinationSettler).value),
                              client.StatusAt(args.orderID, old(client.now)))]
                <= client.log.events
    {
      if |args.resolvedOrder.fillInstructions| == 0 {
        return Failed;
      }
      var instruction := args.resolvedOrder.fillInstructions[0];
      var settler := addressOf(instruction.destinationSettler);
      if settler.None? {
        return Failed;
      }
      var ended := PreCheck(args);
      if ended.Some? {
        return ended.value;
      }
      action := ApproveAndSend(args);
    }

    /** Fill's status check: None if the order may be filled. */
    method PreCheck(args: ParsedArgs) returns (ended: Option<Action>)
      requires CanTry(args)
      modifies client`now, client.log
      ensures client.now == old(client.now) + 1
      ensures var status := client.StatusAt(args.orderID, old(client.now));
              && client.log.events == old(client.log.events) + [StatusRead(args.orderID, SiteOf(args), status)]
              && ended == (if MayFill(status) then None else if status.None? then Some(Failed) else Some(SettleNext))
      ensures old(IsCleared(client.log.events, args.orderID)) ==>
                && IsCleared(client.log.events, args.orderID)
                && (ended.None? ==> MayFillAt(client.log.events, args.orderID, SiteOf(args)))
    {
      var status := client.GetOrderStatus(args.orderID, SiteOf(args).settler);
      MonitorSnoc(old(client.log.events), StatusRead(args.orderID, SiteOf(args), status));
      if status.None? {
        return Some(Failed);
      }
      if status == Some(FILLED) {
        return Some(SettleNext);
      }
      if status == Some(SETTLED) {
        return Some(SettleNext);
      }
      ended := None;
    }

    /** The rest of Fill, from the approvals on. */
    method ApproveAndSend(args: ParsedArgs) returns (action: Action)
      requires CanTry(args) && |args.resolvedOrder.fillInstructions[0].originData| < 0x1_00000000_00000000
      modifies this`calldata, client`now, client`allowance, client.log
      ensures client.now >= old(client.now)
      ensures FillResult(args, action, old(client.log.events), old(client.now), old(client.allowance),
                         old(CanSend(args)))
      ensures old(MayFillAt(client.log.events, args.orderID, SiteOf(args))) ==>
                IsCleared(client.log.events, args.orderID)
    {
      var approved := SetupApprovals(args, SiteOf(args).settler);
      if !approved {
        return Failed;
      }
      action := SendFill(args);
    }

    /** From the calldata on. */
    method SendFill(args: ParsedArgs) returns (action: Action)
      requires CanTry(args) && |args.resolvedOrder.fillInstructions[0].originData| < 0x1_00000000_00000000
      modifies this`calldata, client`now, client.log
      ensures client.now == old(client.now) + 1
      ensures var tx, id := client.reply(old(client.now)).tx, OrderIdFelts(args.orderID);
              var sent := old(client.log.events)
                          + [FillSent(args.orderID, SiteOf(args), args.resolvedOrder.fillInstructions[0].originData,
                                      None, tx)];
              && client.log.events == (if id.Some? && !tx.NotSent? then sent else old(client.log.events))
              && (client.log.events == sent ==> IsCallFor(args))
              && action == (if id.Some? && CountsAsSuccess(Starknet, tx) then SettleNext else Failed)
      ensures old(MayFillAt(client.log.events, args.orderID, SiteOf(args))) ==>
                IsCleared(client.log.events, args.orderID)
    {
      var r := FillCalldata(args.orderID, args.resolvedOrder.fillInstructions[0].originData);
      var tx := client.reply(client.now).tx;
      client.now := client.now + 1;
      if r.None? || tx.NotSent? {
        return Failed;
      }
      calldata := r.value;
      var fill := FillSent(args.orderID, SiteOf(args), args.resolvedOrder.fillInstructions[0].originData, None, tx);
      MonitorSnoc(client.log.events, fill);
      client.log.events := client.log.events + [fill];
      action := if tx.Mined? || tx.Reverted? then SettleNext else Failed;
    }

    /** The settle can be sent: the origin's domain and the order's id can be told, the call quotes the
        gas, and the ETH approval of the next one counts. */
    predicate CanPay(args: ParsedArgs, from: nat, allowance: Allowances)
      requires CanTry(args)
    {
      var payment := client.reply(from).quote;
      && DomainOf(settings.nets, args.resolvedOrder.originChainID).Some? && OrderIdFelts(args.orderID).Some?
      && payment.Some?
      && ApprovalCounts(allowance, (ETH_ADDRESS, SiteOf(args).settler), payment.value, client.reply(from + 1))
    }

    /** With FILLED read before the call from: the settle is sent exactly if it can be paid and does not
        fail to be sent, with the quoted payment, and it counts as done if it was mined or if it reverted. */
    ghost predicate SettleResult(args: ParsedArgs, ok: bool, before: seq<Event>, from: nat, allowance: Allowances)
      requires CanTry(args)
      reads client.log
    {
      var payment, tx := client.reply(from).quote, client.reply(from + 2).tx;
      && (ok <==> CanPay(args, from, allowance) && CountsAsSuccess(Starknet, tx))
      && client.log.events == if CanPay(args, from, allowance) && !tx.NotSent?
                              then before + [SettleSent(args.orderID, SiteOf(args), payment, tx)] else before
    }

    /** That is: an error if the origin's chain or the order's id is unknown, the call quotes no gas, or the ETH
        approval fails; otherwise one settle is sent with the quoted gas, unless sending fails, and any receipt
        counts. */
    lemma SettleResultIs(args: ParsedArgs, ok: bool, before: seq<Event>, from: nat, allowance: Allowances)
      requires CanTry(args) && SettleResult(args, ok, before, from, allowance)
      ensures var gas, approve, tx := client.reply(from).quote, client.reply(from + 1), client.reply(from + 2).tx;
              var key := (ETH_ADDRESS, SiteOf(args).settler);
              var payable := && (exists i :: 0 <= i < |settings.nets|
                                             && settings.nets[i].chainID == args.resolvedOrder.originChainID)
                             && HexToBN(args.orderID).Some? && gas.Some? && !approve.fails && key in allowance
                             && (allowance[key] >= gas.value
                                 || (gas.value < TWO256 && (approve.tx.Mined? || approve.tx.Reverted?)));
              && (ok <==> payable && (tx.Mined? || tx.Reverted?))
              && client.log.events == if payable && !tx.NotSent?
                                      then before + [SettleSent(args.orderID, SiteOf(args), gas, tx)] else before
      ensures addressOf(args.resolvedOrder.fillInstructions[0].destinationSettler) == Some(SiteOf(args).settler)
      ensures SiteOf(args).chain == client.chain
    {
      DomainOfNone(settings.nets, args.resolvedOrder.originChainID);
      OrderIdFeltsAre(args.orderID);
    }

    /** Settle. */
    method Settle(args: ParsedArgs) returns (ok: bool, ghost sent: seq<Event>)
      modifies client`now, client`allowance, client.log
      ensures client.now >= old(client.now)
      ensures old(IsCleared(client.log.events, args.orderID)) ==> IsCleared(client.log.events, args.orderID)
      ensures !CanTry(args) ==> !ok && client.log.events == old(client.log.events)
      ensures CanTry(args) ==>
                var last := client.LastRead(args.orderID, old(client.now));
                var read := old(client.log.events)
                            + client.Reads(args.orderID, SiteOf(args).settler, old(client.now), last + 1);
                if client.StatusAt(args.orderID, last) == Some(FILLED) then
                  SettleResult(args, ok, read, last + 1, old(client.allowance))
                else !ok && client.log.events == read
      ensures CanTry(args) ==>
                var last := client.LastRead(args.orderID, old(client.now));
                && IsSettleSent(sent, args.orderID, SiteOf(args))
                && client.log.events == (old(client.log.events)
                                         + client.Reads(args.orderID, SiteOf(args).settler, old(client.now),
                                                        last + 1)) + sent
                && (ok <==> if sent != [] then CountsAsSuccess(Starknet, sent[0].tx) else false)
    {
      sent := [];
      if |args.resolvedOrder.fillInstructions| == 0 {
        return false, sent;
      }
      var settler := addressOf(args.resolvedOrder.fillInstructions[0].destinationSettler);
      if settler.None? {
        return false, sent;
      }
      var filled := client.AwaitFilled(args.orderID, settler.value);
      if !filled {
        return false, sent;
      }
      ok, sent := PayAndSettle(args);
    }

    /** The rest of Settle, once the order is known to be FILLED. */
    method PayAndSettle(args: ParsedArgs) returns (ok: bool, ghost sent: seq<Event>)
      requires CanTry(args)
      modifies client`now, client`allowance, client.log
      ensures client.now >= old(client.now)
      ensures SettleResult(args, ok, old(client.log.events), old(client.now), old(client.allowance))
      ensures old(MaySettleAt(client.log.events, args.orderID, SiteOf(args))) ==>
                IsCleared(client.log.events, args.orderID)
      ensures IsSettleSent(sent, args.orderID, SiteOf(args)) && client.log.events == old(client.log.events) + sent
      ensures ok <==> if sent != [] then CountsAsSuccess(Starknet, sent[0].tx) else false
    {
      sent := [];
      var originDomain := DomainOf(settings.nets, args.resolvedOrder.originChainID);
      if originDomain.None? {
        return false, sent;
      }
      var gasPayment := client.reply(client.now).quote;
      client.now := client.now + 1;
      if gasPayment.None? {
        return false, sent;
      }
      var approved := EnsureTokenApproval(ETH_ADDRESS, SiteOf(args).settler, gasPayment.value);
      if !approved {
        return false, sent;
      }
      var id := ConvertSolidityOrderIDForStarknet(args.orderID);
      if id.None? {
        return false, sent;
      }
      ghost var tx := client.reply(client.now).tx;
      ok := SendSettle(args.orderID, SiteOf(args), gasPayment);
      sent := if tx.NotSent? then [] else [SettleSent(args.orderID, SiteOf(args), gasPayment, tx)];
    }

    /** The settle transaction; the payment is part of its calldata. */
    method SendSettle(order: string, at: Site, gasPayment: Option<nat>) returns (ok: bool)
      modifies client`now, client.log
      ensures client.now == old(client.now) + 1
      ensures var tx := client.reply(old(client.now)).tx;
              && (ok <==> CountsAsSuccess(Starknet, tx))
              && client.log.events == if tx.NotSent? then old(client.log.events)
                                      else old(client.log.events) + [SettleSent(order, at, gasPayment, tx)]
      ensures old(MaySettleAt(client.log.events, order, at)) ==> IsCleared(client.log.events, order)
    {
      var tx := client.reply(client.now).tx;
      client.now := client.now + 1;
      if !tx.NotSent? {
        MonitorSnoc(client.log.events, SettleSent(order, at, gasPayment, tx));
        client.log.events := client.log.events + [SettleSent(order, at, gasPayment, tx)];
      }
      ok := tx.Mined? || tx.Reverted?;
    }

    /** A settle that reverted is reported as done. */
    lemma RevertedSettleCounts(args: ParsedArgs, ok: bool, before: seq<Event>, from: nat, allowance: Allowances)
      requires CanTry(args) && SettleResult(args, ok, before, from, allowance)
      requires CanPay(args, from, allowance) && client.reply(from + 2).tx.Reverted?
      ensures ok && client.log.events
                    == before + [SettleSent(args.orderID, SiteOf(args), client.reply(from).quote, Reverted)]
    {
    }
  }
}
