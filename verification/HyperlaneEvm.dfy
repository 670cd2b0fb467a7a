/** The handler of an EVM destination chain (hyperlane_evm.go): fill, settle and token approvals. */
module HyperlaneEvm {
  import opened Approvals
  import opened Bytes
  import opened Handlers
  import opened Hex
  import opened Integers
  import opened Intents
  import opened Journal
  import opened OrderStatus
  import opened Types
  import opened Wrappers

  /** The token contract an address text names. */
  function TokenAccount(token: string): Option<Account> {
    var address :- ToEVMAddress(token);
    Some(FromBytes(address))
  }

  /** An address printed as an event does is the number of its last 20 bytes. */
  lemma PrintedAccount(b: seq<byte>)
    requires |b| == 32
    ensures TokenAccount(Bytes32ToHexString(b)) == Some(FromBytes(b[12..]))
  {
    EventAddressRoundTrip(b);
  }

  class HyperlaneEVM {
    const client: Client
    const settings: Settings
    const addressOf: AddressOf       // types.ToEVMAddress
    var signerValue: Option<nat>     // the native amount the shared signer attaches

    constructor (client: Client, settings: Settings, addressOf: AddressOf)
      ensures this.client == client && this.settings == settings && this.addressOf == addressOf && signerValue == None
    {
      this.client, this.settings, this.addressOf, signerValue := client, settings, addressOf, None;
    }

    /** ensureTokenApproval: approve exactly the amount unless the allowance already covers it. */
    method EnsureTokenApproval(token: Account, spender: Account, amount: nat) returns (ok: bool)
      modifies client`now, client`allowance
      ensures client.now == old(client.now) + 1
      ensures ok <==> var reply := client.reply(old(client.now));
                      && !reply.fails
                      && ((token, spender) in old(client.allowance)
                          && old(client.allowance)[(token, spender)] < amount ==>
                            reply.tx.Mined?)
      ensures client.allowance in {old(client.allowance), Approve(old(client.allowance), (token, spender), amount)}
      ensures ok ==> client.allowance == Approve(old(client.allowance), (token, spender), amount)
    {
      var reply := client.reply(client.now);
      client.now := client.now + 1;
      if reply.fails {
        return false;
      }
      if (token, spender) !in client.allowance {
        return true;
      }
      var currentAllowance := client.allowance[(token, spender)];
      if currentAllowance >= amount {
        return true;
      }
      if reply.tx.Mined? || reply.tx == Lost(true) {
        client.allowance := Approve(client.allowance, (token, spender), amount);
      }
      ok := reply.tx.Mined?;
    }

    /** setupApprovals. After success the allowances are those of all requested approvals in order;
        after a failure, those of the first few. It fails only if a token is not an address or the
        chain fails. */
    method SetupApprovals(args: ParsedArgs, spender: Account) returns (ok: bool)
      requires |args.resolvedOrder.fillInstructions| > 0
      modifies client`now, client`allowance
      ensures client.now >= old(client.now)
      ensures var outputs := args.resolvedOrder.maxSpent;
              var destination := args.resolvedOrder.fillInstructions[0].destinationChainID;
              var before := old(client.allowance);
              && (ok ==> ApprovedUpTo(addressOf, outputs, destination, spender, |outputs|, before, client.allowance))
              && (exists n: nat :: n <= |outputs|
                    && ApprovedUpTo(addressOf, outputs, destination, spender, n, before, client.allowance))
              && (Requested(addressOf, outputs, destination, spender).Some? ==>
                    client.AllWell(old(client.now), client.now) ==> ok)
    {
      var outputs := args.resolvedOrder.maxSpent;
      var destination := args.resolvedOrder.fillInstructions[0].destinationChainID;
      for i := 0 to |outputs|
        invariant client.now >= old(client.now)
        invariant ApprovedUpTo(addressOf, outputs, destination, spender, i, old(client.allowance), client.allowance)
      {
        var maxSpent := outputs[i];
        ApprovedOneMore(addressOf, outputs, destination, spender, i, old(client.allowance), client.allowance);
        if maxSpent.token == "" {
          continue;
        }
        if Uint64(maxSpent.chainID) != Uint64(destination) {
          continue;
        }
        var token := addressOf(maxSpent.token);
        if token.None? {
          NothingRequested(addressOf, outputs, destination, spender, i);
          return false;
        }
        var approved := EnsureTokenApproval(token.value, spender, maxSpent.amount);
        if !approved {
          return false;
        }
      }
      ok := true;
    }

    /** There is an instruction, and its settler is an address. */
    predicate CanTry(args: ParsedArgs) {
      var instructions := args.resolvedOrder.fillInstructions;
      |instructions| > 0 && addressOf(instructions[0].destinationSettler).Some?
    }

    /** Where every call about the order goes: the first instruction's settler, on this handler's chain. */
    function SiteOf(args: ParsedArgs): Site
      requires CanTry(args)
    {
      Site(client.chain, addressOf(args.resolvedOrder.fillInstructions[0].destinationSettler).value)
    }

    /** What a fill attaches: the native amount if the first output is native, else what the signer has. */
    function AttachedValue(args: ParsedArgs, value: Option<nat>): Option<nat> {
      var outputs := args.resolvedOrder.maxSpent;
      if |outputs| > 0 && outputs[0].token == "" then Some(outputs[0].amount) else value
    }

    /** Every token to approve is an address. */
    predicate CanApprove(args: ParsedArgs)
      requires CanTry(args)
    {
      var instruction := args.resolvedOrder.fillInstructions[0];
      Requested(addressOf, args.resolvedOrder.maxSpent, instruction.destinationChainID,
                addressOf(instruction.destinationSettler).value).Some?
    }

    /** From a status read that lets it: the fill is sent or not, its receipt decides the action; it is
        sent with the value it needs and every allowance in place; and it is sent whenever the tokens
        are addresses and the chain answers well. */
    ghost predicate FillResult(args: ParsedArgs, action: Action, before: seq<Event>, from: nat,
                               allowance: Allowances, value: Option<nat>)
      requires CanTry(args)
      reads client, client.log
    {
      var tx := if client.now > 0 then client.reply(client.now - 1).tx else NotSent;
      var sent := before + [FillSent(args.orderID, SiteOf(args), args.resolvedOrder.fillInstructions[0].originData,
                                     AttachedValue(args, value), tx)];
      && client.log.events in {before, sent}
      && (action == if client.log.events == sent && tx.Mined? then SettleNext else Failed)
      && (client.log.events == sent ==> !tx.NotSent? && AllApproved(args, allowance, client.allowance))
      && (CanApprove(args) && client.AllWell(from, client.now) ==> client.log.events == sent)
    }

    /** That is: at most one fill is sent, to the settler that the first instruction names, with its data and
        the value of a native first output, else the signer's; the action goes by the receipt; and the fill is sent
        if every token to approve is an address and the chain answers well. */
    lemma FillResultIs(args: ParsedArgs, action: Action, before: seq<Event>, from: nat, allowance: Allowances,
                       value: Option<nat>)
      requires CanTry(args) && FillResult(args, action, before, from, allowance, value)
      ensures |args.resolvedOrder.fillInstructions| > 0
      ensures client.log.events == before ==> action.Failed?
      ensures client.log.events != before ==>
                && |client.log.events| == |before| + 1 && client.log.events[..|before|] == before
                && var e, instruction := client.log.events[|before|], args.resolvedOrder.fillInstructions[0];
                   var outputs := args.resolvedOrder.maxSpent;
                   && e.FillSent? && e.order == args.orderID && e.data == instruction.originData
                   && e.at.chain == client.chain && addressOf(instruction.destinationSettler) == Some(e.at.settler)
                   && e.value == (if |outputs| > 0 && |outputs[0].token| == 0 then Some(outputs[0].amount) else value)
                   && (client.now > 0 ==> e.tx == client.reply(client.now - 1).tx) && !e.tx.NotSent?
                   && action == if e.tx.Mined? then SettleNext else Failed
      ensures && (forall o <- args.resolvedOrder.maxSpent ::
                    && |o.token| > 0
                    && Uint64(o.chainID) == Uint64(args.resolvedOrder.fillInstructions[0].destinationChainID)
                    ==>
                      addressOf(o.token).Some?)
              && client.AllWell(from, client.now)
              ==>
                client.log.events != before
    {
      var instruction := args.resolvedOrder.fillInstructions[0];
      RequestedIff(addressOf, args.resolvedOrder.maxSpent, instruction.destinationChainID,
                   addressOf(instruction.destinationSettler).value);
    }

    /** When a fill is sent, the settler may spend every amount of the order on its chain that is not native. */
    lemma FillIsCovered(args: ParsedArgs, action: Action, before: seq<Event>, from: nat, allowance: Allowances,
                        value: Option<nat>, i: nat, token: Account, settler: Account)
      requires CanTry(args) && FillResult(args, action, before, from, allowance, value)
      requires client.log.events != before && i < |args.resolvedOrder.maxSpent|
      requires forall o <- args.resolvedOrder.maxSpent :: o.amount < TWO256
      requires addressOf(args.resolvedOrder.fillInstructions[0].destinationSettler) == Some(settler)
      requires var o := args.resolvedOrder.maxSpent[i];
               && |o.token| > 0 && addressOf(o.token) == Some(token) && (token, settler) in allowance
               && Uint64(o.chainID) == Uint64(args.resolvedOrder.fillInstructions[0].destinationChainID)
      ensures (token, settler) in client.allowance
      ensures client.allowance[(token, settler)] >= args.resolvedOrder.maxSpent[i].amount
    {
      var outputs := args.resolvedOrder.maxSpent;
      var destination := args.resolvedOrder.fillInstructions[0].destinationChainID;
      ApprovalsReachTheLargest(addressOf, outputs, destination, settler, allowance, client.allowance, (token, settler));
      ApprovalsCover(addressOf, outputs, destination, settler, allowance, client.allowance, outputs[i], token);
    }

    /** Fill. Exactly one status read; nothing is sent if it fails or says FILLED or SETTLED, and
        otherwise one fill, after the approvals, unless those or the sending fail. The signer's value
        is restored on every path. */
    method Fill(args: ParsedArgs) returns (action: Action)
      modifies this`signerValue, client`now, client`allowance, client.log
      ensures signerValue == old(signerValue) && client.now >= old(client.now)
      ensures old(IsCleared(client.log.events, args.orderID)) ==> IsCleared(client.log.events, args.orderID)
      ensures !CanTry(args) ==>
                && action.Failed? && client.log.events == old(client.log.events)
                && client.allowance == old(client.allowance)
      ensures CanTry(args) ==>
                var status := client.StatusAt(args.orderID, old(client.now));
                var read := old(client.log.events) + [StatusRead(args.orderID, SiteOf(args), status)];
                if MayFill(status) then
                  FillResult(args, action, read, old(client.now) + 1, old(client.allowance), old(signerValue))
                else
                  && action == (if status.None? then Failed else SettleNext)
                  && client.log.events == read && client.allowance == old(client.allowance)
      ensures var instructions := args.resolvedOrder.fillInstructions;
              if |instructions| == 0 || addressOf(instructions[0].destinationSettler).None? then
                client.log.events == old(client.log.events)
              else
                old(client.log.events)
                + [StatusRead(args.orderID, Site(client.chain, addressOf(instructions[0].destinationSettler).value),
                              client.StatusAt(args.orderID, old(client.now)))]
                <= client.log.events
    {
      if |args.resolvedOrder.fillInstructions| == 0 {
        return Failed;
      }
      var instruction := args.resolvedOrder.fillInstructions[0];
      var settler := addressOf(instruction.destinationSettler);
      if settler.None? {
        return Failed;
      }
      var status := client.GetOrderStatus(args.orderID, settler.value);
      MonitorSnoc(old(client.log.events), StatusRead(args.orderID, SiteOf(args), status));
      if status.None? {
        return Failed;
      }
      if status == Some(FILLED) {
        return SettleNext;
      }
      if status == Some(SETTLED) {
        return SettleNext;
      }
      action := ApproveAndSend(args, settler.value);
    }

    /** The rest of Fill, from the approvals on. */
    method ApproveAndSend(args: ParsedArgs, settler: Account) returns (action: Action)
      requires CanTry(args) && addressOf(args.resolvedOrder.fillInstructions[0].destinationSettler) == Some(settler)
      modifies this`signerValue, client`now, client`allowance, client.log
      ensures signerValue == old(signerValue) && client.now >= old(client.now)
      ensures FillResult(args, action, old(client.log.events), old(client.now), old(client.allowance), old(signerValue))
      ensures old(MayFillAt(client.log.events, args.orderID, SiteOf(args))) ==>
                IsCleared(client.log.events, args.orderID)
    {
      var approved := SetupApprovals(args, settler);
      if !approved {
        return Failed;
      }
      var originalValue := signerValue;
      if |args.resolvedOrder.maxSpent| > 0 && args.resolvedOrder.maxSpent[0].token == "" {
        signerValue := Some(args.resolvedOrder.maxSpent[0].amount);
      }
      var tx := client.reply(client.now).tx;
      client.now := client.now + 1;
      if !tx.NotSent? {
        var fill := FillSent(args.orderID, SiteOf(args), args.resolvedOrder.fillInstructions[0].originData,
                             signerValue, tx);
        MonitorSnoc(client.log.events, fill);
        client.log.events := client.log.events + [fill];
      }
      signerValue := originalValue;
      action := if tx.Mined? then SettleNext else Failed;
    }

    /** Every allowance the fill needs is in place. */
    ghost predicate AllApproved(args: ParsedArgs, before: Allowances, after: Allowances)
      requires CanTry(args)
    {
      var instruction, outputs := args.resolvedOrder.fillInstructions[0], args.resolvedOrder.maxSpent;
      ApprovedUpTo(addressOf, outputs, instruction.destinationChainID, addressOf(instruction.destinationSettler).value,
                   |outputs|, before, after)
    }

    /** Settling an order from Starknet is skipped on live networks. */
    predicate SkipsSettlement(domain: nat) {
      domain == settings.starknetDomain % 0x1_00000000 && !settings.isDevnet
    }

    /** With the last read FILLED and the origin's domain known: whether the settle is skipped, and the
        payment the next call quotes if it is not. */
    predicate Skips(args: ParsedArgs, last: nat) {
      var domain := DomainOf(settings.nets, args.resolvedOrder.originChainID);
      client.StatusAt(args.orderID, last) == Some(FILLED) && domain.Some? && SkipsSettlement(domain.value)
    }

    function Payment(args: ParsedArgs, last: nat): Option<nat> {
      var domain := DomainOf(settings.nets, args.resolvedOrder.originChainID);
      if client.StatusAt(args.orderID, last) == Some(FILLED) && domain.Some? && !SkipsSettlement(domain.value)
      then client.reply(last + 1).quote else None
    }

    /** From the last status read: success means that it said FILLED and then either the order comes
        from Starknet on a live network, or the gas was quoted and the settle transaction was mined; a
        settle is sent, with the quoted value, only in the latter case. */
    ghost predicate SettleResult(args: ParsedArgs, ok: bool, before: seq<Event>, last: nat)
      requires CanTry(args)
      reads client.log
    {
      var payment, tx := Payment(args, last), client.reply(last + 2).tx;
      && (ok <==> Skips(args, last) || (payment.Some? && tx.Mined?))
      && client.log.events == if payment.Some? && !tx.NotSent?
                              then before + [SettleSent(args.orderID, SiteOf(args), payment, tx)] else before
    }

    /** That is, after a FILLED read: an error if the origin's chain is unknown; nothing to send for an origin domain
        that is Starknet's unless on a devnet; otherwise one settle with the gas the next call quotes, unless that
        or the sending fails, and it has to be mined. */
    lemma SettleResultIs(args: ParsedArgs, ok: bool, before: seq<Event>, last: nat, i: nat)
      requires CanTry(args) && SettleResult(args, ok, before, last)
      requires client.StatusAt(args.orderID, last) == Some(FILLED)
      requires i < |settings.nets| && settings.nets[i].chainID == args.resolvedOrder.originChainID
      requires forall k :: 0 <= k < i ==> settings.nets[k].chainID != args.resolvedOrder.originChainID
      ensures var gas, tx := client.reply(last + 1).quote, client.reply(last + 2).tx;
              var skip := && settings.nets[i].domain % 0x1_0000_0000 == settings.starknetDomain % 0x1_0000_0000
                          && !settings.isDevnet;
              && (ok <==> skip || (gas.Some? && tx.Mined?))
              && client.log.events == if !skip && gas.Some? && !tx.NotSent?
                                      then before + [SettleSent(args.orderID, SiteOf(args), gas, tx)] else before
      ensures addressOf(args.resolvedOrder.fillInstructions[0].destinationSettler) == Some(SiteOf(args).settler)
      ensures SiteOf(args).chain == client.chain
    {
      DomainOfFirst(settings.nets, args.resolvedOrder.originChainID, i);
    }

    /** Otherwise, or without that read, it is an error and nothing is sent. */
    lemma SettleFailsIf(args: ParsedArgs, ok: bool, before: seq<Event>, last: nat)
      requires CanTry(args) && SettleResult(args, ok, before, last)
      requires client.StatusAt(args.orderID, last) != Some(FILLED)
               || forall k :: 0 <= k < |settings.nets| ==> settings.nets[k].chainID != args.resolvedOrder.originChainID
      ensures !ok && client.log.events == before
    {
      DomainOfNone(settings.nets, args.resolvedOrder.originChainID);
    }

    /** Settle. The signer's value is restored on every path. */
    method Settle(args: ParsedArgs) returns (ok: bool, ghost sent: seq<Event>)
      modifies this`signerValue, client`now, client.log
      ensures signerValue == old(signerValue) && client.now >= old(client.now)
      ensures old(IsCleared(client.log.events, args.orderID)) ==> IsCleared(client.log.events, args.orderID)
      ensures !CanTry(args) ==> !ok && client.log.events == old(client.log.events)
      ensures CanTry(args) ==>
                var last := client.LastRead(args.orderID, old(client.now));
                var read := old(client.log.events)
                            + client.Reads(args.orderID, SiteOf(args).settler, old(client.now), last + 1);
                SettleResult(args, ok, read, last)
      ensures CanTry(args) ==>
                var last := client.LastRead(args.orderID, old(client.now));
                && IsSettleSent(sent, args.orderID, SiteOf(args))
                && client.log.events == (old(client.log.events)
                                         + client.Reads(args.orderID, SiteOf(args).settler, old(client.now),
                                                        last + 1)) + sent
                && (ok <==> if sent != [] then sent[0].tx.Mined? else Skips(args, last))
    {
      sent := [];
      if |args.resolvedOrder.fillInstructions| == 0 {
        return false, sent;
      }
      var instruction := args.resolvedOrder.fillInstructions[0];
      var settler := addressOf(instruction.destinationSettler);
      if settler.None? {
        return false, sent;
      }
      var filled := client.AwaitFilled(args.orderID, settler.value);
      if !filled {
        return false, sent;
      }
      ok, sent := PayAndSettle(args);
    }

    /** The rest of Settle, once the order is known to be FILLED. */
    method PayAndSettle(args: ParsedArgs) returns (ok: bool, ghost sent: seq<Event>)
      requires CanTry(args) && client.now > 0 && client.StatusAt(args.orderID, client.now - 1) == Some(FILLED)
      modifies this`signerValue, client`now, client.log
      ensures signerValue == old(signerValue) && client.now >= old(client.now)
      ensures SettleResult(args, ok, old(client.log.events), old(client.now) - 1)
      ensures old(MaySettleAt(client.log.events, args.orderID, SiteOf(args))) ==>
                IsCleared(client.log.events, args.orderID)
      ensures IsSettleSent(sent, args.orderID, SiteOf(args)) && client.log.events == old(client.log.events) + sent
      ensures ok <==> if sent != [] then sent[0].tx.Mined? else Skips(args, old(client.now) - 1)
    {
      sent := [];
      var originDomain := DomainOf(settings.nets, args.resolvedOrder.originChainID);
      if originDomain.None? {
        return false, sent;
      }
      if originDomain.value == settings.starknetDomain % 0x1_00000000 {
        if !settings.isDevnet {
          return true, sent;
        }
      }
      var gasPayment := client.reply(client.now).quote;
      client.now := client.now + 1;
      if gasPayment.None? {
        return false, sent;
      }
      ghost var tx := client.reply(client.now).tx;
      ok := SendSettle(args.orderID, SiteOf(args), gasPayment);
      sent := if tx.NotSent? then [] else [SettleSent(args.orderID, SiteOf(args), gasPayment, tx)];
    }

    /** The settle transaction, with the payment attached for as long as it is under way. */
    method SendSettle(order: string, at: Site, gasPayment: Option<nat>) returns (ok: bool)
      modifies this`signerValue, client`now, client.log
      ensures signerValue == old(signerValue) && client.now == old(client.now) + 1
      ensures var tx := client.reply(old(client.now)).tx;
              && (ok <==> tx.Mined?)
              && client.log.events == if tx.NotSent? then old(client.log.events)
                                      else old(client.log.events) + [SettleSent(order, at, gasPayment, tx)]
      ensures old(MaySettleAt(client.log.events, order, at)) ==> IsCleared(client.log.events, order)
    {
      var originalValue := signerValue;
      signerValue := gasPayment;
      var tx := client.reply(client.now).tx;
      client.now := client.now + 1;
      if !tx.NotSent? {
        MonitorSnoc(client.log.events, SettleSent(order, at, signerValue, tx));
        client.log.events := client.log.events + [SettleSent(order, at, signerValue, tx)];
      }
      signerValue := originalValue;
      ok := tx.Mined?;
    }
  }
}
