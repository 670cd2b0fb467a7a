/** From the order tool over the Starknet contract's event and the solver to the destination settler. */
module EndToEnd {
  import opened FeltDecoder
  import opened HyperlaneEvm
  import opened Intents
  import opened OrderEncoder
  import opened Wrappers
  import opened WireRoundTrip
  import opened WireShapes
  import Approvals
  import Handlers
  import Journal
  import Solver

  /** What the Starknet listener makes of an event, handed to the solver. */
  predicate IsHandedOver(nets: seq<Network>, w: WireOrder, args: ParsedArgs)
    requires w.Serialisable()
  {
    OrderAt(nets, Serialise(w)) == Some(args.resolvedOrder)
  }

  lemma HandedOver(nets: seq<Network>, w: WireOrder, od: StarknetOrderData, args: ParsedArgs)
    requires CarriesOrder(w, od) && Outputs(w) <= 6 && IsHandedOver(nets, w, args)
    ensures |args.resolvedOrder.fillInstructions| == 1
    ensures args.resolvedOrder.fillInstructions[0].originData == RawBytes(od) <==> Outputs(w) == 2
    ensures DecodeOrder(RawBytes(od)) == Some(Meaning(od))
  {
    DecodedRightIffTwoOutputs(nets, w, od);
    OrderSeen(nets, w);
    EncoderWritesTheOrder(od);
  }

  /** Every fill that ProcessIntent sends for an event with the order tool's bytes and an output of each kind
      carries exactly those bytes, and the destination settler decodes the order that was written. */
  lemma FillsCarryTheOrder(solver: Solver.Hyperlane7683Solver, nets: seq<Network>, w: WireOrder, od: StarknetOrderData,
                           args: ParsedArgs, start: nat, events: seq<Journal.Event>)
    requires CarriesOrder(w, od) && Outputs(w) == 2 && IsHandedOver(nets, w, args)
    requires solver.FillsGoToTheFirst(args, start, events)
    ensures forall k :: start <= k < |events| && events[k].FillSent? ==>
              events[k].data == RawBytes(od) && DecodeOrder(events[k].data) == Some(Meaning(od))
  {
    HandedOver(nets, w, od, args);
  }

  /** With up to six outputs, a fill carries the order exactly if there are two. */
  lemma SentFillCarriesTheOrderIff(solver: Solver.Hyperlane7683Solver, nets: seq<Network>, w: WireOrder,
                                   od: StarknetOrderData, args: ParsedArgs, start: nat, events: seq<Journal.Event>,
                                   k: nat)
    requires CarriesOrder(w, od) && Outputs(w) <= 6 && IsHandedOver(nets, w, args)
    requires solver.FillsGoToTheFirst(args, start, events) && start <= k < |events| && events[k].FillSent?
    ensures events[k].data == RawBytes(od) <==> Outputs(w) == 2
    ensures Outputs(w) == 2 ==> DecodeOrder(events[k].data) == Some(Meaning(od))
  {
    HandedOver(nets, w, od, args);
  }

  /** The same for one call of HyperlaneEVM.Fill, from what it promises. */
  lemma EvmFillCarriesTheOrder(h: HyperlaneEVM, nets: seq<Network>, w: WireOrder, od: StarknetOrderData,
                               args: ParsedArgs, action: Handlers.Action, before: seq<Journal.Event>, from: nat,
                               allowance: Approvals.Allowances, value: Option<nat>)
    requires CarriesOrder(w, od) && Outputs(w) == 2 && IsHandedOver(nets, w, args)
    requires h.CanTry(args) && h.FillResult(args, action, before, from, allowance, value)
    ensures h.client.log.events == before
            || (|h.client.log.events| == |before| + 1 && h.client.log.events[|before|].FillSent?
                && h.client.log.events[|before|].data == RawBytes(od)
                && DecodeOrder(h.client.log.events[|before|].data) == Some(Meaning(od)))
  {
    HandedOver(nets, w, od, args);
  }
}
