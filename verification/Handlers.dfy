/** What the handlers of both kinds of chain share (chain_handler.go). */
module Handlers {
  import opened FeltDecoder
  import opened Journal
  import opened Wrappers

  /** OrderAction; Panicked stands for a Go run-time panic. */
  datatype Action = SettleNext | Complete | Failed | Panicked

  datatype Settings = Settings(nets: seq<Network>, starknetDomain: nat, isDevnet: bool)

  /** getOriginDomain: the domain of the first network with that chain id, as uint32. */
  function DomainOf(nets: seq<Network>, chainID: nat): Option<nat> {
    if |nets| == 0 then None
    else if nets[0].chainID == chainID then Some(nets[0].domain % 0x1_00000000)
    else DomainOf(nets[1..], chainID)
  }

  lemma {:induction false} DomainOfFirst(nets: seq<Network>, chainID: nat, i: nat)
    requires i < |nets| && nets[i].chainID == chainID
    requires forall k :: 0 <= k < i ==> nets[k].chainID != chainID
    ensures DomainOf(nets, chainID) == Some(nets[i].domain % 0x1_00000000)
  {
    if i > 0 {
      DomainOfFirst(nets[1..], chainID, i - 1);
    }
  }

  lemma {:induction false} DomainOfNone(nets: seq<Network>, chainID: nat)
    ensures DomainOf(nets, chainID).None? <==> forall i :: 0 <= i < |nets| ==> nets[i].chainID != chainID
  {
    if |nets| > 0 {
      DomainOfNone(nets[1..], chainID);
      assert forall i :: 1 <= i < |nets| ==> nets[i] == nets[1..][i - 1];
    }
  }

  /** The calls log of a cleared call of this order. */
  predicate IsCleared(events: seq<Event>, order: string) {
    Monitor(events).Some? && Monitor(events).value.Cleared? && Monitor(events).value.order == order
  }

  /** The last read of the cleared call was made there and lets a fill, or a settle, follow. */
  predicate MayFillAt(events: seq<Event>, order: string, at: Site) {
    IsCleared(events, order) && Monitor(events).value.last.Read?
    && Monitor(events).value.last.at == at && MayFill(Monitor(events).value.last.status)
  }

  predicate MaySettleAt(events: seq<Event>, order: string, at: Site) {
    Monitor(events) == Some(Cleared(order, Read(at, Some(FILLED))))
  }

  /** Status reads are always allowed in a cleared call, and the last one counts. */
  lemma {:induction false} ReadsKeepGates(events: seq<Event>, seen: seq<Event>, order: string, at: Site)
    requires IsCleared(events, order) && |seen| > 0
    requires forall k :: 0 <= k < |seen| ==> seen[k].StatusRead? && seen[k].order == order && seen[k].at == at
    ensures Monitor(events + seen) == Some(Cleared(order, Read(at, seen[|seen| - 1].status)))
  {
    var n := |seen| - 1;
    if n > 0 {
      ReadsKeepGates(events, seen[..n], order, at);
    }
    MonitorSnoc(events + seen[..n], seen[n]);
    OneMoreEvent(events, seen);
  }

  lemma OneMoreEvent(events: seq<Event>, more: seq<Event>)
    requires |more| > 0
    ensures (events + more[..|more| - 1]) + [more[|more| - 1]] == events + more
    ensures |more| == 1 ==> events + more[..|more| - 1] == events
  {
  }

  /** What a settle sent: nothing, or one settle at that site whose outcome decides. */
  predicate IsSettleSent(sent: seq<Event>, order: string, at: Site) {
    sent == [] || (|sent| == 1 && sent[0].SettleSent? && sent[0].order == order && sent[0].at == at)
  }
}
