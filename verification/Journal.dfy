/** What the solver does to the outside world, in order, and the gating rule it has to keep. */
module Journal {
  import opened Bytes
  import opened Wrappers

  /** An order's status as the handlers interpret it; Other is any word they do not know. */
  datatype Status = UNKNOWN | FILLED | SETTLED | Other(word: nat)

  /** What becomes of a transaction. Lost: the caller is told of a failure while the transaction is on
      its way, and it may still be mined. */
  datatype TxOutcome = NotSent | Reverted | Lost(mined: bool) | Mined

  /** A settler contract on a chain. */
  datatype Site = Site(chain: nat, settler: nat)

  /** value is the native amount sent along, or on Starknet the amount in the calldata. */
  datatype Event =
    | Begin(order: string)        // ProcessIntent is called
    | ListsAllow(order: string)
    | RulesPass(order: string)
    | StatusRead(order: string, at: Site, status: Option<Status>)
    | FillSent(order: string, at: Site, data: seq<byte>, value: Option<nat>, tx: TxOutcome)
    | SettleSent(order: string, at: Site, value: Option<nat>, tx: TxOutcome)

  predicate IsSend(e: Event) {
    e.FillSent? || e.SettleSent?
  }

  /** The last status read since the last send. */
  datatype LastRead = NoRead | Read(at: Site, status: Option<Status>)

  /** How far the current call has got. */
  datatype Phase =
    | Outside
    | Begun(order: string)
    | Allowed(order: string)
    | Cleared(order: string, last: LastRead)

  predicate MayFill(read: Option<Status>) {
    read.Some? && !read.value.FILLED? && !read.value.SETTLED?
  }

  lemma MayFillIff(read: Option<Status>)
    ensures MayFill(read) <==> read != None && read != Some(FILLED) && read != Some(SETTLED)
  {
  }

  function Next(p: Phase, e: Event): Option<Phase> {
    match e
    case Begin(o) => Some(Begun(o))
    case ListsAllow(o) => if p == Begun(o) then Some(Allowed(o)) else None
    case RulesPass(o) => if p == Allowed(o) then Some(Cleared(o, NoRead)) else None
    case StatusRead(o, at, status) => if p.Cleared? && p.order == o then Some(Cleared(o, Read(at, status))) else None
    case FillSent(o, at, _, _, _) =>
      if p.Cleared? && p.order == o && p.last.Read? && p.last.at == at && MayFill(p.last.status)
      then Some(Cleared(o, NoRead)) else None
    case SettleSent(o, at, _, _) => if p == Cleared(o, Read(at, Some(FILLED))) then Some(Cleared(o, NoRead)) else None
  }

  /** The phase after those events, or None if one of them was not allowed. */
  function Monitor(events: seq<Event>): Option<Phase> {
    if |events| == 0 then Some(Outside)
    else
      var p :- Monitor(events[..|events| - 1]);
      Next(p, events[|events| - 1])
  }

  lemma MonitorSnoc(events: seq<Event>, e: Event)
    ensures Monitor(events + [e]) == if Monitor(events).Some? then Next(Monitor(events).value, e) else None
  {
    assert (events + [e])[..|events|] == events;
  }

  lemma {:induction false} MonitorPrefix(events: seq<Event>, i: nat)
    requires i <= |events| && Monitor(events).Some?
    ensures Monitor(events[..i]).Some?
  {
    if i == |events| {
      assert events[..i] == events;
    } else {
      MonitorPrefix(events[..|events| - 1], i);
      assert events[..|events| - 1][..i] == events[..i];
    }
  }

  /** What a phase says about the events before it: begin is the call, lists, rules and read the
      events that opened each gate. */
  ghost predicate Opened(events: seq<Event>, p: Phase, begin: nat, lists: nat, rules: nat, read: nat) {
    && (!p.Outside? ==>
          begin < |events| && events[begin] == Begin(p.order) && forall k :: begin < k < |events| ==> !events[k].Begin?)
    && (p.Allowed? || p.Cleared? ==> begin < lists < |events| && events[lists] == ListsAllow(p.order))
    && (p.Cleared? ==> lists < rules < |events| && events[rules] == RulesPass(p.order))
    && (p.Cleared? && p.last.Read? ==>
          && rules < read < |events| && events[read] == StatusRead(p.order, p.last.at, p.last.status)
          && forall k :: read < k < |events| ==> !IsSend(events[k]) && !events[k].StatusRead?)
  }

  lemma OneMoreOpened(before: seq<Event>, e: Event, p: Phase, begin: nat, lists: nat, rules: nat, read: nat)
    requires Opened(before, p, begin, lists, rules, read) && Next(p, e).Some?
    ensures var n := |before|;
            Opened(before + [e], Next(p, e).value, if e.Begin? then n else begin, if e.ListsAllow? then n else lists,
                   if e.RulesPass? then n else rules, if e.StatusRead? then n else read)
  {
    var events := before + [e];
    assert forall k :: 0 <= k < |before| ==> events[k] == before[k];
  }

  lemma {:induction false} PhaseMeans(events: seq<Event>) returns (begin: nat, lists: nat, rules: nat, read: nat)
    requires Monitor(events).Some?
    ensures Opened(events, Monitor(events).value, begin, lists, rules, read)
  {
    if |events| == 0 {
      return 0, 0, 0, 0;
    }
    var n := |events| - 1;
    var e := events[n];
    begin, lists, rules, read := PhaseMeans(events[..n]);
    OneMoreOpened(events[..n], e, Monitor(events[..n]).value, begin, lists, rules, read);
    assert events[..n] + [e] == events;
    begin, lists := if e.Begin? then n else begin, if e.ListsAllow? then n else lists;
    rules, read := if e.RulesPass? then n else rules, if e.StatusRead? then n else read;
  }

  /** In a sequence of events that breaks no rule, every fill was sent after, in this order and in
      the same call, the lists allowed the order, all rules passed, and a status read at the same
      settler and chain gave neither FILLED nor SETTLED, with no send or read in between; and every
      settle after such a read that gave FILLED. */
  lemma SendsAreGated(events: seq<Event>, i: nat) returns (begin: nat, lists: nat, rules: nat, read: nat)
    requires i < |events| && Monitor(events).Some? && IsSend(events[i])
    ensures begin < lists < rules < read < i
    ensures var o := events[i].order;
            && events[begin] == Begin(o) && events[lists] == ListsAllow(o) && events[rules] == RulesPass(o)
            && events[read].StatusRead? && events[read].order == o && events[read].at == events[i].at
            && (events[i].FillSent? ==>
                  && MayFill(events[read].status) && events[read].status.Some?
                  && events[read].status != Some(FILLED) && events[read].status != Some(SETTLED))
            && (events[i].SettleSent? ==> events[read].status == Some(FILLED))
    ensures forall k :: begin < k < i ==> !events[k].Begin?
    ensures forall k :: read < k < i ==> !IsSend(events[k]) && !events[k].StatusRead?
  {
    MonitorPrefix(events, i + 1);
    assert events[..i + 1][..i] == events[..i];
    MonitorPrefix(events, i);
    begin, lists, rules, read := PhaseMeans(events[..i]);
  }

  /** Every status read from position start on fails or says SETTLED. */
  predicate OnlySettledReads(events: seq<Event>, start: nat) {
    forall k :: start <= k < |events| && events[k].StatusRead? ==>
      events[k].status.None? || events[k].status == Some(SETTLED)
  }

  /** For an order that never reads as anything but SETTLED nothing is sent, whatever reads fail. */
  lemma SettledSendsNothing(events: seq<Event>, start: nat)
    requires Monitor(events).Some? && start < |events| && events[start].Begin? && OnlySettledReads(events, start)
    ensures forall k :: start <= k < |events| ==> !IsSend(events[k])
  {
    forall k | start <= k < |events|
      ensures !IsSend(events[k])
    {
      if IsSend(events[k]) {
        var begin, lists, rules, read := SendsAreGated(events, k);
      }
    }
  }

  function SettlesSent(events: seq<Event>): nat {
    if |events| == 0 then 0
    else SettlesSent(events[..|events| - 1]) + if events[|events| - 1].SettleSent? then 1 else 0
  }

  function FilledReads(events: seq<Event>): nat {
    if |events| == 0 then 0
    else
      var last := events[|events| - 1];
      FilledReads(events[..|events| - 1]) + if last.StatusRead? && last.status == Some(FILLED) then 1 else 0
  }

  /** The last read of the current call said FILLED, and nothing was sent since. */
  predicate MaySettle(p: Phase) {
    p.Cleared? && p.last.Read? && p.last.status == Some(FILLED)
  }

  /** At most one settle is sent for every status read that says FILLED, over all calls. */
  lemma {:induction false} OneSettlePerFilledRead(events: seq<Event>)
    requires Monitor(events).Some?
    ensures SettlesSent(events) <= FilledReads(events)
    ensures MaySettle(Monitor(events).value) ==> SettlesSent(events) < FilledReads(events)
  {
    if |events| > 0 {
      OneSettlePerFilledRead(events[..|events| - 1]);
    }
  }
}
