/** Logs that calls to ProcessIntent can leave: which chains make a done order really done, what a status that
    goes back does, and how often a redelivered order is settled. */
module Deliveries {
  import opened DestinationChain
  import opened Handlers
  import opened Intents
  import opened Journal
  import opened Settlements
  import opened Wrappers

  function Gates(o: string): seq<Event> {
    [Begin(o), ListsAllow(o), RulesPass(o)]
  }

  /** What becomes of a settle if everything on Starknet reverts, or nothing does. */
  function OutcomeOn(kind: Kind, reverts: bool): TxOutcome {
    if reverts && kind.Starknet? then Reverted else Mined
  }

  /** A leg reads as FILLED and is settled. */
  function LegLog(o: string, leg: Leg, reverts: bool): seq<Event> {
    [StatusRead(o, leg.at, Some(FILLED)), SettleSent(o, leg.at, Some(1), OutcomeOn(leg.kind, reverts))]
  }

  function SettleLog(o: string, legs: seq<Leg>, reverts: bool): (log: seq<Event>)
    ensures |log| == 2 * |legs|
  {
    if |legs| == 0 then [] else SettleLog(o, legs[..|legs| - 1], reverts) + LegLog(o, legs[|legs| - 1], reverts)
  }

  /** A call whose fill finds the order in that status, and which then settles every leg. */
  function CallLog(o: string, legs: seq<Leg>, status: Status, reverts: bool): seq<Event>
    requires |legs| > 0
  {
    Gates(o) + [StatusRead(o, legs[0].at, Some(status))] + SettleLog(o, legs, reverts)
  }

  /** The settles' places behind the first n events. */
  function Marks(n: nat, count: nat): (marks: seq<nat>)
    ensures |marks| == count && forall i :: 0 <= i < count ==> marks[i] == n + 2 * i + 2
  {
    seq(count, i => n + 2 * i + 2)
  }

  lemma MarksSnoc(n: nat, count: nat)
    ensures Marks(n, count + 1) == Marks(n, count) + [n + 2 * count + 2]
  {
  }

  /** The call is still cleared, and behind the first n events those legs are settled, two events each. */
  ghost predicate HasSettled(args: ParsedArgs, settings: Settings, n: nat, legs: seq<Leg>, events: seq<Event>) {
    && IsCleared(events, args.orderID) && |events| == n + 2 * |legs|
    && SettledSoFar(args, settings, legs, n, events, Marks(n, |legs|))
  }

  /** One more settled leg. */
  lemma OneMoreLeg(args: ParsedArgs, settings: Settings, n: nat, legs: seq<Leg>, before: seq<Event>, leg: Leg,
                   reverts: bool)
    requires HasSettled(args, settings, n, legs, before) && |legs| < |InstructionsOf(args)|
    ensures HasSettled(args, settings, n, legs + [leg], before + LegLog(args.orderID, leg, reverts))
  {
    var es := LegLog(args.orderID, leg, reverts);
    MonitorSnoc(before, es[0]);
    MonitorSnoc(before + [es[0]], es[1]);
    assert before + [es[0]] + [es[1]] == before + es;
    OneMoreSettled(args, settings, legs, n, before, before + es, Marks(n, |legs|), leg);
    MarksSnoc(n, |legs|);
  }

  lemma NoLegs(args: ParsedArgs, settings: Settings, before: seq<Event>)
    requires IsCleared(before, args.orderID)
    ensures HasSettled(args, settings, |before|, [], before + SettleLog(args.orderID, [], false))
    ensures SettleLog(args.orderID, [], true) == []
  {
    assert before + [] == before;
  }

  lemma {:induction false} SettleLogSettles(args: ParsedArgs, settings: Settings, before: seq<Event>, legs: seq<Leg>,
                                            reverts: bool)
    requires IsCleared(before, args.orderID) && |legs| <= |InstructionsOf(args)|
    ensures HasSettled(args, settings, |before|, legs, before + SettleLog(args.orderID, legs, reverts))
    decreases |legs|
  {
    if legs == [] {
      NoLegs(args, settings, before);
    } else {
      var init, leg := legs[..|legs| - 1], legs[|legs| - 1];
      var done := SettleLog(args.orderID, init, reverts);
      SettleLogSettles(args, settings, before, init, reverts);
      OneMoreLeg(args, settings, |before|, init, before + done, leg, reverts);
      Regroup(before, done, LegLog(args.orderID, leg, reverts));
      assert init + [leg] == legs;
    }
  }

  lemma Regroup<T>(a: seq<T>, b: seq<T>, c: seq<T>)
    ensures (a + b) + c == a + (b + c)
  {
  }

  lemma GatesClear(before: seq<Event>, o: string)
    requires Monitor(before).Some?
    ensures Monitor(before + Gates(o)) == Some(Cleared(o, NoRead))
  {
    var one := before + [Begin(o)];
    var two := one + [ListsAllow(o)];
    MonitorSnoc(before, Begin(o));
    MonitorSnoc(one, ListsAllow(o));
    MonitorSnoc(two, RulesPass(o));
    assert two + [RulesPass(o)] == before + Gates(o);
  }

  /** Whatever was logged before, such a call keeps the rule and ends with the order done. */
  lemma CallLogIsDone(args: ParsedArgs, settings: Settings, before: seq<Event>, legs: seq<Leg>, status: Status,
                      reverts: bool)
    requires Monitor(before).Some? && 0 < |legs| == |InstructionsOf(args)| && (status == FILLED || status == SETTLED)
    ensures var n, events := |before|, before + CallLog(args.orderID, legs, status, reverts);
            && Monitor(events).Some? && |events| == n + 4 + 2 * |legs| && events[n].Begin?
            && FilledThenSettled(args, settings, legs, n, events, n + 4, Marks(n + 4, |legs|))
  {
    var n, o := |before|, args.orderID;
    var found := before + Gates(o) + [StatusRead(o, legs[0].at, Some(status))];
    GatesClear(before, o);
    MonitorSnoc(before + Gates(o), StatusRead(o, legs[0].at, Some(status)));
    SettleLogSettles(args, settings, found, legs, reverts);
    var events := found + SettleLog(o, legs, reverts);
    assert before + CallLog(o, legs, status, reverts) == events;
    PastUnknownIsFilled(events, n + 4, legs[0]);
  }

  // ------------------------------------------------------------- which chains make done mean done

  lemma {:induction false} SettleLogAt(o: string, legs: seq<Leg>, reverts: bool, i: nat)
    requires i < |legs|
    ensures SettleLog(o, legs, reverts)[2 * i + 1]
         == SettleSent(o, legs[i].at, Some(1), OutcomeOn(legs[i].kind, reverts))
  {
    if i < |legs| - 1 {
      SettleLogAt(o, legs[..|legs| - 1], reverts, i);
    }
  }

  ghost predicate AreEvm(legs: seq<Leg>) {
    forall i :: 0 <= i < |legs| ==> legs[i].kind.Evm?
  }

  /** That a done order was really filled and every instruction really settled is certain if and only if all its
      legs are on EVM chains. */
  lemma DoneTakesEffectIffEvm(args: ParsedArgs, settings: Settings, legs: seq<Leg>)
    requires 0 < |legs| == |InstructionsOf(args)|
    ensures AreEvm(legs) <==> forall events, filled, marks ::
              Monitor(events).Some? && FilledThenSettled(args, settings, legs, 0, events, filled, marks) ==>
                AllTookEffect(events, filled, marks)
  {
    if AreEvm(legs) {
      forall events, filled, marks | FilledThenSettled(args, settings, legs, 0, events, filled, marks)
        ensures AllTookEffect(events, filled, marks)
      {
        DoneOnEvmTookEffect(args, settings, legs, 0, events, filled, marks);
      }
    } else {
      var i :| 0 <= i < |legs| && !legs[i].kind.Evm?;
      StarknetLegMayRevert(args, settings, legs, i);
    }
  }

  lemma StarknetLegMayRevert(args: ParsedArgs, settings: Settings, legs: seq<Leg>, i: nat)
    requires i < |legs| == |InstructionsOf(args)| && legs[i].kind.Starknet?
    ensures var events, marks := CallLog(args.orderID, legs, FILLED, true), Marks(4, |legs|);
            && Monitor(events).Some? && FilledThenSettled(args, settings, legs, 0, events, 4, marks)
            && !AllTookEffect(events, 4, marks)
  {
    var events := CallLog(args.orderID, legs, FILLED, true);
    CallLogIsDone(args, settings, [], legs, FILLED, true);
    assert [] + events == events;
    RevertedLeg(args.orderID, legs, i);
  }

  lemma RevertedLeg(o: string, legs: seq<Leg>, i: nat)
    requires i < |legs| && legs[i].kind.Starknet?
    ensures !AllTookEffect(CallLog(o, legs, FILLED, true), 4, Marks(4, |legs|))
  {
    var events, mark := CallLog(o, legs, FILLED, true), 4 + 2 * i + 2;
    SettleLogAt(o, legs, true, i);
    assert events[mark - 1] == SettleLog(o, legs, true)[2 * i + 1];
    assert Marks(4, |legs|)[i] == mark && events[..mark][mark - 1] == events[mark - 1];
    assert !TookEffect(events[..mark]);
  }

  lemma FirstReadOfCall(o: string, leg: Leg)
    ensures var events := CallLog(o, [leg], SETTLED, false);
            |events| == 6 && IsFirstRead(events, 0, 3) && SaysSettled(events[3], leg.at)
  {
    var events, gates := CallLog(o, [leg], SETTLED, false), Gates(o);
    assert forall k :: 0 <= k < 3 ==> events[k] == gates[k];
  }

  /** The other way round than SettledStaysNeverDone: a status that goes back from SETTLED to FILLED ends done. */
  lemma SettledThenFilledIsDone(args: ParsedArgs, settings: Settings, leg: Leg)
    requires |InstructionsOf(args)| == 1
    ensures var events := CallLog(args.orderID, [leg], SETTLED, false);
            && Monitor(events).Some? && IsFirstRead(events, 0, 3) && SaysSettled(events[3], leg.at)
            && FilledThenSettled(args, settings, [leg], 0, events, 4, Marks(4, 1))
  {
    var events := CallLog(args.orderID, [leg], SETTLED, false);
    CallLogIsDone(args, settings, [], [leg], SETTLED, false);
    assert [] + events == events;
    FirstReadOfCall(args.orderID, leg);
  }

  // ------------------------------------------------------------- redeliveries

  /** n deliveries of an order on one chain that is filled, and stays so: a settle leaves the status. */
  function Redelivered(o: string, leg: Leg, n: nat): seq<Event> {
    if n == 0 then [] else Redelivered(o, leg, n - 1) + CallLog(o, [leg], FILLED, false)
  }

  lemma {:induction false} CountConcat(a: seq<Event>, b: seq<Event>)
    ensures SettlesSent(a + b) == SettlesSent(a) + SettlesSent(b)
  {
    if |b| == 0 {
      assert a + b == a;
    } else {
      CountConcat(a, b[..|b| - 1]);
      assert (a + b)[..|a + b| - 1] == a + b[..|b| - 1];
    }
  }

  lemma OneCallSettlesOnce(o: string, leg: Leg)
    ensures var log := CallLog(o, [leg], FILLED, false); |log| == 6 && SettlesSent(log) == 1
  {
    var log := CallLog(o, [leg], FILLED, false);
    assert [leg][..0] == [] && SettleLog(o, [], false) == [];
    assert SettleLog(o, [leg], false) == LegLog(o, leg, false);
    assert log[..5] == Gates(o) + [StatusRead(o, leg.at, Some(FILLED))] + [StatusRead(o, leg.at, Some(FILLED))];
    NoSettles(log[..5]);
    assert log[5].SettleSent?;
  }

  lemma {:induction false} NoSettles(events: seq<Event>)
    requires forall k :: 0 <= k < |events| ==> !events[k].SettleSent?
    ensures SettlesSent(events) == 0
  {
    if |events| > 0 {
      NoSettles(events[..|events| - 1]);
    }
  }

  /** Nothing keeps a filled order from being settled again: n deliveries keep the gating rule, each ends done,
      and n settles are sent. */
  lemma {:induction false} EveryRedeliverySettles(args: ParsedArgs, settings: Settings, leg: Leg, n: nat)
    requires |InstructionsOf(args)| == 1
    ensures var events := Redelivered(args.orderID, leg, n);
            && Monitor(events).Some? && |events| == 6 * n && SettlesSent(events) == n
            && (n > 0 ==> FilledThenSettled(args, settings, [leg], 6 * n - 6, events, 6 * n - 2, [6 * n]))
  {
    if n > 0 {
      var before := Redelivered(args.orderID, leg, n - 1);
      EveryRedeliverySettles(args, settings, leg, n - 1);
      CallLogIsDone(args, settings, before, [leg], FILLED, false);
      CountConcat(before, CallLog(args.orderID, [leg], FILLED, false));
      OneCallSettlesOnce(args.orderID, leg);
      assert Marks(6 * n - 2, 1) == [6 * n];
    }
  }
}
