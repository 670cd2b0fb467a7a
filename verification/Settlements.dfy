/** What the log of a call to ProcessIntent says about the order: where it was filled and settled, and
    whether that is where it should have been. */
module Settlements {
  import opened DestinationChain
  import opened FeltDecoder
  import opened Handlers
  import opened Intents
  import opened Journal
  import opened Wrappers

  /** Where an operation for an instruction is carried out. */
  datatype Leg = Leg(kind: Kind, at: Site)

  datatype Operation = Fill | Settle

  datatype Outcome = Done | NotDone | Panic

  function InstructionsOf(args: ParsedArgs): seq<FillInstruction> {
    args.resolvedOrder.fillInstructions
  }

  /** An event of an operation at a site: the fill's data is that of the first instruction. */
  predicate IsAbout(args: ParsedArgs, at: Site, e: Event) {
    match e
    case StatusRead(o, s, _) => o == args.orderID && s == at
    case FillSent(o, s, data, _, _) =>
      o == args.orderID && s == at && |InstructionsOf(args)| > 0 && data == InstructionsOf(args)[0].originData
    case SettleSent(o, s, _, _) => o == args.orderID && s == at
    case _ => false
  }

  /** How a fill that asks for settlement ends: with a transaction that counts as a success, or with the
      order already filled or settled. */
  predicate IsFilled(events: seq<Event>, leg: Leg) {
    |events| > 0
    && match events[|events| - 1]
       case FillSent(_, at, _, _, tx) => at == leg.at && CountsAsSuccess(leg.kind, tx)
       case StatusRead(_, at, status) => at == leg.at && status.Some? && !MayFill(status)
       case _ => false
  }

  /** Settling an order from Starknet on an EVM chain is skipped on live networks. */
  predicate IsSkipped(args: ParsedArgs, settings: Settings, kind: Kind) {
    && kind.Evm? && !settings.isDevnet
    && DomainOf(settings.nets, args.resolvedOrder.originChainID) == Some(settings.starknetDomain % 0x1_00000000)
  }

  /** How a settle that returns no error ends: with a transaction that counts as a success, or skipped
      right after a FILLED read. */
  predicate IsSettled(args: ParsedArgs, settings: Settings, events: seq<Event>, leg: Leg) {
    |events| > 0
    && match events[|events| - 1]
       case SettleSent(_, at, _, tx) => at == leg.at && CountsAsSuccess(leg.kind, tx)
       case StatusRead(_, at, status) => at == leg.at && status == Some(FILLED) && IsSkipped(args, settings, leg.kind)
       case _ => false
  }

  /** The last event decides: a fill there that was mined, or on Starknet reverted, or a read there of FILLED or
      SETTLED. */
  lemma IsFilledIff(events: seq<Event>, leg: Leg)
    requires |events| > 0
    ensures var e := events[|events| - 1];
            IsFilled(events, leg) <==>
              || (e.FillSent? && e.at == leg.at && (e.tx.Mined? || (leg.kind == Starknet && e.tx.Reverted?)))
              || (e.StatusRead? && e.at == leg.at && (e.status == Some(FILLED) || e.status == Some(SETTLED)))
  {
  }

  /** A settle there that was mined, or on Starknet reverted, or a read there of FILLED for an order from Starknet on
      a live EVM chain. */
  lemma IsSettledIff(args: ParsedArgs, settings: Settings, events: seq<Event>, leg: Leg)
    requires |events| > 0
    ensures var e, domain := events[|events| - 1], DomainOf(settings.nets, args.resolvedOrder.originChainID);
            IsSettled(args, settings, events, leg) <==>
              || (e.SettleSent? && e.at == leg.at && (e.tx.Mined? || (leg.kind == Starknet && e.tx.Reverted?)))
              || (e.StatusRead? && e.at == leg.at && e.status == Some(FILLED) && leg.kind == Evm && !settings.isDevnet
                  && domain.Some? && domain.value == settings.starknetDomain % 0x1_0000_0000)
  {
  }

  /** What one operation does to the log, and what its result says about it; without a leg, nothing. */
  ghost predicate Operated(args: ParsedArgs, settings: Settings, leg: Option<Leg>, operation: Operation, action: Action,
                           before: seq<Event>, after: seq<Event>) {
    && before <= after
    && (IsCleared(before, args.orderID) ==> IsCleared(after, args.orderID))
    && (leg.None? ==> after == before)
    && (forall k :: |before| <= k < |after| ==>
          leg.Some? && IsAbout(args, leg.value.at, after[k]) && (operation.Settle? ==> !after[k].FillSent?))
    && match operation
       case Fill =>
         && |after| <= |before| + 2 && !action.Complete?
         && (action.SettleNext? <==> |after| > |before| && leg.Some? && IsFilled(after, leg.value))
       case Settle =>
         && !action.SettleNext?
         && (action.Complete? <==> |after| > |before| && leg.Some? && IsSettled(args, settings, after, leg.value))
  }

  /** A fill's one read, and perhaps the fill. */
  lemma FillOperated(args: ParsedArgs, settings: Settings, leg: Leg, action: Action, before: seq<Event>, read: Event,
                     after: seq<Event>)
    requires IsAbout(args, leg.at, read) && read.StatusRead?
    requires IsCleared(before, args.orderID) ==> IsCleared(after, args.orderID)
    requires after == before + [read] || (|after| == |before| + 2 && after[..|before| + 1] == before + [read]
                                          && IsAbout(args, leg.at, after[|before| + 1]))
    requires !action.Complete? && (action.SettleNext? <==> IsFilled(after, leg))
    ensures Operated(args, settings, Some(leg), Operation.Fill, action, before, after)
  {
    assert after[|before|] == (before + [read])[|before|] == read;
    assert before == (before + [read])[..|before|] == after[..|before|];
  }

  /** A settle's reads, and perhaps the settle. */
  lemma SettleOperated(args: ParsedArgs, settings: Settings, leg: Leg, action: Action, before: seq<Event>,
                       seen: seq<Event>, sent: seq<Event>, after: seq<Event>)
    requires |seen| > 0 && forall k :: 0 <= k < |seen| ==> seen[k].StatusRead? && IsAbout(args, leg.at, seen[k])
    requires sent == [] || (|sent| == 1 && sent[0].SettleSent? && IsAbout(args, leg.at, sent[0]))
    requires after == (before + seen) + sent
    requires IsCleared(before, args.orderID) ==> IsCleared(after, args.orderID)
    requires !action.SettleNext?
    requires action.Complete? <==> if sent != [] then CountsAsSuccess(leg.kind, sent[0].tx)
                                   else seen[|seen| - 1].status == Some(FILLED) && IsSkipped(args, settings, leg.kind)
    ensures Operated(args, settings, Some(leg), Operation.Settle, action, before, after)
  {
    assert after[|after| - 1] == if sent != [] then sent[0] else seen[|seen| - 1];
    forall k | |before| <= k < |after|
      ensures IsAbout(args, leg.at, after[k]) && !after[k].FillSent?
    {
      if k < |before| + |seen| {
        assert after[k] == seen[k - |before|];
      }
    }
  }

  /** At each mark the log ended with the settlement of one more instruction at its leg; the marks grow
      from start on. */
  ghost predicate SettledSoFar(args: ParsedArgs, settings: Settings, legs: seq<Leg>, start: nat, events: seq<Event>,
                               marks: seq<nat>) {
    && |marks| == |legs| <= |InstructionsOf(args)|
    && (forall i :: 0 <= i < |marks| ==> start < marks[i] <= |events|)
    && (forall i :: 0 < i < |marks| ==> marks[i - 1] < marks[i])
    && (forall i :: 0 <= i < |marks| ==> IsSettled(args, settings, events[..marks[i]], legs[i]))
  }

  ghost predicate AllSettled(args: ParsedArgs, settings: Settings, legs: seq<Leg>, start: nat, events: seq<Event>,
                             marks: seq<nat>) {
    0 < |marks| == |InstructionsOf(args)| && SettledSoFar(args, settings, legs, start, events, marks)
  }

  /** The log said after filled events that the order was filled at the first leg, and from there on
      every instruction was settled at its leg. */
  ghost predicate FilledThenSettled(args: ParsedArgs, settings: Settings, legs: seq<Leg>, start: nat,
                                    events: seq<Event>, filled: nat, marks: seq<nat>) {
    && start < filled <= |events| && AllSettled(args, settings, legs, filled, events, marks)
    && IsFilled(events[..filled], legs[0])
  }

  lemma OneMoreSettled(args: ParsedArgs, settings: Settings, legs: seq<Leg>, start: nat, before: seq<Event>,
                       after: seq<Event>, marks: seq<nat>, leg: Leg)
    requires start <= |before| < |after| && before <= after && |marks| < |InstructionsOf(args)|
    requires SettledSoFar(args, settings, legs, start, before, marks) && IsSettled(args, settings, after, leg)
    ensures SettledSoFar(args, settings, legs + [leg], start, after, marks + [|after|])
  {
    assert after[..|after|] == after;
    forall i | 0 <= i < |marks|
      ensures after[..marks[i]] == before[..marks[i]]
    {
    }
  }

  lemma SettledStays(args: ParsedArgs, settings: Settings, legs: seq<Leg>, start: nat, before: seq<Event>,
                     after: seq<Event>, marks: seq<nat>)
    requires before <= after && SettledSoFar(args, settings, legs, start, before, marks)
    ensures SettledSoFar(args, settings, legs, start, after, marks)
  {
    forall i | 0 <= i < |marks|
      ensures after[..marks[i]] == before[..marks[i]]
    {
    }
  }

  // ------------------------------------------------------------- what a settled log means

  /** Whatever settled an instruction, the last status read before its mark said FILLED at its leg. */
  lemma SettledAfterFilledRead(args: ParsedArgs, settings: Settings, events: seq<Event>, leg: Leg) returns (read: nat)
    requires Monitor(events).Some? && IsSettled(args, settings, events, leg)
    ensures read < |events| && events[read].StatusRead? && events[read].at == leg.at
              && events[read].status == Some(FILLED)
    ensures forall k :: read < k < |events| ==> !events[k].StatusRead?
  {
    var n := |events| - 1;
    if events[n].StatusRead? {
      return n;
    }
    var begin, lists, rules, r := SendsAreGated(events, n);
    read := r;
  }

  /** A done order was read as FILLED at the leg of each instruction, right before it was settled. */
  lemma DoneWasReadFilled(args: ParsedArgs, settings: Settings, legs: seq<Leg>, start: nat, events: seq<Event>,
                          marks: seq<nat>, i: nat) returns (read: nat)
    requires Monitor(events).Some? && AllSettled(args, settings, legs, start, events, marks) && i < |marks|
    ensures read < marks[i] && events[read].StatusRead? && events[read].at == legs[i].at
    ensures events[read].status == Some(FILLED) && forall k :: read < k < marks[i] ==> !events[k].StatusRead?
  {
    MonitorPrefix(events, marks[i]);
    read := SettledAfterFilledRead(args, settings, events[..marks[i]], legs[i]);
    assert forall k :: 0 <= k < marks[i] ==> events[..marks[i]][k] == events[k];
  }

  /** For an order that never reads as anything but SETTLED nothing is sent, and it is never done, whatever
      reads fail. */
  lemma SettledOrderIsNeverDone(args: ParsedArgs, settings: Settings, legs: seq<Leg>, start: nat, events: seq<Event>,
                                filled: nat, marks: seq<nat>)
    requires Monitor(events).Some? && start < |events| && events[start].Begin? && OnlySettledReads(events, start)
    ensures forall k :: start <= k < |events| ==> !IsSend(events[k])
    ensures !FilledThenSettled(args, settings, legs, start, events, filled, marks)
  {
    SettledSendsNothing(events, start);
    if FilledThenSettled(args, settings, legs, start, events, filled, marks) {
      SettledEndsWith(args, settings, legs, start, events, filled, marks);
    }
  }

  /** The first status read from there on, that of the fill, says SETTLED at that site, and no later one at
      that site goes back to FILLED. Other reads may fail or say what they like. */
  ghost predicate StaysSettled(events: seq<Event>, start: nat, at: Site) {
    exists r :: IsFirstRead(events, start, r) && SaysSettled(events[r], at)
                && forall k :: r < k < |events| && events[k].StatusRead? && events[k].at == at ==>
                     events[k].status != Some(FILLED)
  }

  predicate IsFirstRead(events: seq<Event>, start: nat, r: int) {
    start <= r < |events| && events[r].StatusRead? && forall k :: start <= k < r ==> !events[k].StatusRead?
  }

  predicate SaysSettled(e: Event, at: Site) {
    e.StatusRead? && e.at == at && e.status == Some(SETTLED)
  }

  /** What settled an instruction was read within the same call. */
  lemma SettledReadIsInTheCall(args: ParsedArgs, settings: Settings, legs: seq<Leg>, start: nat, events: seq<Event>,
                               filled: nat, marks: seq<nat>) returns (read: nat)
    requires Monitor(events).Some? && start < |events| && events[start].Begin?
    requires FilledThenSettled(args, settings, legs, start, events, filled, marks)
    ensures start < read < |events| && events[read].StatusRead? && events[read].at == legs[0].at
    ensures events[read].status == Some(FILLED)
  {
    var n := marks[0] - 1;
    assert IsSettled(args, settings, events[..marks[0]], legs[0]) && events[..marks[0]][n] == events[n];
    if events[n].StatusRead? {
      return n;
    }
    var begin, lists, rules, r := SendsAreGated(events, n);
    assert !(begin < start < n);
    read := r;
  }

  /** If the fill's read says SETTLED and the status never goes back to FILLED, the order is never done,
      whatever other reads fail. */
  lemma SettledStaysNeverDone(args: ParsedArgs, settings: Settings, legs: seq<Leg>, start: nat, events: seq<Event>,
                              filled: nat, marks: seq<nat>)
    requires Monitor(events).Some? && start < |events| && events[start].Begin?
    requires |legs| > 0 && StaysSettled(events, start, legs[0].at)
    ensures !FilledThenSettled(args, settings, legs, start, events, filled, marks)
  {
    if FilledThenSettled(args, settings, legs, start, events, filled, marks) {
      var read := SettledReadIsInTheCall(args, settings, legs, start, events, filled, marks);
    }
  }

  lemma SettledEndsWith(args: ParsedArgs, settings: Settings, legs: seq<Leg>, start: nat, events: seq<Event>,
                        filled: nat, marks: seq<nat>)
    requires FilledThenSettled(args, settings, legs, start, events, filled, marks)
    ensures start <= marks[0] - 1 < |events|
    ensures var last := events[marks[0] - 1]; IsSend(last) || (last.StatusRead? && last.status == Some(FILLED))
  {
    assert events[..marks[0]][marks[0] - 1] == events[marks[0] - 1];
    assert IsSettled(args, settings, events[..marks[0]], legs[0]);
  }

  /** A settle was not reverted, or was skipped: it really happened, or did not have to. */
  predicate TookEffect(events: seq<Event>) {
    |events| > 0 && (events[|events| - 1].SettleSent? ==> events[|events| - 1].tx.Mined?)
  }

  /** What made the order count as filled took effect. */
  predicate ReallyFilled(events: seq<Event>) {
    |events| > 0 && (events[|events| - 1].FillSent? ==> events[|events| - 1].tx.Mined?)
  }

  /** The fill and every settle took effect. */
  predicate AllTookEffect(events: seq<Event>, filled: nat, marks: seq<nat>) {
    && filled <= |events| && ReallyFilled(events[..filled])
    && forall i :: 0 <= i < |marks| ==> marks[i] <= |events| && TookEffect(events[..marks[i]])
  }

  /** An order done on EVM chains alone was really filled and settled. */
  lemma DoneOnEvmTookEffect(args: ParsedArgs, settings: Settings, legs: seq<Leg>, start: nat, events: seq<Event>,
                            filled: nat, marks: seq<nat>)
    requires FilledThenSettled(args, settings, legs, start, events, filled, marks)
    requires forall i :: 0 <= i < |legs| ==> legs[i].kind.Evm?
    ensures AllTookEffect(events, filled, marks)
  {
    assert events[..filled][filled - 1] == events[filled - 1];
    forall i | 0 <= i < |marks|
      ensures marks[i] <= |events| && TookEffect(events[..marks[i]])
    {
      assert IsSettled(args, settings, events[..marks[i]], legs[i]);
    }
  }

  /** Some read in that stretch of the log said FILLED at that site, and none came after it. */
  ghost predicate EndsWithFilledRead(events: seq<Event>, upTo: nat, at: Site)
    requires upTo <= |events|
  {
    exists read :: 0 <= read < upTo && events[read].StatusRead? && events[read].at == at
                   && events[read].status == Some(FILLED) && forall k :: read < k < upTo ==> !events[k].StatusRead?
  }

  lemma PastUnknownIsFilled(events: seq<Event>, filled: nat, leg: Leg)
    requires 0 < filled <= |events|
    requires var read := events[filled - 1];
             read.StatusRead? && read.at == leg.at && (read.status == Some(FILLED) || read.status == Some(SETTLED))
    ensures IsFilled(events[..filled], leg)
  {
    assert events[..filled][filled - 1] == events[filled - 1];
  }

  /** The guards of one settle: the last status read said FILLED at the leg, and after it the transaction was sent
      there and counts, or nothing was sent because settling is skipped. */
  ghost predicate PassesSettleGuards(args: ParsedArgs, settings: Settings, events: seq<Event>, mark: nat, leg: Leg)
    requires 0 < mark <= |events|
  {
    && EndsWithFilledRead(events, mark, leg.at)
    && match events[mark - 1]
       case SettleSent(_, at, _, tx) => at == leg.at && CountsAsSuccess(leg.kind, tx)
       case StatusRead(_, _, _) => IsSkipped(args, settings, leg.kind)
       case _ => false
  }

  lemma SettledIffGuards(args: ParsedArgs, settings: Settings, events: seq<Event>, mark: nat, leg: Leg)
    requires Monitor(events).Some? && 0 < mark <= |events|
    ensures IsSettled(args, settings, events[..mark], leg) <==> PassesSettleGuards(args, settings, events, mark, leg)
  {
    var prefix := events[..mark];
    assert prefix[mark - 1] == events[mark - 1];
    if IsSettled(args, settings, prefix, leg) {
      MonitorPrefix(events, mark);
      var read := SettledAfterFilledRead(args, settings, prefix, leg);
      assert events[read] == prefix[read];
      assert forall k :: read < k < mark ==> events[k] == prefix[k];
    }
  }

  /** The marks follow one another after the fill. */
  predicate MarksFollow(filled: nat, events: seq<Event>, marks: seq<nat>) {
    && (forall i :: 0 <= i < |marks| ==> filled < marks[i] <= |events|)
    && (forall i :: 0 < i < |marks| ==> marks[i - 1] < marks[i])
  }

  /** An order that the fill's read finds FILLED or SETTLED ends done exactly if at every instruction the settle's
      last read says FILLED and its transaction then counts or is skipped. */
  lemma PastUnknownDoneIff(args: ParsedArgs, settings: Settings, legs: seq<Leg>, start: nat, events: seq<Event>,
                           filled: nat, marks: seq<nat>)
    requires Monitor(events).Some? && start < filled <= |events|
    requires 0 < |legs| == |marks| == |InstructionsOf(args)| && MarksFollow(filled, events, marks)
    requires var read := events[filled - 1];
             read.StatusRead? && read.at == legs[0].at && (read.status == Some(FILLED) || read.status == Some(SETTLED))
    ensures FilledThenSettled(args, settings, legs, start, events, filled, marks)
       <==> forall i :: 0 <= i < |marks| ==> PassesSettleGuards(args, settings, events, marks[i], legs[i])
  {
    PastUnknownIsFilled(events, filled, legs[0]);
    forall i | 0 <= i < |marks|
      ensures IsSettled(args, settings, events[..marks[i]], legs[i])
         <==> PassesSettleGuards(args, settings, events, marks[i], legs[i])
    {
      SettledIffGuards(args, settings, events, marks[i], legs[i]);
    }
  }

  /** On Starknet a reverted settle counts: this log ends an order as done with no settle that took
      effect, and with a fill that never worked. */
  lemma RevertedCountsAsDone(args: ParsedArgs, settings: Settings, at: Site)
    requires |InstructionsOf(args)| == 1
    ensures var o, data := args.orderID, InstructionsOf(args)[0].originData;
            var events := [Begin(o), ListsAllow(o), RulesPass(o)] + [StatusRead(o, at, Some(UNKNOWN))]
                          + [FillSent(o, at, data, None, Reverted)] + [StatusRead(o, at, Some(FILLED))]
                          + [SettleSent(o, at, Some(1), Reverted)];
            && Monitor(events) == Some(Cleared(o, NoRead))
            && FilledThenSettled(args, settings, [Leg(Starknet, at)], 0, events, 5, [7])
            && !TookEffect(events)
  {
    var o, data := args.orderID, InstructionsOf(args)[0].originData;
    var m3 := [Begin(o), ListsAllow(o), RulesPass(o)];
    var m4 := m3 + [StatusRead(o, at, Some(UNKNOWN))];
    var m5 := m4 + [FillSent(o, at, data, None, Reverted)];
    var m6 := m5 + [StatusRead(o, at, Some(FILLED))];
    var m7 := m6 + [SettleSent(o, at, Some(1), Reverted)];
    ClearedAfter(o);
    MonitorSnoc(m3, m4[3]);
    MonitorSnoc(m4, m5[4]);
    MonitorSnoc(m5, m6[5]);
    MonitorSnoc(m6, m7[6]);
    assert m7[..7] == m7 && m7[..5] == m5;
  }

  lemma ClearedAfter(o: string)
    ensures Monitor([Begin(o), ListsAllow(o), RulesPass(o)]) == Some(Cleared(o, NoRead))
  {
    MonitorSnoc([], Begin(o));
    MonitorSnoc([Begin(o)], ListsAllow(o));
    MonitorSnoc([Begin(o), ListsAllow(o)], RulesPass(o));
    assert [] + [Begin(o)] == [Begin(o)] && [Begin(o)] + [ListsAllow(o)] == [Begin(o), ListsAllow(o)];
    assert [Begin(o), ListsAllow(o)] + [RulesPass(o)] == [Begin(o), ListsAllow(o), RulesPass(o)];
  }

  // ------------------------------------------------------------- the right place

  /** An instruction was settled at its own settler exactly if its leg is its own. */
  lemma SettledWhereIff(args: ParsedArgs, settings: Settings, legs: seq<Leg>, start: nat, events: seq<Event>,
                        marks: seq<nat>, i: nat, own: Site)
    requires AllSettled(args, settings, legs, start, events, marks) && i < |marks|
    ensures events[marks[i] - 1].at == own <==> legs[i].at == own
  {
    assert IsSettled(args, settings, events[..marks[i]], legs[i]);
    assert events[..marks[i]][marks[i] - 1] == events[marks[i] - 1];
  }
}
