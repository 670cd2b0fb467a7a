/** One Fill of a handler (hyperlane_evm.go) is a run of the steps by which the fill protocol describes it. */
module HandlerRefinement {
  import opened Wrappers
  import opened HandlerProtocol
  import HandlerRuns
  import Handlers
  import Journal
  import opened Approvals
  import opened HyperlaneEvm
  import opened Intents

  /** How a call loses track of its fill: the send reports an error, or the wait for the receipt ends without
      one, be it because the process shuts down. */
  datatype Losing = SendLied | WaitFailed | ShutDown

  /** What one call of Fill reads and sends: its status read, and what became of its fill, if one was sent; if
      that is Lost, how. */
  datatype Trace = Trace(status: Option<Journal.Status>, sent: Option<Journal.TxOutcome>, losing: Losing)

  /** The events a call of Fill adds to the journal. */
  predicate Adds(events: seq<Journal.Event>, order: string, trace: Trace) {
    && |events| == (if trace.sent.Some? then 2 else 1)
    && events[0].StatusRead? && events[0].order == order && events[0].status == trace.status
    && (trace.sent.Some? ==> events[1].FillSent? && events[1].order == order && events[1].tx == trace.sent.value)
  }

  /** A shutdown can end any wait. */
  predicate CanLose(c: Config, losing: Losing) {
    match losing
    case SendLied => c.sendsMayLie
    case WaitFailed => c.waitsMayFail
    case ShutDown => true
  }

  /** The contract's status as the protocol has it is what the call reads, and what it is told of its fill is
      possible in this configuration. */
  predicate Fits(c: Config, s: State, order: Order, trace: Trace) {
    && (trace.status.Some? ==> !s.cancelled && (s.StatusOf(order).Unknown? <==> Journal.MayFill(trace.status)))
    && (trace.sent.Some? ==>
          && Journal.MayFill(trace.status) && !trace.sent.value.NotSent?
          && (trace.sent.value.Lost? ==> CanLose(c, trace.losing)))
  }

  function LosingLabels(t: Thread, losing: Losing): seq<Label> {
    match losing
    case SendLied => [Send(t, SentButFailed)] + [Unlock(t)]
    case WaitFailed => [Send(t, Sent)] + [Abandon(t), Unlock(t)]
    case ShutDown => [Send(t, Sent), Cancel] + [Abandon(t), Unlock(t)]
  }

  function SendLabels(t: Thread, i: nat, tx: Journal.TxOutcome, losing: Losing): seq<Label> {
    if tx.Lost? then LosingLabels(t, losing)
    else [Send(t, Sent), Mine(i, tx.Mined?)] + [Confirm(t), Unlock(t)]
  }

  /** The steps of that call. */
  function FillLabels(t: Thread, i: nat, trace: Trace): seq<Label> {
    [Lock(t), ReadStatus(t, trace.status.Some?)]
    + if trace.sent.Some? then SendLabels(t, i, trace.sent.value, trace.losing)
      else if Journal.MayFill(trace.status) then [Send(t, NotSent), Unlock(t)]
      else [Unlock(t)]
  }

  function TxStateOf(tx: Journal.TxOutcome): TxState {
    if tx.Mined? then Succeeded else if tx.Lost? then Pending else Reverted
  }

  /** Where they lead: the goroutine is done, the mutex is free again, and the fills sent and the contract's
      status are those of the trace. */
  function Filled(s: State, t: Thread, order: Order, trace: Trace): State
    requires t < |s.pcs|
  {
    var s' := s.Goto(t, Free);
    if trace.sent.None? then s'
    else
      s'.(txs := s.txs + [Tx(order, t, TxStateOf(trace.sent.value))],
          status := if trace.sent.value.Mined? then s.status[order := HandlerProtocol.Filled] else s.status,
          cancelled := s.cancelled || (trace.sent.value.Lost? && trace.losing.ShutDown?))
  }

  /** The state in the critical section, at pc. */
  function Inside(s: State, t: Thread, h: Handler, pc: Pc): State
    requires t < |s.pcs|
  {
    s.Goto(t, pc).(held := s.held[h := t])
  }

  lemma RunUnlock(c: Config, s: State, t: Thread, call: Call, h: Handler)
    requires t < |s.pcs| && h !in s.held
    ensures var s' := Inside(s, t, h, Leaving(call, h));
            Solver(c).IsRun(s', [Unlock(t)]) && Solver(c).After(s', [Unlock(t)]) == s.Goto(t, Free)
  {
    var s' := Inside(s, t, h, Leaving(call, h));
    HandlerRuns.RunOne(c, s', Unlock(t));
    assert s'.held - {h} == s.held;
  }

  lemma RunRead(c: Config, s: State, t: Thread, call: Call, h: Handler, trace: Trace)
    requires s.At(t) == AtMutex(call, h) && h !in s.held && !call.settles && Fits(c, s, call.order, trace)
    ensures var ls := [Lock(t), ReadStatus(t, trace.status.Some?)];
            var pc := if Journal.MayFill(trace.status) then Checked(call, h) else Leaving(call, h);
            Solver(c).IsRun(s, ls) && Solver(c).After(s, ls) == Inside(s, t, h, pc)
  {
    var pc := if Journal.MayFill(trace.status) then Checked(call, h) else Leaving(call, h);
    HandlerRuns.RunTwo(c, s, Lock(t), Inside(s, t, h, Locked(call, h)), ReadStatus(t, trace.status.Some?),
                       Inside(s, t, h, pc));
  }

  lemma RunSendAndMine(c: Config, s: State, t: Thread, call: Call, h: Handler, runs: bool)
    requires t < |s.pcs| && (runs ==> s.StatusOf(call.order).Unknown?)
    ensures var ls := [Send(t, Sent), Mine(|s.txs|, runs)];
            var tx := Tx(call.order, t, if runs then Succeeded else Reverted);
            var s1 := Inside(s, t, h, Checked(call, h));
            && Solver(c).IsRun(s1, ls)
            && Solver(c).After(s1, ls)
            == Inside(s, t, h, Waiting(call, h, |s.txs|))
               .(txs := s.txs + [tx],
                 status := if runs then s.status[call.order := HandlerProtocol.Filled] else s.status)
  {
    var n, tx := |s.txs|, Tx(call.order, t, if runs then Succeeded else Reverted);
    var s1, pending := Inside(s, t, h, Checked(call, h)), s.txs + [Tx(call.order, t, Pending)];
    var s2 := Inside(s, t, h, Waiting(call, h, n)).(txs := pending);
    assert pending[n := tx] == s.txs + [tx];
    HandlerRuns.RunTwo(c, s1, Send(t, Sent), s2, Mine(n, runs), Step(c, s2, Mine(n, runs)));
  }

  lemma RunConfirm(c: Config, s: State, t: Thread, call: Call, h: Handler, i: nat)
    requires t < |s.pcs| && h !in s.held && i < |s.txs| && !s.txs[i].state.Pending?
    ensures var s1 := Inside(s, t, h, Waiting(call, h, i));
            && Solver(c).IsRun(s1, [Confirm(t), Unlock(t)])
            && Solver(c).After(s1, [Confirm(t), Unlock(t)]) == s.Goto(t, Free)
  {
    var s1, s2 := Inside(s, t, h, Waiting(call, h, i)), Inside(s, t, h, Leaving(call, h));
    assert s2.held - {h} == s.held;
    HandlerRuns.RunTwo(c, s1, Confirm(t), s2, Unlock(t), s.Goto(t, Free));
  }

  /** The state with one more pending fill. */
  function WithPending(s: State, t: Thread, order: Order, shutDown: bool): State {
    s.(txs := s.txs + [Tx(order, t, Pending)], cancelled := s.cancelled || shutDown)
  }

  lemma RunAbandon(c: Config, s: State, t: Thread, call: Call, h: Handler, i: nat)
    requires t < |s.pcs| && h !in s.held && (s.cancelled || c.waitsMayFail)
    ensures var s1 := Inside(s, t, h, Waiting(call, h, i));
            && Solver(c).IsRun(s1, [Abandon(t), Unlock(t)])
            && Solver(c).After(s1, [Abandon(t), Unlock(t)]) == s.Goto(t, Free)
  {
    var s1, s2 := Inside(s, t, h, Waiting(call, h, i)), Inside(s, t, h, Leaving(call, h));
    assert s2.held - {h} == s.held;
    HandlerRuns.RunTwo(c, s1, Abandon(t), s2, Unlock(t), s.Goto(t, Free));
  }

  lemma RunLosing(c: Config, s: State, t: Thread, call: Call, h: Handler, losing: Losing)
    requires t < |s.pcs| && h !in s.held && CanLose(c, losing)
    ensures var s1, ls := Inside(s, t, h, Checked(call, h)), LosingLabels(t, losing);
            && Solver(c).IsRun(s1, ls)
            && Solver(c).After(s1, ls) == WithPending(s, t, call.order, losing.ShutDown?).Goto(t, Free)
  {
    var m, s1, n := Solver(c), Inside(s, t, h, Checked(call, h)), |s.txs|;
    var done := WithPending(s, t, call.order, losing.ShutDown?);
    match losing
    case SendLied =>
      HandlerRuns.RunOne(c, s1, Send(t, SentButFailed));
      assert Step(c, s1, Send(t, SentButFailed)) == Inside(done, t, h, Leaving(call, h));
      RunUnlock(c, done, t, call, h);
      m.Concat(s1, [Send(t, SentButFailed)], [Unlock(t)]);
    case WaitFailed =>
      HandlerRuns.RunOne(c, s1, Send(t, Sent));
      assert Step(c, s1, Send(t, Sent)) == Inside(done, t, h, Waiting(call, h, n));
      RunAbandon(c, done, t, call, h, n);
      m.Concat(s1, [Send(t, Sent)], [Abandon(t), Unlock(t)]);
    case ShutDown =>
      RunSendAndCancel(c, s, t, call, h);
      RunAbandon(c, done, t, call, h, n);
      m.Concat(s1, [Send(t, Sent), Cancel], [Abandon(t), Unlock(t)]);
  }

  lemma RunSendAndCancel(c: Config, s: State, t: Thread, call: Call, h: Handler)
    requires t < |s.pcs|
    ensures var s1, ls := Inside(s, t, h, Checked(call, h)), [Send(t, Sent), Cancel];
            && Solver(c).IsRun(s1, ls)
            && Solver(c).After(s1, ls) == Inside(WithPending(s, t, call.order, true), t, h, Waiting(call, h, |s.txs|))
  {
    var n, s1 := |s.txs|, Inside(s, t, h, Checked(call, h));
    var s2 := Inside(WithPending(s, t, call.order, false), t, h, Waiting(call, h, n));
    var s3 := Inside(WithPending(s, t, call.order, true), t, h, Waiting(call, h, n));
    HandlerRuns.RunTwo(c, s1, Send(t, Sent), s2, Cancel, s3);
  }

  lemma RunSent(c: Config, s: State, t: Thread, call: Call, h: Handler, trace: Trace)
    requires t < |s.pcs| && h !in s.held && Fits(c, s, call.order, trace) && trace.sent.Some?
    ensures var s1, ls := Inside(s, t, h, Checked(call, h)), SendLabels(t, |s.txs|, trace.sent.value, trace.losing);
            Solver(c).IsRun(s1, ls) && Solver(c).After(s1, ls) == Filled(s, t, call.order, trace)
  {
    var m, tx, n := Solver(c), trace.sent.value, |s.txs|;
    var s1, done := Inside(s, t, h, Checked(call, h)), Filled(s, t, call.order, trace).(pcs := s.pcs);
    if tx.Lost? {
      RunLosing(c, s, t, call, h, trace.losing);
    } else {
      RunSendAndMine(c, s, t, call, h, tx.Mined?);
      assert m.After(s1, [Send(t, Sent), Mine(n, tx.Mined?)]) == Inside(done, t, h, Waiting(call, h, n));
      RunConfirm(c, done, t, call, h, n);
      m.Concat(s1, [Send(t, Sent), Mine(n, tx.Mined?)], [Confirm(t), Unlock(t)]);
    }
  }

  lemma RunNotSent(c: Config, s: State, t: Thread, call: Call, h: Handler)
    requires t < |s.pcs| && h !in s.held
    ensures var s1, ls := Inside(s, t, h, Checked(call, h)), [Send(t, NotSent), Unlock(t)];
            Solver(c).IsRun(s1, ls) && Solver(c).After(s1, ls) == s.Goto(t, Free)
  {
    var s1, s2 := Inside(s, t, h, Checked(call, h)), Inside(s, t, h, Leaving(call, h));
    assert s2.held - {h} == s.held;
    HandlerRuns.RunTwo(c, s1, Send(t, NotSent), s2, Unlock(t), s.Goto(t, Free));
  }

  /** One Fill that no other goroutine interrupts, whatever it reads and whatever becomes of its fill, a wait cut
      short by a shutdown included, is a run of the protocol with the same read and the same send. */
  lemma FillIsARun(c: Config, s: State, t: Thread, call: Call, h: Handler, trace: Trace)
    requires s.At(t) == AtMutex(call, h) && h !in s.held && !call.settles && Fits(c, s, call.order, trace)
    ensures var ls := FillLabels(t, |s.txs|, trace);
            Solver(c).IsRun(s, ls) && Solver(c).After(s, ls) == Filled(s, t, call.order, trace)
  {
    var m, first := Solver(c), [Lock(t), ReadStatus(t, trace.status.Some?)];
    RunRead(c, s, t, call, h, trace);
    if trace.sent.Some? {
      RunSent(c, s, t, call, h, trace);
      m.Concat(s, first, SendLabels(t, |s.txs|, trace.sent.value, trace.losing));
    } else if Journal.MayFill(trace.status) {
      RunNotSent(c, s, t, call, h);
      m.Concat(s, first, [Send(t, NotSent), Unlock(t)]);
    } else {
      RunUnlock(c, s, t, call, h);
      m.Concat(s, first, [Unlock(t)]);
    }
  }

  /** What HyperlaneEVM.Fill promises, with the values before the call as arguments, is such a trace: one read,
      at most one send, and the action that goes with them. */
  lemma FillLeavesATrace(h: HyperlaneEVM, args: ParsedArgs, action: Handlers.Action, before: seq<Journal.Event>,
                         from: nat, allowance: Allowances, value: Option<nat>, status: Option<Journal.Status>)
    returns (trace: Trace, added: seq<Journal.Event>)
    requires h.CanTry(args)
    requires var read := before + [Journal.StatusRead(args.orderID, h.SiteOf(args), status)];
             if Journal.MayFill(status) then h.FillResult(args, action, read, from + 1, allowance, value)
             else
               && action == (if status.None? then Handlers.Failed else Handlers.SettleNext)
               && h.client.log.events == read
    ensures h.client.log.events == before + added && Adds(added, args.orderID, trace)
    ensures trace.status == status && (trace.sent.Some? ==> Journal.MayFill(status) && !trace.sent.value.NotSent?)
    ensures action.SettleNext? <==> trace.sent == Some(Journal.Mined) || (status.Some? && !Journal.MayFill(status))
  {
    var events := h.client.log.events;
    added := events[|before|..];
    trace := Trace(status, if |added| == 2 then Some(added[1].tx) else None, ShutDown);
  }
}
