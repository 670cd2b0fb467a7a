/** What holds in every run of the fill protocol, and the runs that show which conditions it needs. */
module HandlerRuns {
  import opened Wrappers
  import opened HandlerProtocol

  // ------------------------------------------------------------- one handler per chain

  /** What double-checked locking keeps. */
  ghost predicate HandlerInv(s: State) {
    LockInv(s) && MutexInv(s) && MapInv(s)
  }

  lemma InitialInv(n: nat, status: map<Order, Status>)
    ensures HandlerInv(Initial(n, status)) && FillInv(Initial(n, status)) && SendInv(Initial(n, status))
  {
  }

  lemma StepKeepsHandlers(c: Config, s: State, l: Label)
    requires c.locked && HandlerInv(s) && Enabled(c, s, l)
    ensures HandlerInv(Step(c, s, l)) && KeepsEntries(s, Step(c, s, l))
  {
    StepKeepsLocks(c, s, l);
    StepKeepsMutexes(c, s, l);
    StepKeepsMap(c, s, l);
    if Actor(l).Some? {
      MapEffect(c, s, l);
    } else {
      EnvironmentKeepsMap(c, s, l);
    }
  }

  /** Entries are never changed or removed. */
  ghost predicate KeepsEntries(s: State, t: State) {
    forall ch :: ch in s.handlers ==> IsEntry(t, ch, s.handlers[ch])
  }

  lemma LockedRun(c: Config, s: State, ls: seq<Label>)
    requires c.locked && HandlerInv(s) && Solver(c).IsRun(s, ls)
    ensures HandlerInv(Solver(c).After(s, ls)) && KeepsEntries(s, Solver(c).After(s, ls))
  {
    var inv := s => HandlerInv(s);
    forall s, l | inv(s) && Solver(c).enabled(s, l)
      ensures inv(Solver(c).step(s, l)) && KeepsEntries(s, Solver(c).step(s, l))
    {
      StepKeepsHandlers(c, s, l);
    }
    Solver(c).Always(inv, s, ls);
    Solver(c).Relates(inv, (s, t) => KeepsEntries(s, t), s, ls);
  }

  /** Under every interleaving a chain's entry is set at most once and never changed, and everyone who
      asks for the chain's handler is given the same one. */
  lemma DoubleCheckedLocking(c: Config, n: nat, status: map<Order, Status>, ls: seq<Label>, more: seq<Label>)
    requires c.locked && Solver(c).IsRun(Initial(n, status), ls)
    requires Solver(c).IsRun(Solver(c).After(Initial(n, status), ls), more)
    ensures var s := Solver(c).After(Initial(n, status), ls);
            var t := Solver(c).After(s, more);
            && KeepsEntries(s, t)
            && (forall i, j :: 0 <= i < j < |t.stores| ==> t.stores[i] != t.stores[j])
            && (forall i, j :: 0 <= i < j < |t.returned| && t.returned[i].0 == t.returned[j].0 ==>
                  t.returned[i].1 == t.returned[j].1)
  {
    InitialInv(n, status);
    LockedRun(c, Initial(n, status), ls);
    LockedRun(c, Solver(c).After(Initial(n, status), ls), more);
  }

  /** At any time at most one goroutine is inside Fill or Settle on a chain. */
  lemma OneFillerPerChain(c: Config, n: nat, status: map<Order, Status>, ls: seq<Label>, t: Thread, u: Thread)
    requires c.locked && Solver(c).IsRun(Initial(n, status), ls)
    ensures var s := Solver(c).After(Initial(n, status), ls);
            InCritical(s.At(t)) && InCritical(s.At(u)) && s.At(t).call.order.chain == s.At(u).call.order.chain ==>
                t == u
  {
    InitialInv(n, status);
    LockedRun(c, Initial(n, status), ls);
    var s := Solver(c).After(Initial(n, status), ls);
    if InCritical(s.At(t)) && InCritical(s.At(u)) && s.At(t).call.order.chain == s.At(u).call.order.chain {
      SameMutex(s, t, u);
    }
  }

  // ------------------------------------------------------------- at most one successful fill

  /** However goroutines interleave, orders are delivered again, waits are given up and others fill,
      at most one of the solver's fills of an order succeeds. */
  lemma AtMostOneFill(c: Config, n: nat, status: map<Order, Status>, ls: seq<Label>)
    requires Solver(c).IsRun(Initial(n, status), ls)
    ensures OneFill(Solver(c).After(Initial(n, status), ls))
  {
    var inv := s => FillInv(s);
    forall s, l | inv(s) && Solver(c).enabled(s, l)
      ensures inv(Solver(c).step(s, l))
    {
      StepKeepsFills(c, s, l);
    }
    InitialInv(n, status);
    Solver(c).Always(inv, Initial(n, status), ls);
  }

  // ------------------------------------------------------------- no second fill is sent

  lemma NeverDoubleSends(c: Config, n: nat, status: map<Order, Status>, ls: seq<Label>)
    requires c.locked && !c.sendsMayLie && !c.waitsMayFail && Solver(c).IsRun(Initial(n, status), ls)
    ensures NoDoubleSend(Solver(c).After(Initial(n, status), ls))
  {
    var inv := s => HandlerInv(s) && FillInv(s) && SendInv(s);
    forall s, l | inv(s) && Solver(c).enabled(s, l)
      ensures inv(Solver(c).step(s, l))
    {
      StepKeepsHandlers(c, s, l);
      StepKeepsFills(c, s, l);
      StepKeepsSends(c, s, l);
    }
    InitialInv(n, status);
    Solver(c).Always(inv, Initial(n, status), ls);
  }

  // The lookups and the critical section of one goroutine that nobody interrupts.

  function FirstLook(t: Thread, call: Call): seq<Label> {
    [Ask(t, call), RLock(t)] + [Look(t), RUnlock(t)]
  }

  function Writing(t: Thread): seq<Label> {
    [WLock(t), LookAgain(t)] + [Create(t, true), WUnlock(t)]
  }

  function CreatingLookup(t: Thread, call: Call): seq<Label> {
    FirstLook(t, call) + Writing(t)
  }

  function Sending(t: Thread, outcome: Sending): seq<Label> {
    [Lock(t), ReadStatus(t, true), Send(t, outcome)]
  }

  lemma RunOne(c: Config, s: State, l: Label)
    requires Enabled(c, s, l)
    ensures Solver(c).IsRun(s, [l]) && Solver(c).After(s, [l]) == Step(c, s, l)
  {
    assert [l][1..] == [];
  }

  lemma RunTwo(c: Config, s: State, l: Label, s1: State, l': Label, s2: State)
    requires Enabled(c, s, l) && Step(c, s, l) == s1 && Enabled(c, s1, l') && Step(c, s1, l') == s2
    ensures Solver(c).IsRun(s, [l, l']) && Solver(c).After(s, [l, l']) == s2
  {
    RunOne(c, s1, l');
    assert [l, l'][1..] == [l'];
  }

  /** The state after t took the mutex, read UNKNOWN and sent a fill. */
  function HasSent(s: State, t: Thread, outcome: Sending): State
    requires s.At(t).AtMutex?
  {
    var call, h := s.At(t).call, s.At(t).handler;
    s.Goto(t, if outcome.Sent? then Waiting(call, h, |s.txs|) else Leaving(call, h))
     .(held := s.held[h := t], txs := s.txs + [Tx(call.order, t, Pending)])
  }

  predicate MaySend(c: Config, s: State, t: Thread, outcome: Sending) {
    && s.At(t).AtMutex? && !s.At(t).call.settles && s.At(t).handler !in s.held
    && s.StatusOf(s.At(t).call.order).Unknown? && !s.cancelled
    && (outcome.Sent? || (outcome.SentButFailed? && c.sendsMayLie))
  }

  lemma RunChecking(c: Config, s: State, t: Thread, outcome: Sending)
    requires MaySend(c, s, t, outcome)
    ensures var call, h := s.At(t).call, s.At(t).handler;
            && Solver(c).IsRun(s, [Lock(t), ReadStatus(t, true)])
            && Solver(c).After(s, [Lock(t), ReadStatus(t, true)])
            == s.Goto(t, Checked(call, h)).(held := s.held[h := t])
  {
    var call, h := s.At(t).call, s.At(t).handler;
    var s1 := s.Goto(t, Locked(call, h)).(held := s.held[h := t]);
    RunTwo(c, s, Lock(t), s1, ReadStatus(t, true), s.Goto(t, Checked(call, h)).(held := s.held[h := t]));
  }

  lemma RunSending(c: Config, s: State, t: Thread, outcome: Sending)
    requires MaySend(c, s, t, outcome)
    ensures Solver(c).IsRun(s, Sending(t, outcome)) && Solver(c).After(s, Sending(t, outcome)) == HasSent(s, t, outcome)
  {
    RunChecking(c, s, t, outcome);
    Solver(c).Snoc(s, [Lock(t), ReadStatus(t, true)], Send(t, outcome));
    assert [Lock(t), ReadStatus(t, true)] + [Send(t, outcome)] == Sending(t, outcome);
  }

  lemma RunAsking(c: Config, s: State, t: Thread, call: Call)
    requires c.locked && t < |s.pcs| && s.pcs[t].Free? && s.writer.None?
    ensures Solver(c).IsRun(s, [Ask(t, call), RLock(t)])
    ensures Solver(c).After(s, [Ask(t, call), RLock(t)]) == s.Goto(t, Reading(call)).(readers := s.readers + {t})
  {
    var s2 := s.Goto(t, Reading(call)).(readers := s.readers + {t});
    RunTwo(c, s, Ask(t, call), s.Goto(t, Lookup(call)), RLock(t), s2);
  }

  /** What a first look leads to. */
  function Looked(s: State, t: Thread, call: Call): State
    requires t < |s.pcs|
  {
    var h := Entry(s, call.order.chain);
    if h.Some? then s.Return(t, call, h.value) else s.Goto(t, Missed(call))
  }

  /** What a look leads to does not depend on where the goroutine was. */
  lemma LookedFrom(s: State, s1: State, t: Thread, call: Call)
    requires t < |s.pcs| && s1 == s.(pcs := s1.pcs) && s1.pcs == s.pcs[t := s1.At(t)]
    ensures Looked(s1, t, call) == Looked(s, t, call)
  {
    var h := Entry(s, call.order.chain);
    var pc := if h.Some? then AtMutex(call, h.value) else Missed(call);
    assert s1.pcs[t := pc] == s.pcs[t := pc];
  }

  lemma LookAndUnlock(c: Config, s: State, t: Thread, call: Call)
    requires s.At(t) == Reading(call)
    ensures Enabled(c, s, Look(t))
    ensures var s1 := Step(c, s, Look(t));
            && Enabled(c, s1, RUnlock(t))
            && Step(c, s1, RUnlock(t)) == Looked(s.(readers := s.readers - {t}), t, call)
  {
    var s1 := s.Goto(t, HasRead(call, Entry(s, call.order.chain)));
    assert Step(c, s, Look(t)) == s1;
    var s2 := s1.(readers := s.readers - {t});
    assert Step(c, s1, RUnlock(t)) == Looked(s2, t, call);
    LookedFrom(s.(readers := s.readers - {t}), s2, t, call);
  }

  lemma RunLooking(c: Config, s: State, t: Thread, call: Call)
    requires s.At(t) == Reading(call)
    ensures Solver(c).IsRun(s, [Look(t), RUnlock(t)])
    ensures Solver(c).After(s, [Look(t), RUnlock(t)]) == Looked(s.(readers := s.readers - {t}), t, call)
  {
    LookAndUnlock(c, s, t, call);
    var s1 := Step(c, s, Look(t));
    RunTwo(c, s, Look(t), s1, RUnlock(t), Step(c, s1, RUnlock(t)));
  }

  /** A first look that nobody interrupts returns the chain's entry or misses. */
  lemma RunLookup(c: Config, s: State, t: Thread, call: Call)
    requires c.locked && t < |s.pcs| && s.pcs[t].Free? && s.writer.None? && t !in s.readers
    ensures Solver(c).IsRun(s, FirstLook(t, call)) && Solver(c).After(s, FirstLook(t, call)) == Looked(s, t, call)
  {
    var s1 := s.Goto(t, Reading(call)).(readers := s.readers + {t});
    RunAsking(c, s, t, call);
    RunLooking(c, s1, t, call);
    Solver(c).Concat(s, [Ask(t, call), RLock(t)], [Look(t), RUnlock(t)]);
    assert s1.readers - {t} == s.readers;
  }

  lemma RunTakingTheLock(c: Config, s: State, t: Thread, call: Call)
    requires s.At(t) == Missed(call) && s.writer.None? && s.readers == {} && call.order.chain !in s.handlers
    ensures Solver(c).IsRun(s, [WLock(t), LookAgain(t)])
    ensures Solver(c).After(s, [WLock(t), LookAgain(t)]) == s.Goto(t, Creating(call)).(writer := Some(t))
  {
    var s1 := s.Goto(t, HandlerProtocol.Writing(call)).(writer := Some(t));
    RunTwo(c, s, WLock(t), s1, LookAgain(t), s.Goto(t, Creating(call)).(writer := Some(t)));
  }

  lemma RunStoring(c: Config, s: State, t: Thread, call: Call)
    requires s.At(t) == Creating(call)
    ensures Solver(c).IsRun(s, [Create(t, true), WUnlock(t)])
    ensures Solver(c).After(s, [Create(t, true), WUnlock(t)])
         == Store(s, t, call.order.chain).(writer := None).Return(t, call, s.next)
  {
    var s1 := Store(s, t, call.order.chain).Goto(t, HasWritten(call, Some(s.next)));
    var s2 := Store(s, t, call.order.chain).(writer := None).Return(t, call, s.next);
    RunTwo(c, s, Create(t, true), s1, WUnlock(t), s2);
  }

  lemma RunWriting(c: Config, s: State, t: Thread, call: Call)
    requires s.At(t) == Missed(call) && s.writer.None? && s.readers == {} && call.order.chain !in s.handlers
    ensures Solver(c).IsRun(s, Writing(t))
    ensures Solver(c).After(s, Writing(t)) == Store(s, t, call.order.chain).Return(t, call, s.next)
  {
    RunTakingTheLock(c, s, t, call);
    RunStoring(c, s.Goto(t, Creating(call)).(writer := Some(t)), t, call);
    Solver(c).Concat(s, [WLock(t), LookAgain(t)], [Create(t, true), WUnlock(t)]);
  }

  lemma RunCreating(c: Config, s: State, t: Thread, call: Call)
    requires c.locked && t < |s.pcs| && s.pcs[t].Free? && s.writer.None? && s.readers == {}
    requires call.order.chain !in s.handlers
    ensures Solver(c).IsRun(s, CreatingLookup(t, call))
    ensures Solver(c).After(s, CreatingLookup(t, call)) == Store(s, t, call.order.chain).Return(t, call, s.next)
  {
    var s1 := s.Goto(t, Missed(call));
    RunLookup(c, s, t, call);
    assert Looked(s, t, call) == s1;
    RunWriting(c, s1, t, call);
    Solver(c).Concat(s, FirstLook(t, call), Writing(t));
    assert Store(s1, t, call.order.chain).Return(t, call, s.next)
        == Store(s, t, call.order.chain).Return(t, call, s.next);
  }

  /** How a fill can get out and the goroutine return although nobody knows what became of it: the send
      itself reported an error, or the wait for it did. */
  predicate LosesTrack(c: Config, outcome: Sending) {
    (outcome.SentButFailed? && c.sendsMayLie) || (outcome.Sent? && c.waitsMayFail)
  }

  function LettingGo(outcome: Sending): seq<Label> {
    if outcome.Sent? then [Abandon(0), Unlock(0)] else [Unlock(0)]
  }

  function Again(call: Call): seq<Label> {
    FirstLook(0, call) + Sending(0, Sent)
  }

  /** Track of a fill is lost, the order is delivered again, and the second fill goes out while the first
      is still pending. */
  function SendTwice(call: Call, outcome: Sending): seq<Label> {
    CreatingLookup(0, call) + (Sending(0, outcome) + (LettingGo(outcome) + Again(call)))
  }

  lemma RunAgain(c: Config, s: State, call: Call)
    requires c.locked && s.At(0).Free? && |s.pcs| > 0 && s.writer.None? && s.readers == {} && !call.settles
    requires call.order.chain in s.handlers && s.held == map[] && s.StatusOf(call.order).Unknown? && !s.cancelled
    ensures Solver(c).IsRun(s, Again(call))
    ensures Solver(c).After(s, Again(call)).txs == s.txs + [Tx(call.order, 0, Pending)]
  {
    RunLookup(c, s, 0, call);
    RunSending(c, s.Return(0, call, s.handlers[call.order.chain]), 0, Sent);
    Solver(c).Concat(s, FirstLook(0, call), Sending(0, Sent));
  }

  lemma RunLettingGo(c: Config, s: State, outcome: Sending)
    requires LosesTrack(c, outcome)
    requires if outcome.Sent? then s.At(0).Waiting? else s.At(0).Leaving?
    requires s.held == map[s.At(0).handler := 0]
    ensures Solver(c).IsRun(s, LettingGo(outcome))
    ensures Solver(c).After(s, LettingGo(outcome)) == s.Goto(0, Free).(held := map[])
  {
    assert s.held - {s.At(0).handler} == map[];
    if outcome.Sent? {
      var s1 := s.Goto(0, Leaving(s.At(0).call, s.At(0).handler));
      RunTwo(c, s, Abandon(0), s1, Unlock(0), s.Goto(0, Free).(held := map[]));
    } else {
      RunOne(c, s, Unlock(0));
    }
  }

  lemma LosingTrackDoubleSends(c: Config, n: nat, call: Call, outcome: Sending)
    requires c.locked && LosesTrack(c, outcome) && n > 0 && !call.settles
    ensures var m, ls := Solver(c), SendTwice(call, outcome);
            m.IsRun(Initial(n, map[]), ls) && !NoDoubleSend(m.After(Initial(n, map[]), ls))
  {
    var m, s0 := Solver(c), Initial(n, map[]);
    var s1 := Store(s0, 0, call.order.chain).Return(0, call, 0);
    RunCreating(c, s0, 0, call);
    RunSending(c, s1, 0, outcome);
    var s2 := HasSent(s1, 0, outcome);
    RunLettingGo(c, s2, outcome);
    var s3 := s2.Goto(0, Free).(held := map[]);
    RunAgain(c, s3, call);
    var s4 := m.After(s3, Again(call));
    m.Concat(s2, LettingGo(outcome), Again(call));
    m.Concat(s1, Sending(0, outcome), LettingGo(outcome) + Again(call));
    m.Concat(s0, CreatingLookup(0, call), Sending(0, outcome) + (LettingGo(outcome) + Again(call)));
    assert SameOrder(s4, 0, 1) && s4.txs[0].state.Pending?;
  }

  /** Two goroutines both see no handler, and make one each. */
  function BothMake(call: Call): seq<Label> {
    [Ask(0, call), Ask(1, call), Peek(0), Peek(1), Make(0, true), Make(1, true)]
  }

  lemma RunBothMake(c: Config, n: nat, call: Call)
    requires !c.locked && n > 1
    ensures Solver(c).IsRun(Initial(n, map[]), BothMake(call))
    ensures var s := Solver(c).After(Initial(n, map[]), BothMake(call));
            && s.At(0) == AtMutex(call, 0) && s.At(1) == AtMutex(call, 1) && s.held == map[]
            && s.status == map[] && s.txs == [] && !s.cancelled
  {
    var ls, m, s0 := BothMake(call), Solver(c), Initial(n, map[]);
    var s1 := Step(c, s0, ls[0]);
    var s2 := Step(c, s1, ls[1]);
    var s3 := Step(c, s2, ls[2]);
    var s4 := Step(c, s3, ls[3]);
    var s5 := Step(c, s4, ls[4]);
    var s6 := Step(c, s5, ls[5]);
    m.From(s5, ls, 5);
    m.From(s4, ls, 4);
    m.From(s3, ls, 3);
    m.From(s2, ls, 2);
    m.From(s1, ls, 1);
    m.From(s0, ls, 0);
    assert ls[0..] == ls && ls[6..] == [];
  }

  lemma UnlockedDoubleSends(c: Config, n: nat, call: Call)
    requires !c.locked && n > 1 && !call.settles
    ensures var m, ls := Solver(c), BothMake(call) + (Sending(0, Sent) + Sending(1, Sent));
            m.IsRun(Initial(n, map[]), ls) && !NoDoubleSend(m.After(Initial(n, map[]), ls))
  {
    var m, s0 := Solver(c), Initial(n, map[]);
    RunBothMake(c, n, call);
    var s1 := m.After(s0, BothMake(call));
    RunSending(c, s1, 0, Sent);
    var s2 := HasSent(s1, 0, Sent);
    RunSending(c, s2, 1, Sent);
    var s3 := HasSent(s2, 1, Sent);
    m.Concat(s1, Sending(0, Sent), Sending(1, Sent));
    m.Concat(s0, BothMake(call), Sending(0, Sent) + Sending(1, Sent));
    assert SameOrder(s3, 0, 1) && s3.txs[0].state.Pending?;
  }

  /** With several goroutines, no run sends a fill over a pending or successful one of the same order
      if and only if handlers are looked up under the lock, a send that reports an error sent nothing, and
      a wait for a sent fill fails only when the process is shutting down. */
  lemma NeverDoubleSendsIff(c: Config, n: nat)
    requires n > 1
    ensures c.locked && !c.sendsMayLie && !c.waitsMayFail <==>
            forall status, ls :: Solver(c).IsRun(Initial(n, status), ls) ==>
              NoDoubleSend(Solver(c).After(Initial(n, status), ls))
  {
    var call := Call(Order(0, 0), false);
    if !c.locked {
      UnlockedDoubleSends(c, n, call);
    } else if c.sendsMayLie {
      LosingTrackDoubleSends(c, n, call, SentButFailed);
    } else if c.waitsMayFail {
      LosingTrackDoubleSends(c, n, call, Sent);
    } else {
      forall status, ls | Solver(c).IsRun(Initial(n, status), ls)
        ensures NoDoubleSend(Solver(c).After(Initial(n, status), ls))
      {
        NeverDoubleSends(c, n, status, ls);
      }
    }
  }
}
