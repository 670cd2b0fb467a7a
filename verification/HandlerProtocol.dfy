/** Several goroutines filling orders at once: handler lookup (solver.go), the fill critical section
    under the handler's mutex (hyperlane_evm.go), and the destination contract as environment. */
module HandlerProtocol {
  import opened Wrappers
  import opened Runs

  type Chain = nat
  type Thread = nat
  type Handler = nat

  /** An order on its destination chain. */
  datatype Order = Order(chain: Chain, id: nat)

  /** What a goroutine is asked to do with the chain's handler: fill, or settle. */
  datatype Call = Call(order: Order, settles: bool)

  datatype Status = Unknown | Filled | Settled

  datatype TxState = Pending | Succeeded | Reverted

  datatype Tx = Tx(order: Order, sender: Thread, state: TxState)

  /** Where a goroutine is. */
  datatype Pc =
    | Free
    | Lookup(call: Call)                             // before RLock
    | Reading(call: Call)                            // holds the read lock
    | HasRead(call: Call, found: Option<Handler>)    // looked, not yet unlocked
    | Missed(call: Call)                             // before Lock
    | Writing(call: Call)                            // holds the write lock
    | Creating(call: Call)                           // still absent on the second look
    | HasWritten(call: Call, made: Option<Handler>)  // before the deferred Unlock
    | Making(call: Call)                             // Starknet only: saw nil, without any lock
    | AtMutex(call: Call, handler: Handler)          // getHandler returned
    | Locked(call: Call, handler: Handler)           // in Fill, before the status read
    | Settling(call: Call, handler: Handler)         // in Settle
    | Checked(call: Call, handler: Handler)          // read neither FILLED nor SETTLED
    | Waiting(call: Call, handler: Handler, tx: nat) // fill sent
    | Leaving(call: Call, handler: Handler)          // before the deferred Unlock

  /** locked: lookup as in getEVMHandler, else as in getStarknetHandler.
      sendsMayLie: a send may report an error although the transaction got out.
      waitsMayFail: a wait may fail while the process lives on. On an EVM chain it does not: the wait ends
      without a receipt only when the context does, which is that of the whole process. */
  datatype Config = Config(locked: bool, sendsMayLie: bool, waitsMayFail: bool)

  datatype State = State(
    pcs: seq<Pc>,
    readers: set<Thread>,
    writer: Option<Thread>,
    handlers: map<Chain, Handler>,
    next: Handler,                        // the next handler object
    stores: seq<Chain>,                   // every store into the map
    returned: seq<(Chain, Handler)>,      // every handler handed out
    held: map<Handler, Thread>,           // locked mutexes
    status: map<Order, Status>,           // on the destination; absent is Unknown
    txs: seq<Tx>,                         // the solver's fills, in the order sent
    cancelled: bool                       // the process is shutting down
  ) {
    function StatusOf(order: Order): Status {
      if order in status then status[order] else Unknown
    }

    function At(t: Thread): Pc {
      if t < |pcs| then pcs[t] else Free
    }

    function Goto(t: Thread, pc: Pc): State
      requires t < |pcs|
    {
      this.(pcs := pcs[t := pc])
    }

    /** getHandler returns h to t. */
    function Return(t: Thread, call: Call, h: Handler): State
      requires t < |pcs|
    {
      Goto(t, AtMutex(call, h)).(returned := returned + [(call.order.chain, h)])
    }
  }

  datatype Sending = NotSent | Sent | SentButFailed

  datatype Label =
    | Ask(t: Thread, call: Call)
    | RLock(t: Thread)
    | Look(t: Thread)
    | RUnlock(t: Thread)
    | WLock(t: Thread)
    | LookAgain(t: Thread)
    | Create(t: Thread, ok: bool)         // client and signer; then the store
    | WUnlock(t: Thread)
    | Peek(t: Thread)
    | Make(t: Thread, ok: bool)
    | Lock(t: Thread)
    | ReadStatus(t: Thread, ok: bool)
    | Send(t: Thread, outcome: Sending)   // approvals, then the fill transaction
    | Confirm(t: Thread)                  // the wait returns a receipt
    | Abandon(t: Thread)                  // the wait fails
    | EndSettle(t: Thread)                // Settle returns; it sends no fill
    | Unlock(t: Thread)
    | Cancel                              // the process's context is cancelled
    | Mine(i: nat, runs: bool)            // runs: it would not fail for other reasons
    | OthersFill(order: Order)
    | Settle(order: Order)

  predicate Enabled(c: Config, s: State, l: Label) {
    match l
    case Ask(t, _) => t < |s.pcs| && s.pcs[t].Free?
    case RLock(t) => c.locked && s.At(t).Lookup? && s.writer.None?
    case Look(t) => s.At(t).Reading?
    case RUnlock(t) => s.At(t).HasRead?
    case WLock(t) => s.At(t).Missed? && s.writer.None? && s.readers == {}
    case LookAgain(t) => s.At(t).Writing?
    case Create(t, _) => s.At(t).Creating?
    case WUnlock(t) => s.At(t).HasWritten?
    case Peek(t) => !c.locked && s.At(t).Lookup?
    case Make(t, _) => s.At(t).Making?
    case Lock(t) => s.At(t).AtMutex? && s.At(t).handler !in s.held
    case ReadStatus(t, ok) => s.At(t).Locked? && (ok ==> !s.cancelled)
    case Send(t, outcome) => s.At(t).Checked? && (outcome.SentButFailed? ==> c.sendsMayLie)
    case Confirm(t) => s.At(t).Waiting? && s.At(t).tx < |s.txs| && !s.txs[s.At(t).tx].state.Pending?
    case Abandon(t) => s.At(t).Waiting? && (s.cancelled || c.waitsMayFail)
    case EndSettle(t) => s.At(t).Settling?
    case Unlock(t) => s.At(t).Leaving?
    case Cancel => true
    case Mine(i, _) => i < |s.txs| && s.txs[i].state.Pending?
    case OthersFill(order) => s.StatusOf(order).Unknown?
    case Settle(order) => s.StatusOf(order).Filled?
  }

  predicate IsReadLabel(l: Label) {
    l.RLock? || l.Look? || l.RUnlock?
  }

  predicate IsWriteLabel(l: Label) {
    l.WLock? || l.LookAgain? || l.Create? || l.WUnlock?
  }

  predicate IsFillLabel(l: Label) {
    l.Lock? || l.ReadStatus? || l.Send? || l.Confirm? || l.Abandon? || l.EndSettle? || l.Unlock?
  }

  /** Who takes the step; nobody, for a step of the environment. */
  function Actor(l: Label): Option<Thread> {
    if l.Mine? || l.OthersFill? || l.Settle? || l.Cancel? then None else Some(l.t)
  }

  /** The first look, under the read lock. */
  function ReadStep(c: Config, s: State, l: Label): State
    requires Enabled(c, s, l)
    requires IsReadLabel(l)
  {
    var t, call := l.t, s.At(l.t).call;
    match l
    case RLock(_) => s.Goto(t, Reading(call)).(readers := s.readers + {t})
    case Look(_) => s.Goto(t, HasRead(call, Entry(s, call.order.chain)))
    case RUnlock(_) =>
      var s', found := s.(readers := s.readers - {t}), s.At(t).found;
      if found.Some? then s'.Return(t, call, found.value) else s'.Goto(t, Missed(call))
  }

  /** The second look, under the write lock. */
  function WriteStep(c: Config, s: State, l: Label): State
    requires Enabled(c, s, l)
    requires IsWriteLabel(l)
  {
    var t, call := l.t, s.At(l.t).call;
    match l
    case WLock(_) => s.Goto(t, Writing(call)).(writer := Some(t))
    case LookAgain(_) =>
      var found := Entry(s, call.order.chain);
      if found.Some? then s.Goto(t, HasWritten(call, found)) else s.Goto(t, Creating(call))
    case Create(_, ok) =>
      if !ok then s.Goto(t, HasWritten(call, None))
      else Store(s, t, call.order.chain).Goto(t, HasWritten(call, Some(s.next)))
    case WUnlock(_) =>
      var s', made := s.(writer := None), s.At(t).made;
      if made.Some? then s'.Return(t, call, made.value) else s'.Goto(t, Free)
  }

  function Entry(s: State, chain: Chain): Option<Handler> {
    if chain in s.handlers then Some(s.handlers[chain]) else None
  }

  /** A new handler object, stored in the map. */
  function Store(s: State, t: Thread, chain: Chain): State {
    s.(handlers := s.handlers[chain := s.next], next := s.next + 1, stores := s.stores + [chain])
  }

  /** The unlocked lookup of the one Starknet handler. */
  function PeekStep(s: State, t: Thread): State
    requires s.At(t).Lookup?
  {
    if 0 in s.handlers then s.Return(t, s.At(t).call, s.handlers[0]) else s.Goto(t, Making(s.At(t).call))
  }

  function MakeStep(s: State, t: Thread, ok: bool): State
    requires s.At(t).Making?
  {
    if !ok then s.Goto(t, Free) else Store(s, t, 0).Return(t, s.At(t).call, s.next)
  }

  /** What one goroutine has made, an unlocked lookup of another finds. */
  lemma MadeIsFound(s: State, t: Thread, u: Thread)
    requires t != u && s.At(t).Making? && s.At(u).Lookup?
    ensures var made := MakeStep(s, t, true); PeekStep(made, u) == made.Return(u, s.At(u).call, s.next)
  {
  }

  /** Fill, from the handler's mutex to its release. */
  function FillStep(c: Config, s: State, l: Label): State
    requires Enabled(c, s, l)
    requires IsFillLabel(l)
  {
    var t, call, h := l.t, s.At(l.t).call, s.At(l.t).handler;
    match l
    case Lock(_) => s.Goto(t, if call.settles then Settling(call, h) else Locked(call, h)).(held := s.held[h := t])
    case ReadStatus(_, ok) =>
      if ok && s.StatusOf(call.order).Unknown? then s.Goto(t, Checked(call, h)) else s.Goto(t, Leaving(call, h))
    case Send(_, outcome) =>
      if outcome.NotSent? then s.Goto(t, Leaving(call, h))
      else
        s.Goto(t, if outcome.Sent? then Waiting(call, h, |s.txs|) else Leaving(call, h))
         .(txs := s.txs + [Tx(call.order, t, Pending)])
    case Confirm(_) => s.Goto(t, Leaving(call, h))
    case Abandon(_) => s.Goto(t, Leaving(call, h))
    case EndSettle(_) => s.Goto(t, Leaving(call, h))
    case Unlock(_) => s.Goto(t, Free).(held := s.held - {h})
  }

  /** The destination chain: a fill succeeds only from Unknown, and the status never goes back. */
  function ChainStep(c: Config, s: State, l: Label): State
    requires Enabled(c, s, l)
    requires Actor(l).None?
  {
    match l
    case Mine(i, runs) =>
      var tx := s.txs[i];
      if runs && s.StatusOf(tx.order).Unknown?
      then s.(txs := s.txs[i := tx.(state := Succeeded)], status := s.status[tx.order := Filled])
      else s.(txs := s.txs[i := tx.(state := Reverted)])
    case OthersFill(order) => s.(status := s.status[order := Filled])
    case Settle(order) => s.(status := s.status[order := Settled])
    case Cancel => s.(cancelled := true)
  }

  function Step(c: Config, s: State, l: Label): State {
    if !Enabled(c, s, l) then s
    else if l.Ask? then s.Goto(l.t, Lookup(l.call))
    else if l.Peek? then PeekStep(s, l.t)
    else if l.Make? then MakeStep(s, l.t, l.ok)
    else if Actor(l).None? then ChainStep(c, s, l)
    else if IsFillLabel(l) then FillStep(c, s, l)
    else if IsReadLabel(l) then ReadStep(c, s, l)
    else WriteStep(c, s, l)
  }

  function Solver(c: Config): Machine<State, Label> {
    Machine((s, l) => Enabled(c, s, l), (s, l) => Step(c, s, l))
  }

  /** n goroutines, no handler yet, and orders in any state on the destination. */
  function Initial(n: nat, status: map<Order, Status>): State {
    State(seq(n, i => Free), {}, None, map[], 0, [], [], map[], status, [], false)
  }

  // ------------------------------------------------------------- the locks

  predicate IsReader(pc: Pc) {
    pc.Reading? || pc.HasRead?
  }

  predicate IsWriter(pc: Pc) {
    pc.Writing? || pc.Creating? || pc.HasWritten?
  }

  predicate InCritical(pc: Pc) {
    pc.Locked? || pc.Settling? || pc.Checked? || pc.Waiting? || pc.Leaving?
  }

  /** The read-write lock is held by exactly the goroutines that are inside it. */
  ghost predicate LockInv(s: State) {
    && (forall t: Thread :: t in s.readers <==> IsReader(s.At(t)))
    && (forall t: Thread :: s.writer == Some(t) <==> IsWriter(s.At(t)))
    && (s.writer.Some? ==> s.readers == {})
  }

  /** A handler's mutex is held by exactly the goroutine in its critical section. */
  ghost predicate MutexInv(s: State) {
    && (forall t: Thread :: InCritical(s.At(t)) ==> s.At(t).handler in s.held && s.held[s.At(t).handler] == t)
    && (forall h :: h in s.held ==> InCritical(s.At(s.held[h])) && s.At(s.held[h]).handler == h)
  }

  /** A goroutine's step enters or leaves the read-write lock, or does neither. */
  predicate LockEffect(s: State, s': State, t: Thread) {
    var pc, pc' := s.At(t), s'.At(t);
    || (IsReader(pc') == IsReader(pc) && IsWriter(pc') == IsWriter(pc) && s'.readers == s.readers
        && s'.writer == s.writer)
    || (!IsReader(pc) && IsReader(pc') && !IsWriter(pc) && s.writer.None?
        && s'.readers == s.readers + {t} && s'.writer.None?)
    || (IsReader(pc) && !IsReader(pc') && !IsWriter(pc') && s'.readers == s.readers - {t} && s'.writer == s.writer)
    || (!IsReader(pc) && !IsWriter(pc) && IsWriter(pc') && s.writer.None?
        && s.readers == {} == s'.readers && s'.writer == Some(t))
    || (IsWriter(pc) && !IsWriter(pc') && !IsReader(pc') && s'.readers == s.readers && s'.writer.None?)
  }

  /** A goroutine's step enters or leaves a critical section, or does neither. */
  predicate MutexEffect(s: State, s': State, t: Thread) {
    var pc, pc' := s.At(t), s'.At(t);
    || (!InCritical(pc) && !InCritical(pc') && s'.held == s.held)
    || (InCritical(pc) && InCritical(pc') && pc'.handler == pc.handler && s'.held == s.held)
    || (!InCritical(pc) && InCritical(pc') && pc'.handler !in s.held && s'.held == s.held[pc'.handler := t])
    || (InCritical(pc) && !InCritical(pc') && s'.held == s.held - {pc.handler})
  }

  predicate Effect(s: State, s': State, t: Thread) {
    t < |s.pcs| && s'.pcs == s.pcs[t := s'.At(t)] && LockEffect(s, s', t) && MutexEffect(s, s', t)
  }

  lemma ReadEffect(c: Config, s: State, l: Label)
    requires Enabled(c, s, l)
    requires IsReadLabel(l)
    ensures Effect(s, ReadStep(c, s, l), l.t)
  {
  }

  /** A lookup never touches a handler's mutex. */
  lemma WriteMutexEffect(c: Config, s: State, l: Label)
    requires Enabled(c, s, l)
    requires IsWriteLabel(l)
    ensures MutexEffect(s, WriteStep(c, s, l), l.t)
  {
  }

  lemma WriteEffect(c: Config, s: State, l: Label)
    requires Enabled(c, s, l)
    requires IsWriteLabel(l)
    ensures Effect(s, WriteStep(c, s, l), l.t)
  {
    WriteMutexEffect(c, s, l);
  }

  lemma AskEffect(c: Config, s: State, l: Label)
    requires Enabled(c, s, l) && (l.Ask? || l.Peek? || l.Make?)
    ensures Effect(s, Step(c, s, l), l.t)
  {
  }

  /** Fill never touches the read-write lock. */
  lemma FillLockEffect(c: Config, s: State, l: Label)
    requires Enabled(c, s, l)
    requires IsFillLabel(l)
    ensures var s', t := FillStep(c, s, l), l.t;
            && t < |s.pcs| && s'.pcs == s.pcs[t := s'.At(t)]
            && !IsReader(s.At(t)) && !IsWriter(s.At(t)) && !IsReader(s'.At(t)) && !IsWriter(s'.At(t))
            && s'.readers == s.readers && s'.writer == s.writer
  {
  }

  lemma FillMutexEffect(c: Config, s: State, l: Label)
    requires Enabled(c, s, l)
    requires IsFillLabel(l)
    ensures MutexEffect(s, FillStep(c, s, l), l.t)
  {
  }

  lemma FillEffect(c: Config, s: State, l: Label)
    requires Enabled(c, s, l)
    requires IsFillLabel(l)
    ensures Effect(s, FillStep(c, s, l), l.t)
  {
    FillLockEffect(c, s, l);
    FillMutexEffect(c, s, l);
  }

  lemma StepEffect(c: Config, s: State, l: Label)
    requires Enabled(c, s, l)
    ensures var s' := Step(c, s, l);
            match Actor(l)
            case None => s'.pcs == s.pcs && s'.readers == s.readers && s'.writer == s.writer && s'.held == s.held
            case Some(t) => Effect(s, s', t)
  {
    if Actor(l).Some? {
      if IsFillLabel(l) {
        FillEffect(c, s, l);
      } else if IsReadLabel(l) {
        ReadEffect(c, s, l);
      } else if IsWriteLabel(l) {
        WriteEffect(c, s, l);
      } else {
        AskEffect(c, s, l);
      }
    }
  }

  lemma StepKeepsLocks(c: Config, s: State, l: Label)
    requires LockInv(s) && Enabled(c, s, l)
    ensures LockInv(Step(c, s, l))
  {
    StepEffect(c, s, l);
    LocksFrom(s, Step(c, s, l), Actor(l));
  }

  lemma LocksFrom(s: State, s': State, actor: Option<Thread>)
    requires LockInv(s)
    requires actor.None? ==> s'.pcs == s.pcs && s'.readers == s.readers && s'.writer == s.writer
    requires actor.Some? ==> Effect(s, s', actor.value)
    ensures LockInv(s')
  {
  }

  lemma StepKeepsMutexes(c: Config, s: State, l: Label)
    requires MutexInv(s) && Enabled(c, s, l)
    ensures MutexInv(Step(c, s, l))
  {
    StepEffect(c, s, l);
    MutexesFrom(s, Step(c, s, l), Actor(l));
  }

  lemma MutexesFrom(s: State, s': State, actor: Option<Thread>)
    requires MutexInv(s)
    requires actor.None? ==> s'.pcs == s.pcs && s'.held == s.held
    requires actor.Some? ==> Effect(s, s', actor.value)
    ensures MutexInv(s')
  {
    forall u: Thread | InCritical(s'.At(u))
      ensures s'.At(u).handler in s'.held && s'.held[s'.At(u).handler] == u
    {
      assert actor != Some(u) ==> s'.At(u) == s.At(u);
    }
  }

  // ------------------------------------------------------------- double-checked locking

  /** The handler a goroutine has in hand. */
  function InHand(pc: Pc): Option<Handler> {
    match pc
    case HasRead(_, found) => found
    case HasWritten(_, made) => made
    case AtMutex(_, h) => Some(h)
    case Locked(_, h) => Some(h)
    case Settling(_, h) => Some(h)
    case Checked(_, h) => Some(h)
    case Waiting(_, h, _) => Some(h)
    case Leaving(_, h) => Some(h)
    case _ => None
  }

  predicate IsEntry(s: State, chain: Chain, h: Handler) {
    chain in s.handlers && s.handlers[chain] == h
  }

  /** Every store was the first for its chain, handlers of different chains differ, and every handler
      handed out is the one in the map. */
  ghost predicate EntriesInv(s: State) {
    && (forall ch :: ch in s.handlers <==> ch in s.stores)
    && (forall i, j :: 0 <= i < j < |s.stores| ==> s.stores[i] != s.stores[j])
    && (forall ch :: ch in s.handlers ==> s.handlers[ch] < s.next)
    && (forall a, b :: a in s.handlers && b in s.handlers && a != b ==> s.handlers[a] != s.handlers[b])
    && (forall i :: 0 <= i < |s.returned| ==> IsEntry(s, s.returned[i].0, s.returned[i].1))
  }

  /** The handler a goroutine has in hand is the one in the map, and whoever creates one finds no entry. */
  ghost predicate HandsInv(s: State) {
    && (forall t: Thread :: s.At(t).Creating? ==> s.At(t).call.order.chain !in s.handlers)
    && (forall t: Thread :: InHand(s.At(t)).Some? ==> IsEntry(s, s.At(t).call.order.chain, InHand(s.At(t)).value))
    && (forall t: Thread :: !s.At(t).Making?)
  }

  ghost predicate MapInv(s: State) {
    EntriesInv(s) && HandsInv(s)
  }

  /** A step that leaves the map alone. */
  predicate ReadsMap(s: State, s': State, t: Thread) {
    var pc, pc' := s.At(t), s'.At(t);
    && s'.handlers == s.handlers && s'.next == s.next && s'.stores == s.stores && !pc'.Making?
    && (s'.returned == s.returned
        || (InHand(pc).Some? && s'.returned == s.returned + [(pc.call.order.chain, InHand(pc).value)]))
    && (pc'.Creating? ==> pc'.call.order.chain !in s.handlers)
    && (InHand(pc').Some? ==> IsEntry(s, pc'.call.order.chain, InHand(pc').value)
                              || (pc' != Free && pc != Free && pc'.call == pc.call && InHand(pc') == InHand(pc)))
  }

  /** The one step that stores. */
  predicate StoresEntry(s: State, s': State, t: Thread) {
    var pc := s.At(t);
    && pc.Creating? && s'.At(t) == HasWritten(pc.call, Some(s.next))
    && s'.handlers == s.handlers[pc.call.order.chain := s.next] && s'.next == s.next + 1
    && s'.stores == s.stores + [pc.call.order.chain] && s'.returned == s.returned
  }

  lemma ReadMapEffect(c: Config, s: State, l: Label)
    requires Enabled(c, s, l)
    requires IsReadLabel(l)
    ensures ReadsMap(s, ReadStep(c, s, l), l.t)
  {
  }

  lemma WriteMapEffect(c: Config, s: State, l: Label)
    requires Enabled(c, s, l)
    requires IsWriteLabel(l)
    ensures var s' := WriteStep(c, s, l); ReadsMap(s, s', l.t) || StoresEntry(s, s', l.t)
  {
    if l.Create? && l.ok {
      assert StoresEntry(s, WriteStep(c, s, l), l.t);
    } else {
      assert ReadsMap(s, WriteStep(c, s, l), l.t);
    }
  }

  predicate HasHandler(pc: Pc) {
    pc.AtMutex? || InCritical(pc)
  }

  lemma InHandMeans(pc: Pc)
    ensures HasHandler(pc) ==> InHand(pc) == Some(pc.handler)
  {
  }

  /** Fill works with the handler it was given and leaves the map alone. */
  lemma FillKeepsHand(c: Config, s: State, l: Label)
    requires Enabled(c, s, l)
    requires IsFillLabel(l)
    ensures var s', pc := FillStep(c, s, l), s.At(l.t);
            && s'.handlers == s.handlers && s'.next == s.next && s'.stores == s.stores && s'.returned == s.returned
            && HasHandler(pc)
            && (s'.At(l.t).Free?
                || (HasHandler(s'.At(l.t)) && s'.At(l.t).call == pc.call && s'.At(l.t).handler == pc.handler))
  {
  }

  lemma FillMapEffect(c: Config, s: State, l: Label)
    requires Enabled(c, s, l)
    requires IsFillLabel(l)
    ensures ReadsMap(s, FillStep(c, s, l), l.t)
  {
    FillKeepsHand(c, s, l);
    InHandMeans(s.At(l.t));
    InHandMeans(FillStep(c, s, l).At(l.t));
  }

  lemma MapEffect(c: Config, s: State, l: Label)
    requires c.locked && Enabled(c, s, l) && Actor(l).Some? && !s.At(l.t).Making?
    ensures var s' := Step(c, s, l); ReadsMap(s, s', l.t) || StoresEntry(s, s', l.t)
  {
    if IsFillLabel(l) {
      FillMapEffect(c, s, l);
    } else if IsReadLabel(l) {
      ReadMapEffect(c, s, l);
    } else if IsWriteLabel(l) {
      WriteMapEffect(c, s, l);
    }
  }

  lemma EnvironmentKeepsMap(c: Config, s: State, l: Label)
    requires Enabled(c, s, l) && Actor(l).None?
    ensures var s' := Step(c, s, l);
            && (forall t: Thread :: s'.At(t) == s.At(t))
            && s'.handlers == s.handlers && s'.next == s.next && s'.stores == s.stores && s'.returned == s.returned
  {
  }

  lemma ReadKeepsMap(s: State, s': State, t: Thread)
    requires MapInv(s) && Effect(s, s', t) && ReadsMap(s, s', t)
    ensures MapInv(s')
  {
    assert forall u: Thread :: u != t ==> s'.At(u) == s.At(u);
  }

  lemma StoreKeepsEntries(s: State, s': State, t: Thread)
    requires MapInv(s) && StoresEntry(s, s', t)
    ensures EntriesInv(s')
  {
    assert s.At(t).call.order.chain !in s.stores;
  }

  lemma StoreKeepsHands(s: State, s': State, t: Thread)
    requires LockInv(s) && HandsInv(s) && Effect(s, s', t) && StoresEntry(s, s', t)
    ensures HandsInv(s')
  {
    assert forall u: Thread :: u != t ==> s'.At(u) == s.At(u);
    assert IsWriter(s.At(t));
    forall u: Thread | s.At(u).Creating?
      ensures u == t
    {
      assert s.writer == Some(u) <==> IsWriter(s.At(u));
    }
  }

  lemma StepKeepsMap(c: Config, s: State, l: Label)
    requires c.locked && LockInv(s) && MapInv(s) && Enabled(c, s, l)
    ensures MapInv(Step(c, s, l))
  {
    if Actor(l).Some? {
      StepEffect(c, s, l);
      MapEffect(c, s, l);
      if ReadsMap(s, Step(c, s, l), l.t) {
        ReadKeepsMap(s, Step(c, s, l), l.t);
      } else {
        StoreKeepsEntries(s, Step(c, s, l), l.t);
        StoreKeepsHands(s, Step(c, s, l), l.t);
      }
    } else {
      EnvironmentKeepsMap(c, s, l);
    }
  }

  // ------------------------------------------------------------- fills of one order

  predicate SameOrder(s: State, i: nat, j: nat) {
    i < j < |s.txs| && s.txs[i].order == s.txs[j].order
  }

  /** No two of the solver's fills of one order succeeded. */
  ghost predicate OneFill(s: State) {
    forall i: nat, j: nat :: SameOrder(s, i, j) ==> !(s.txs[i].state.Succeeded? && s.txs[j].state.Succeeded?)
  }

  ghost predicate FillInv(s: State) {
    && OneFill(s)
    && (forall i :: 0 <= i < |s.txs| && s.txs[i].state.Succeeded? ==> !s.StatusOf(s.txs[i].order).Unknown?)
  }

  /** A fill was only ever sent after every earlier fill of its order had reverted. */
  ghost predicate NoDoubleSend(s: State) {
    forall i: nat, j: nat :: SameOrder(s, i, j) ==> s.txs[i].state.Reverted?
  }

  /** Besides: the sender of a pending fill is waiting for it, unless the process is shutting down, and
      whoever has checked an order's status under the mutex knows that all its fills reverted. */
  ghost predicate SendInv(s: State) {
    && NoDoubleSend(s)
    && (forall i :: 0 <= i < |s.txs| && s.txs[i].state.Pending? ==>
          s.cancelled || IsWaitingFor(s, s.txs[i].sender, i))
    && (forall t: Thread, i :: s.At(t).Checked? && 0 <= i < |s.txs| && s.txs[i].order == s.At(t).call.order ==>
          s.txs[i].state.Reverted?)
  }

  predicate IsWaitingFor(s: State, t: Thread, i: nat) {
    i < |s.txs| && s.At(t).Waiting? && s.At(t).tx == i && s.At(t).call.order == s.txs[i].order
  }

  /** What a goroutine's step does to the fills. */
  predicate SendEffect(c: Config, s: State, s': State, t: Thread) {
    var pc, pc' := s.At(t), s'.At(t);
    && s'.status == s.status && s'.cancelled == s.cancelled
    && ((s'.txs == s.txs && !pc'.Waiting?
         && (pc.Waiting? && !c.waitsMayFail && !s.cancelled ==> pc.tx < |s.txs| && !s.txs[pc.tx].state.Pending?)
         && (pc'.Checked? ==>
               pc.Locked? && pc'.call == pc.call && s.StatusOf(pc.call.order).Unknown? && !s.cancelled))
        || (pc.Checked? && !pc'.Checked? && s'.txs == s.txs + [Tx(pc.call.order, t, Pending)]
            && (!c.sendsMayLie ==> pc' == Waiting(pc.call, pc.handler, |s.txs|))))
  }

  lemma FillSendEffect(c: Config, s: State, l: Label)
    requires Enabled(c, s, l)
    requires IsFillLabel(l)
    ensures SendEffect(c, s, FillStep(c, s, l), l.t)
  {
  }

  lemma ReadSendEffect(c: Config, s: State, l: Label)
    requires Enabled(c, s, l)
    requires IsReadLabel(l)
    ensures SendEffect(c, s, ReadStep(c, s, l), l.t)
  {
  }

  lemma WriteSendEffect(c: Config, s: State, l: Label)
    requires Enabled(c, s, l)
    requires IsWriteLabel(l)
    ensures SendEffect(c, s, WriteStep(c, s, l), l.t)
  {
  }

  lemma StepSendEffect(c: Config, s: State, l: Label)
    requires Enabled(c, s, l) && Actor(l).Some?
    ensures SendEffect(c, s, Step(c, s, l), l.t)
  {
    if IsFillLabel(l) {
      FillSendEffect(c, s, l);
    } else if IsReadLabel(l) {
      ReadSendEffect(c, s, l);
    } else if IsWriteLabel(l) {
      WriteSendEffect(c, s, l);
    }
  }

  lemma StepKeepsFills(c: Config, s: State, l: Label)
    requires FillInv(s) && Enabled(c, s, l)
    ensures FillInv(Step(c, s, l))
  {
    if Actor(l).Some? {
      StepSendEffect(c, s, l);
    } else {
      ChainKeepsFills(c, s, l);
    }
  }

  /** The chain mines fills, it adds none. */
  lemma OrdersStay(c: Config, s: State, l: Label)
    requires Enabled(c, s, l) && Actor(l).None?
    ensures var s' := ChainStep(c, s, l);
            && |s'.txs| == |s.txs| && (forall i :: 0 <= i < |s.txs| ==> s'.txs[i].order == s.txs[i].order)
            && (forall i: nat, j: nat :: SameOrder(s', i, j) ==> SameOrder(s, i, j))
            && (forall order :: !s.StatusOf(order).Unknown? ==> !s'.StatusOf(order).Unknown?)
  {
  }

  lemma MineKeepsFills(c: Config, s: State, i: nat, runs: bool)
    requires FillInv(s) && Enabled(c, s, Mine(i, runs))
    ensures FillInv(ChainStep(c, s, Mine(i, runs)))
  {
    var s' := ChainStep(c, s, Mine(i, runs));
    OrdersStay(c, s, Mine(i, runs));
    assert forall k :: 0 <= k < |s.txs| && k != i ==> s'.txs[k] == s.txs[k];
  }

  lemma ChainKeepsFills(c: Config, s: State, l: Label)
    requires FillInv(s) && Enabled(c, s, l) && Actor(l).None?
    ensures FillInv(ChainStep(c, s, l))
  {
    if l.Mine? {
      MineKeepsFills(c, s, l.i, l.runs);
    } else {
      OrdersStay(c, s, l);
      assert ChainStep(c, s, l).txs == s.txs;
    }
  }

  /** Two goroutines in the critical section for the same chain are one and the same. */
  lemma SameMutex(s: State, t: Thread, u: Thread)
    requires MapInv(s) && MutexInv(s)
    requires InCritical(s.At(t)) && InCritical(s.At(u)) && s.At(t).call.order.chain == s.At(u).call.order.chain
    ensures t == u
  {
    assert IsEntry(s, s.At(t).call.order.chain, InHand(s.At(t)).value);
    assert IsEntry(s, s.At(u).call.order.chain, InHand(s.At(u)).value);
  }

  lemma SendKeepsSends(c: Config, s: State, s': State, t: Thread)
    requires !c.sendsMayLie && !c.waitsMayFail
    requires MapInv(s) && MutexInv(s) && FillInv(s) && SendInv(s)
    requires Effect(s, s', t) && SendEffect(c, s, s', t)
    ensures SendInv(s')
  {
    assert forall u: Thread :: u != t ==> s'.At(u) == s.At(u);
    assert forall i: nat, j: nat :: SameOrder(s', i, j) && j < |s.txs| ==> SameOrder(s, i, j);
    if s'.txs != s.txs {
      forall u: Thread | s'.At(u).Checked?
        ensures s'.At(u).call.order != s.At(t).call.order
      {
        if s.At(u).call.order == s.At(t).call.order {
          SameMutex(s, t, u);
        }
      }
    } else if s'.At(t).Checked? {
      forall i | 0 <= i < |s.txs| && s.txs[i].order == s.At(t).call.order
        ensures s.txs[i].state.Reverted?
      {
        if s.txs[i].state.Pending? {
          SameMutex(s, t, s.txs[i].sender);
        }
      }
    }
  }

  lemma ChainKeepsSends(c: Config, s: State, l: Label)
    requires SendInv(s) && Enabled(c, s, l) && Actor(l).None?
    ensures SendInv(ChainStep(c, s, l))
  {
    var s' := ChainStep(c, s, l);
    OrdersStay(c, s, l);
    assert forall t: Thread :: s'.At(t) == s.At(t);
  }

  lemma StepKeepsSends(c: Config, s: State, l: Label)
    requires c.locked && !c.sendsMayLie && !c.waitsMayFail
    requires MapInv(s) && MutexInv(s) && FillInv(s) && SendInv(s) && Enabled(c, s, l)
    ensures SendInv(Step(c, s, l))
  {
    if Actor(l).Some? {
      StepEffect(c, s, l);
      StepSendEffect(c, s, l);
      SendKeepsSends(c, s, Step(c, s, l), l.t);
    } else {
      ChainKeepsSends(c, s, l);
    }
  }
}
