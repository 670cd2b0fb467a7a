/** Whole runs of one network's listener: launches, backfill, polling, failed chunks, failed persists,
    crashes and restarts, against a head that the node may report as it likes. */
module ListenerRuns {
  import opened Runs
  import opened Integers

  type pos = n: nat | n > 0 witness 1

  // ------------------------------------------------------------- block arithmetic

  /** uint64 addition and subtraction wrap around. */
  function Add64(a: uint64, b: uint64): (r: uint64)
    ensures a + b <= MAX_UINT64 ==> r == a + b
  {
    (a + b) % 0x1_0000_0000_0000_0000
  }

  function Sub64(a: uint64, b: uint64): (r: uint64)
    ensures a >= b ==> r == a - b
    ensures a < b ==> r == a - b + MAX_UINT64 + 1
  {
    (a - b) % 0x1_0000_0000_0000_0000
  }

  /** -n in int64: the minimum is its own negation. */
  function Neg64(n: int64): int64 {
    if n == -0x8000_0000_0000_0000 then n else -n
  }

  /** uint64(n). */
  function ToUint64(n: int64): uint64 {
    n % 0x1_0000_0000_0000_0000
  }

  /** ResolveSolverStartBlock, and the same branches in ResolveCommonListenerConfig. */
  function ResolveStart(configStart: int64, currentBlock: uint64): uint64 {
    if configStart > 0 then configStart
    else if configStart == 0 then currentBlock
    else
      var startBlock := Sub64(currentBlock, ToUint64(Neg64(configStart)));
      if startBlock > currentBlock then 0 else startBlock
  }

  /** The wrapping subtraction and its clamp are max(0, current - |start|), down to the minimum int64. */
  lemma ResolveStartClamps(configStart: int64, currentBlock: uint64)
    ensures configStart > 0 ==> ResolveStart(configStart, currentBlock) == configStart
    ensures configStart <= 0 ==>
              ResolveStart(configStart, currentBlock)
              == if currentBlock + configStart > 0 then currentBlock + configStart else 0
  {
    assert configStart < 0 ==> ToUint64(Neg64(configStart)) == 0 - configStart;
  }

  /** The confirmation window. */
  function SafeBlock(currentBlock: uint64, confirmations: uint64): uint64 {
    if confirmations > 0 && currentBlock > confirmations then currentBlock - confirmations else currentBlock
  }

  function Max(a: nat, b: nat): nat {
    if a >= b then a else b
  }

  function Min(a: nat, b: nat): nat {
    if a <= b then a else b
  }

  /** Last block of a polling chunk, and of a backfill chunk, which reaches one block further. */
  function PollEnd(start: nat, to: nat, chunk: pos): nat {
    Min(start + chunk - 1, to)
  }

  function BackfillEnd(start: nat, to: nat, chunk: pos): nat {
    Min(start + chunk, to)
  }

  // ------------------------------------------------------------- the system

  /** NewListenerConfig never leaves the chunk size zero. */
  datatype Config = Config(start: int64, confirmations: uint64, chunk: pos)

  /** What the listener's goroutine is doing. */
  datatype Job =
    | Launched                            // before the backfill
    | Backfilling(start: nat, to: nat)
    | Idle                                // between two polls
    | Polling(start: nat, to: nat)

  datatype Process = Down | Up(polled: nat, backfilled: nat, job: Job)

  datatype State = State(
    head: uint64,            // what the node will answer
    file: nat,               // this network's LastIndexedBlock in the state file
    earlier: set<nat>,       // what it was before persists that may not have reached the disk yet
    process: Process,
    base: nat,               // the cursor the first launch resolved; meaningful once launched
    launched: bool,
    processed: set<nat>      // blocks some successful processBlockRange has passed
  )

  datatype Label =
    | Head(block: uint64)                        // the chain, or the node's view of it, moves
    | Launch                                     // ResolveCommonListenerConfig
    | Crash
    | ResetFile                                  // an unreadable state file replaced by defaults
    | WriteBack                                  // the persists so far reach the disk
    | PowerLoss(restored: nat)                   // the machine stops and comes back with an earlier file
    | BeginBackfill(ok: bool)
    | BackfillChunk(ok: bool, persisted: bool)
    | BeginPoll(ok: bool)
    | PollChunk(ok: bool, persisted: bool)

  function Range(lo: nat, hi: nat): (s: set<nat>)
    ensures forall b :: b in s <==> lo <= b <= hi
    decreases hi + 1 - lo
  {
    if lo > hi then {} else {lo} + Range(lo + 1, hi)
  }

  predicate Enabled(c: Config, s: State, l: Label) {
    match l
    case Head(_) => true
    case Launch => s.process.Down?
    case Crash => s.process.Up?
    case ResetFile => true
    case WriteBack => true
    case PowerLoss(block) => block == s.file || block in s.earlier
    case BeginBackfill(_) => s.process.Up? && s.process.job.Launched?
    case BackfillChunk(_, _) => s.process.Up? && s.process.job.Backfilling? && s.process.job.start < s.process.job.to
    case BeginPoll(_) => s.process.Up? && s.process.job.Idle?
    case PollChunk(_, _) => s.process.Up? && s.process.job.Polling? && s.process.job.start <= s.process.job.to
  }

  function DoLaunch(c: Config, s: State): State {
    var cursor := Max(s.file, ResolveStart(c.start, s.head));
    s.(process := Up(cursor, cursor, Launched), launched := true, base := if s.launched then s.base else cursor)
  }

  function DoBeginBackfill(c: Config, s: State, ok: bool): State
    requires s.process.Up?
  {
    var from, to := s.process.backfilled + 1, SafeBlock(s.head, c.confirmations);
    s.(process := s.process.(job := if ok && from < to then Backfilling(from, to) else Idle))
  }

  function DoBackfillChunk(c: Config, s: State, ok: bool, persisted: bool): State
    requires s.process.Up? && s.process.job.Backfilling?
  {
    var Backfilling(start, to) := s.process.job;
    if !ok then s.(process := s.process.(job := Idle))
    else
      var end := BackfillEnd(start, to, c.chunk);
      var next := start + c.chunk;
      s.(process := s.process.(backfilled := end, job := if next < to then Backfilling(next, to) else Idle),
         file := if persisted then end else s.file,
         earlier := if persisted then s.earlier + {s.file} else s.earlier,
         processed := s.processed + Range(start, end))
  }

  function DoBeginPoll(c: Config, s: State, ok: bool): State
    requires s.process.Up?
  {
    var from, to := s.process.polled + 1, SafeBlock(s.head, c.confirmations);
    s.(process := s.process.(job := if ok && from <= to then Polling(from, to) else Idle))
  }

  function DoPollChunk(c: Config, s: State, ok: bool, persisted: bool): State
    requires s.process.Up? && s.process.job.Polling? && s.process.job.start <= s.process.job.to
  {
    var Polling(start, to) := s.process.job;
    if !ok then s.(process := s.process.(job := Idle))
    else
      var end := PollEnd(start, to, c.chunk);
      var next := start + c.chunk;
      s.(process := if next <= to then s.process.(job := Polling(next, to))
                    else s.process.(polled := end, job := Idle),
         file := if persisted then end else s.file,
         earlier := if persisted then s.earlier + {s.file} else s.earlier,
         processed := s.processed + Range(start, end))
  }

  function Step(c: Config, s: State, l: Label): State {
    if !Enabled(c, s, l) then s
    else
      match l
      case Head(block) => s.(head := block)
      case Launch => DoLaunch(c, s)
      case Crash => s.(process := Down)
      case ResetFile => s.(file := if c.start > 0 then c.start else 0)
      case WriteBack => s.(earlier := {})
      case PowerLoss(block) => s.(file := block, process := Down)
      case BeginBackfill(ok) => DoBeginBackfill(c, s, ok)
      case BackfillChunk(ok, persisted) => DoBackfillChunk(c, s, ok, persisted)
      case BeginPoll(ok) => DoBeginPoll(c, s, ok)
      case PollChunk(ok, persisted) => DoPollChunk(c, s, ok, persisted)
  }

  function System(c: Config): Machine<State, Label> {
    Machine((s, l) => Enabled(c, s, l), (s, l) => Step(c, s, l))
  }

  function Initial(head: uint64, file: nat): State {
    State(head, file, {}, Down, 0, false, {})
  }

  // ------------------------------------------------------------- no block is skipped

  /** Every block above the base up to c has been processed. */
  predicate Covered(s: State, c: int) {
    forall b :: s.base < b <= c ==> b in s.processed
  }

  /** No block between the first cursor and any cursor the listener works from, or would resume
      from, has been passed over. */
  predicate NoGap(s: State) {
    s.launched ==>
      && Covered(s, s.file)
      && (s.process.Up? ==> Covered(s, s.process.polled) && Covered(s, s.process.backfilled))
  }

  /** With a positive start block, what a restart would resume from is covered too, and a job's next
      chunk starts at most one block above what is covered. */
  predicate Inv(c: Config, s: State) {
    && (!s.launched ==> s.process.Down? && s.earlier == {})
    && (s.launched ==>
          && s.base >= c.start && NoGap(s) && (forall b <- s.earlier :: Covered(s, b))
          && (s.process.Up? && s.process.job.Backfilling? ==> Covered(s, s.process.job.start - 1))
          && (s.process.Up? && s.process.job.Polling? ==> Covered(s, s.process.job.start - 1)))
    && (s.process.Up? && s.process.job.Backfilling? ==> s.process.job.start > 0)
    && (s.process.Up? && s.process.job.Polling? ==> s.process.job.start > 0)
  }

  lemma ChunkCovers(s: State, t: State, start: nat, end: nat)
    requires t.base == s.base && t.processed == s.processed + Range(start, end)
    requires start > 0 && Covered(s, start - 1)
    ensures Covered(t, end)
    ensures forall c :: Covered(s, c) ==> Covered(t, c)
  {
  }

  lemma BackfillKeepsInv(c: Config, s: State, ok: bool, persisted: bool)
    requires Inv(c, s) && Enabled(c, s, BackfillChunk(ok, persisted))
    ensures Inv(c, DoBackfillChunk(c, s, ok, persisted))
  {
    var Backfilling(start, to) := s.process.job;
    var t := DoBackfillChunk(c, s, ok, persisted);
    if ok {
      ChunkCovers(s, t, start, BackfillEnd(start, to, c.chunk));
    }
  }

  lemma PollKeepsInv(c: Config, s: State, ok: bool, persisted: bool)
    requires Inv(c, s) && Enabled(c, s, PollChunk(ok, persisted))
    ensures Inv(c, DoPollChunk(c, s, ok, persisted))
  {
    var Polling(start, to) := s.process.job;
    var t := DoPollChunk(c, s, ok, persisted);
    if ok {
      ChunkCovers(s, t, start, PollEnd(start, to, c.chunk));
    }
  }

  /** A launch that resumes above what is covered: its resolved start block is. */
  predicate JumpsAhead(c: Config, s: State, l: Label) {
    l.Launch? && s.launched && !Covered(s, ResolveStart(c.start, s.head))
  }

  lemma LaunchKeepsInvIff(c: Config, s: State)
    requires Inv(c, s) && s.process.Down?
    ensures Inv(c, DoLaunch(c, s)) <==> NoGap(DoLaunch(c, s))
    ensures NoGap(DoLaunch(c, s)) <==> !JumpsAhead(c, s, Launch)
  {
    var t, start := DoLaunch(c, s), ResolveStart(c.start, s.head);
    ResolveStartClamps(c.start, s.head);
    if s.launched && Covered(s, start) {
      assert Covered(t, t.process.polled);
    } else if s.launched {
      var b :| s.base < b <= start && b !in s.processed;
      assert b <= t.process.polled;
    }
  }

  /** Whatever the start block, a step passes over no block unless it is such a launch; with a positive
      start block no launch is. */
  lemma StepKeepsInv(c: Config, s: State, l: Label)
    requires Inv(c, s) && Enabled(c, s, l)
    ensures Inv(c, Step(c, s, l)) <==> !JumpsAhead(c, s, l)
    ensures NoGap(Step(c, s, l)) <==> !JumpsAhead(c, s, l)
    ensures c.start > 0 ==> !JumpsAhead(c, s, l)
  {
    match l
    case Launch => LaunchKeepsInvIff(c, s);
    case BackfillChunk(ok, persisted) => BackfillKeepsInv(c, s, ok, persisted);
    case PollChunk(ok, persisted) => PollKeepsInv(c, s, ok, persisted);
    case _ =>
  }

  /** At no time during the run has a block been passed over. */
  predicate NoGapThroughout(c: Config, s: State, ls: seq<Label>)
    decreases |ls|
  {
    NoGap(s) && (|ls| > 0 ==> NoGapThroughout(c, Step(c, s, ls[0]), ls[1..]))
  }

  predicate SomeLaunchJumpsAhead(c: Config, s: State, ls: seq<Label>)
    decreases |ls|
  {
    |ls| > 0 && (JumpsAhead(c, s, ls[0]) || SomeLaunchJumpsAhead(c, Step(c, s, ls[0]), ls[1..]))
  }

  /** Run by run, whatever the start block: blocks are passed over exactly by the launches that resume above
      what is covered. */
  lemma {:induction false} NoGapUnlessALaunchJumpsAhead(c: Config, s: State, ls: seq<Label>)
    requires Inv(c, s) && System(c).IsRun(s, ls)
    ensures NoGapThroughout(c, s, ls) <==> !SomeLaunchJumpsAhead(c, s, ls)
    decreases |ls|
  {
    if |ls| > 0 {
      var t := Step(c, s, ls[0]);
      StepKeepsInv(c, s, ls[0]);
      assert System(c).IsRun(t, ls[1..]);
      if JumpsAhead(c, s, ls[0]) {
        assert !NoGap(t) && !NoGapThroughout(c, t, ls[1..]);
      } else {
        NoGapUnlessALaunchJumpsAhead(c, t, ls[1..]);
      }
    }
  }

  /** With a positive start block no run skips a block; the next restart resumes from a covered
      cursor although the persisted block may have gone down. */
  lemma PositiveStartNeverSkips(c: Config, head: uint64, file: nat, ls: seq<Label>)
    requires c.start > 0 && System(c).IsRun(Initial(head, file), ls)
    ensures var s := System(c).After(Initial(head, file), ls);
            NoGap(s) && (s.launched ==> Covered(s, Max(s.file, c.start)))
  {
    var inv := s => Inv(c, s);
    forall s, l | inv(s) && System(c).enabled(s, l)
      ensures inv(System(c).step(s, l))
    {
      StepKeepsInv(c, s, l);
    }
    System(c).Always(inv, Initial(head, file), ls);
  }

  /** Launch at one head, crash, and launch again five blocks later. */
  function Relaunch(later: uint64): seq<Label> {
    [Launch, Crash, Head(later), Launch]
  }

  /** A start block relative to the head makes a restart jump over the blocks in between. */
  lemma RelativeStartCanSkip(c: Config)
    requires c.start <= 0
    ensures var first := Initial(0 - c.start, 0);
            var ls := Relaunch(0 - c.start + 5);
            System(c).IsRun(first, ls) && !NoGap(System(c).After(first, ls))
  {
    var m, ls := System(c), Relaunch(0 - c.start + 5);
    var s0 := Initial(0 - c.start, 0);
    ResolveStartClamps(c.start, 0 - c.start);
    ResolveStartClamps(c.start, 0 - c.start + 5);
    var s1 := Step(c, s0, ls[0]);
    var s2 := Step(c, s1, ls[1]);
    var s3 := Step(c, s2, ls[2]);
    var s4 := Step(c, s3, ls[3]);
    m.From(s3, ls, 3);
    m.From(s2, ls, 2);
    m.From(s1, ls, 1);
    m.From(s0, ls, 0);
    assert ls[0..] == ls;
    assert s4.base < 1 <= s4.process.polled && 1 !in s4.processed;
  }

  /** No run skips a block if and only if the configured start block is positive. */
  lemma NeverSkipsIffPositiveStart(c: Config)
    ensures c.start > 0 <==>
            forall head, file, ls :: System(c).IsRun(Initial(head, file), ls) ==>
              NoGap(System(c).After(Initial(head, file), ls))
  {
    if c.start > 0 {
      forall head, file, ls | System(c).IsRun(Initial(head, file), ls)
        ensures NoGap(System(c).After(Initial(head, file), ls))
      {
        PositiveStartNeverSkips(c, head, file, ls);
      }
    } else {
      RelativeStartCanSkip(c);
    }
  }

  // ------------------------------------------------------------- when the persisted block goes down

  /** The persisted block is never above the next thing the backfill does, nor above the cursors a process
      starts from. */
  predicate FileInv(c: Config, s: State) {
    s.process.Up? ==>
      match s.process.job
      case Launched => s.file <= s.process.polled && c.start <= s.process.polled == s.process.backfilled
      case Backfilling(start, to) => s.file <= start && c.start <= start < to
      case _ => true
  }

  lemma StepKeepsFileInv(c: Config, s: State, l: Label)
    requires FileInv(c, s) && Enabled(c, s, l)
    ensures FileInv(c, Step(c, s, l))
  {
    if l.Launch? {
      ResolveStartClamps(c.start, s.head);
    }
  }

  /** The polling chunk that is next, if any, ends below the persisted block. */
  predicate PollsBelowFile(c: Config, s: State) {
    && s.process.Up? && s.process.job.Polling? && s.process.job.start <= s.process.job.to
    && PollEnd(s.process.job.start, s.process.job.to, c.chunk) < s.file
  }

  /** In every run, a step lowers the persisted block exactly if it resets the file to a lower default, loses
      power and comes back with a lower earlier file, or persists a polling chunk that ends below it; a backfill
      chunk never does. */
  lemma PersistedBlockGoesDownIff(c: Config, head: uint64, file: nat, ls: seq<Label>, l: Label)
    requires System(c).IsRun(Initial(head, file), ls) && Enabled(c, System(c).After(Initial(head, file), ls), l)
    ensures var s := System(c).After(Initial(head, file), ls);
            Step(c, s, l).file < s.file <==>
              || (l.ResetFile? && s.file > c.start && s.file > 0)
              || (l.PowerLoss? && l.restored < s.file)
              || (l == PollChunk(true, true) && PollsBelowFile(c, s))
  {
    var inv := s => FileInv(c, s);
    forall s, l | inv(s) && System(c).enabled(s, l)
      ensures inv(System(c).step(s, l))
    {
      StepKeepsFileInv(c, s, l);
    }
    System(c).Always(inv, Initial(head, file), ls);
  }

  /** The first chunk of a poll lowers the persisted block if it ends below it: the chunk after the polling
      cursor, cut at the safe block. */
  lemma FirstPollChunkLowersIff(c: Config, s: State)
    requires s.process.Up? && s.process.job.Idle? && s.process.polled < SafeBlock(s.head, c.confirmations)
    ensures var t := Step(c, s, BeginPoll(true));
            && Enabled(c, s, BeginPoll(true)) && Enabled(c, t, PollChunk(true, true))
            && (Step(c, t, PollChunk(true, true)).file < s.file <==>
                  Min(s.process.polled + c.chunk, SafeBlock(s.head, c.confirmations)) < s.file)
  {
  }

  /** What can leave the polling cursor behind the persisted block, or lower the latter outright. */
  predicate Unsettles(l: Label) {
    l.ResetFile? || l.PowerLoss? || (l.BackfillChunk? && l.ok) || (l.PollChunk? && !l.ok)
  }

  /** What is polled next is above the persisted block. */
  predicate Settled(s: State) {
    s.process.Up? ==>
      match s.process.job
      case Polling(start, to) => s.file < start <= to
      case _ => s.file <= s.process.polled
  }

  lemma StepRaisesFile(c: Config, s: State, l: Label)
    requires Settled(s) && Enabled(c, s, l) && !Unsettles(l)
    ensures Settled(Step(c, s, l)) && Step(c, s, l).file >= s.file
  {
  }

  /** From a state between two processes, the persisted block only goes up for as long as the file is not
      reset, power is not lost, no backfill chunk succeeds and no polling chunk fails; relaunches included. */
  lemma {:induction false} PersistedBlockGoesUp(c: Config, s: State, ls: seq<Label>)
    requires Settled(s) && System(c).IsRun(s, ls) && forall l <- ls :: !Unsettles(l)
    ensures Settled(System(c).After(s, ls)) && System(c).After(s, ls).file >= s.file
    decreases |ls|
  {
    if |ls| > 0 {
      StepRaisesFile(c, s, ls[0]);
      PersistedBlockGoesUp(c, Step(c, s, ls[0]), ls[1..]);
    }
  }

  /** A head at which the start block resolves to FirstCursor. */
  function FirstHead(c: Config): uint64 {
    if c.start > 0 then 0 else 0 - c.start
  }

  function FirstCursor(c: Config): nat {
    if c.start > 0 then c.start else 0
  }

  /** A launch, after which the head moves on. */
  function LaunchAt(head: uint64): seq<Label> {
    [Launch, Head(head)]
  }

  /** The state it leads to. */
  function LaunchedAt(c: Config, head: uint64): State {
    State(head, 0, {}, Up(FirstCursor(c), FirstCursor(c), Launched), FirstCursor(c), true, {})
  }

  lemma RunLaunchAt(c: Config, head: uint64)
    ensures System(c).IsRun(Initial(FirstHead(c), 0), LaunchAt(head))
    ensures System(c).After(Initial(FirstHead(c), 0), LaunchAt(head)) == LaunchedAt(c, head)
  {
    ResolveStartClamps(c.start, FirstHead(c));
    var m, ls, s0 := System(c), LaunchAt(head), Initial(FirstHead(c), 0);
    var s1 := Step(c, s0, ls[0]);
    m.From(s1, ls, 1);
    m.From(s0, ls, 0);
    assert ls[0..] == ls && ls[2..] == [];
  }

  /** That is a run, and it leaves that persisted block. */
  predicate Leaves(c: Config, s: State, ls: seq<Label>, file: nat) {
    System(c).IsRun(s, ls) && System(c).After(s, ls).file == file
  }

  lemma RunFromLaunch(c: Config, head: uint64, ls: seq<Label>, file: nat)
    requires Leaves(c, LaunchedAt(c, head), ls, file)
    ensures Leaves(c, Initial(FirstHead(c), 0), LaunchAt(head) + ls, file)
  {
    RunLaunchAt(c, head);
    System(c).Concat(Initial(FirstHead(c), 0), LaunchAt(head), ls);
  }

  /** A backfill whose first chunk succeeds and whose second fails; then the first poll gets one chunk done. */
  function BrokenBackfill(): seq<Label> {
    OneBackfillChunk() + OnePollChunk()
  }

  function OneBackfillChunk(): seq<Label> {
    [BeginBackfill(true), BackfillChunk(true, true)]
  }

  function OnePollChunk(): seq<Label> {
    [BackfillChunk(false, false)] + FirstPollChunk()
  }

  lemma RunOneBackfillChunk(c: Config, s: State, k: nat, to: nat)
    requires s.process == Up(k, k, Launched) && SafeBlock(s.head, c.confirmations) == to > k + 1 + c.chunk
    ensures var t := System(c).After(s, OneBackfillChunk());
            && System(c).IsRun(s, OneBackfillChunk())
            && t.file == k + c.chunk + 1 && t.head == s.head
            && t.process == Up(k, k + c.chunk + 1, Backfilling(k + c.chunk + 1, to))
  {
    var m, ls := System(c), OneBackfillChunk();
    var s1 := s.(process := Up(k, k, Backfilling(k + 1, to)));
    m.From(s1, ls, 1);
    m.From(s, ls, 0);
    assert ls[0..] == ls && ls[2..] == [];
  }

  function FirstPollChunk(): seq<Label> {
    [BeginPoll(true), PollChunk(true, true)]
  }

  lemma RunFirstPollChunk(c: Config, s: State, k: nat, b: nat)
    requires s.process == Up(k, b, Idle) && SafeBlock(s.head, c.confirmations) >= k + c.chunk
    ensures System(c).IsRun(s, FirstPollChunk()) && System(c).After(s, FirstPollChunk()).file == k + c.chunk
  {
    var m, ls := System(c), FirstPollChunk();
    var s1 := s.(process := Up(k, b, Polling(k + 1, SafeBlock(s.head, c.confirmations))));
    assert Step(c, s1, ls[1]).file == k + c.chunk;
    m.From(s1, ls, 1);
    m.From(s, ls, 0);
    assert ls[0..] == ls && ls[2..] == [];
  }

  /** The same after a job that failed at l. */
  lemma RunFailure(c: Config, s: State, l: Label, k: nat, b: nat)
    requires Enabled(c, s, l) && Step(c, s, l) == s.(process := Up(k, b, Idle))
    requires SafeBlock(s.head, c.confirmations) >= k + c.chunk
    ensures var ls := [l] + FirstPollChunk(); System(c).IsRun(s, ls) && System(c).After(s, ls).file == k + c.chunk
  {
    RunFirstPollChunk(c, Step(c, s, l), k, b);
    System(c).Cons(s, l, FirstPollChunk());
  }

  /** Polling starts again from the cursor the backfill started from, and its chunk ends one block lower,
      for every start block and every chunk that fits below the largest uint64. */
  lemma BrokenBackfillLowers(c: Config, k: nat, head: uint64)
    requires k == FirstCursor(c) && head == k + c.chunk + 2 + c.confirmations
    ensures Leaves(c, Initial(FirstHead(c), 0), LaunchAt(head) + OneBackfillChunk(), k + c.chunk + 1)
    ensures Leaves(c, Initial(FirstHead(c), 0), LaunchAt(head) + BrokenBackfill(), k + c.chunk)
  {
    var s := LaunchedAt(c, head);
    RunOneBackfillChunk(c, s, k, k + c.chunk + 2);
    RunFromLaunch(c, head, OneBackfillChunk(), k + c.chunk + 1);
    RunFailure(c, System(c).After(s, OneBackfillChunk()), BackfillChunk(false, false), k, k + c.chunk + 1);
    System(c).Concat(s, OneBackfillChunk(), OnePollChunk());
    RunFromLaunch(c, head, BrokenBackfill(), k + c.chunk);
  }

  /** A poll that gets two chunks done and fails at the third; then the next poll gets one chunk done. */
  function BrokenPoll(): seq<Label> {
    TwoChunks() + NextPoll()
  }

  function TwoChunks(): seq<Label> {
    [BeginBackfill(false), BeginPoll(true)] + [PollChunk(true, true), PollChunk(true, true)]
  }

  function NextPoll(): seq<Label> {
    [PollChunk(false, false)] + FirstPollChunk()
  }

  lemma RunBeginPoll(c: Config, s: State, k: nat, to: nat)
    requires s.process == Up(k, k, Launched) && SafeBlock(s.head, c.confirmations) == to > k
    ensures System(c).IsRun(s, [BeginBackfill(false), BeginPoll(true)])
    ensures System(c).After(s, [BeginBackfill(false), BeginPoll(true)]) == s.(process := Up(k, k, Polling(k + 1, to)))
  {
    var m, ls := System(c), [BeginBackfill(false), BeginPoll(true)];
    m.From(s.(process := Up(k, k, Idle)), ls, 1);
    m.From(s, ls, 0);
    assert ls[0..] == ls && ls[2..] == [];
  }

  lemma RunPollChunks(c: Config, s: State, k: nat, to: nat)
    requires s.process == Up(k, k, Polling(k + 1, to)) && to > k + 2 * c.chunk
    ensures var t := System(c).After(s, [PollChunk(true, true), PollChunk(true, true)]);
            && System(c).IsRun(s, [PollChunk(true, true), PollChunk(true, true)])
            && t.file == k + 2 * c.chunk && t.head == s.head && k + c.chunk in t.earlier
            && t.process == Up(k, k, Polling(k + 2 * c.chunk + 1, to))
  {
    var m, ls := System(c), [PollChunk(true, true), PollChunk(true, true)];
    var s1 := Step(c, s, ls[0]);
    assert s1.process == Up(k, k, Polling(k + 1 + c.chunk, to)) && s1.head == s.head;
    var s2 := Step(c, s1, ls[1]);
    m.From(s1, ls, 1);
    m.From(s, ls, 0);
    assert ls[0..] == ls && ls[2..] == [];
  }

  lemma RunTwoChunks(c: Config, s: State, k: nat, to: nat)
    requires s.process == Up(k, k, Launched)
    requires SafeBlock(s.head, c.confirmations) == to > k + 2 * c.chunk
    ensures var t := System(c).After(s, TwoChunks());
            && System(c).IsRun(s, TwoChunks())
            && t.file == k + 2 * c.chunk && t.head == s.head && k + c.chunk in t.earlier
            && t.process == Up(k, k, Polling(k + 2 * c.chunk + 1, to))
  {
    RunBeginPoll(c, s, k, to);
    RunPollChunks(c, s.(process := Up(k, k, Polling(k + 1, to))), k, to);
    System(c).Concat(s, [BeginBackfill(false), BeginPoll(true)], [PollChunk(true, true), PollChunk(true, true)]);
  }

  lemma RunBrokenPoll(c: Config, s: State, k: nat, to: nat)
    requires s.process == Up(k, k, Launched)
    requires SafeBlock(s.head, c.confirmations) == to > k + 2 * c.chunk
    ensures Leaves(c, s, BrokenPoll(), k + c.chunk)
  {
    RunTwoChunks(c, s, k, to);
    RunFailure(c, System(c).After(s, TwoChunks()), PollChunk(false, false), k, k);
    System(c).Concat(s, TwoChunks(), NextPoll());
  }

  /** Without any backfill chunk: the cursor moves only when a poll is done, so the next one starts again,
      and its first chunk ends a chunk below what the broken poll persisted; for every start block and every chunk
      size of which two fit below the largest uint64. */
  lemma BrokenPollLowers(c: Config, k: nat, head: uint64)
    requires k == FirstCursor(c) && head == k + 2 * c.chunk + 1 + c.confirmations
    ensures Leaves(c, Initial(FirstHead(c), 0), LaunchAt(head) + TwoChunks(), k + 2 * c.chunk)
    ensures Leaves(c, Initial(FirstHead(c), 0), LaunchAt(head) + BrokenPoll(), k + c.chunk)
  {
    RunTwoChunks(c, LaunchedAt(c, head), k, k + 2 * c.chunk + 1);
    RunFromLaunch(c, head, TwoChunks(), k + 2 * c.chunk);
    RunBrokenPoll(c, LaunchedAt(c, head), k, k + 2 * c.chunk + 1);
    RunFromLaunch(c, head, BrokenPoll(), k + c.chunk);
  }

  /** And so does a power loss before the last version of the file is written back. */
  lemma PowerLossLowers(c: Config, k: nat, head: uint64)
    requires k == FirstCursor(c) && head == k + 2 * c.chunk + 1 + c.confirmations
    ensures Leaves(c, Initial(FirstHead(c), 0), LaunchAt(head) + TwoChunks(), k + 2 * c.chunk)
    ensures Leaves(c, Initial(FirstHead(c), 0), LaunchAt(head) + (TwoChunks() + [PowerLoss(k + c.chunk)]), k + c.chunk)
  {
    BrokenPollLowers(c, k, head);
    RunTwoChunks(c, LaunchedAt(c, head), k, k + 2 * c.chunk + 1);
    System(c).Snoc(LaunchedAt(c, head), TwoChunks(), PowerLoss(k + c.chunk));
    RunFromLaunch(c, head, TwoChunks() + [PowerLoss(k + c.chunk)], k + c.chunk);
  }

  /** The head at which that block is the safe one, for any block that ever is. */
  function HeadFor(c: Config, block: nat): nat {
    if c.confirmations == 0 || block <= c.confirmations then block else block + c.confirmations
  }

  lemma HeadForIsHead(c: Config, head: uint64, block: nat)
    requires block <= SafeBlock(head, c.confirmations)
    ensures HeadFor(c, block) <= MAX_UINT64 && SafeBlock(HeadFor(c, block), c.confirmations) == block
  {
  }

  /** One block more than one is ever safe above the first cursor. */
  ghost predicate HasRoom(c: Config) {
    exists head: uint64 :: SafeBlock(head, c.confirmations) > FirstCursor(c) + 1
  }

  /** A complete backfill of two blocks, a node that falls back by one block, and a poll. */
  function FallBack(c: Config): seq<Label>
    requires HeadFor(c, FirstCursor(c) + 1) <= MAX_UINT64
  {
    [BeginBackfill(true), BackfillChunk(true, true)] + [Head(HeadFor(c, FirstCursor(c) + 1)), BeginPoll(true)]
  }

  lemma RunBackfillTwo(c: Config, s: State, k: nat)
    requires s.process == Up(k, k, Launched) && SafeBlock(s.head, c.confirmations) == k + 2
    ensures var ls, t := [BeginBackfill(true), BackfillChunk(true, true)],
                         System(c).After(s, [BeginBackfill(true), BackfillChunk(true, true)]);
            System(c).IsRun(s, ls) && t.file == k + 2 && t.process == Up(k, k + 2, Idle)
  {
    var m, ls := System(c), [BeginBackfill(true), BackfillChunk(true, true)];
    var s1 := s.(process := Up(k, k, Backfilling(k + 1, k + 2)));
    m.From(s1, ls, 1);
    m.From(s, ls, 0);
    assert ls[0..] == ls && ls[2..] == [];
  }

  lemma RunFallBack(c: Config, s: State, k: nat)
    requires s.process == Up(k, k, Launched) && k == FirstCursor(c) && SafeBlock(s.head, c.confirmations) == k + 2
    requires HeadFor(c, k + 1) <= MAX_UINT64 && SafeBlock(HeadFor(c, k + 1), c.confirmations) == k + 1
    ensures var t := System(c).After(s, FallBack(c));
            System(c).IsRun(s, FallBack(c)) && t.file == k + 2 && t.process == Up(k, k + 2, Polling(k + 1, k + 1))
  {
    var m, first := System(c), [BeginBackfill(true), BackfillChunk(true, true)];
    var ls := [Head(HeadFor(c, k + 1)), BeginPoll(true)];
    RunBackfillTwo(c, s, k);
    var s1 := m.After(s, first);
    m.From(s1.(head := HeadFor(c, k + 1)), ls, 1);
    m.From(s1, ls, 0);
    assert ls[0..] == ls && ls[2..] == [];
    m.Concat(s, first, ls);
  }

  /** A run without a reset or a power loss, and a step like that which lowers the persisted block. */
  ghost predicate GoesDown(c: Config, head: uint64, file: nat, ls: seq<Label>, l: Label) {
    && System(c).IsRun(Initial(head, file), ls) && (forall x <- ls + [l] :: !x.ResetFile? && !x.PowerLoss?)
    && var s := System(c).After(Initial(head, file), ls);
       Enabled(c, s, l) && Step(c, s, l).file < s.file
  }

  lemma PollLowers(c: Config, s: State, k: nat)
    requires s.process == Up(k, k + 2, Polling(k + 1, k + 1)) && s.file == k + 2
    ensures Enabled(c, s, PollChunk(true, true)) && Step(c, s, PollChunk(true, true)).file < s.file
  {
  }

  lemma KeepsFile(c: Config, head: uint64)
    requires HeadFor(c, FirstCursor(c) + 1) <= MAX_UINT64
    ensures forall l <- LaunchAt(head) + FallBack(c) + [PollChunk(true, true)] :: !l.ResetFile? && !l.PowerLoss?
  {
    var all := LaunchAt(head) + FallBack(c) + [PollChunk(true, true)];
    assert all[0] == Launch && all[1] == Head(head) && all[2] == BeginBackfill(true);
    assert all[3] == BackfillChunk(true, true) && all[4].Head? && all[5] == BeginPoll(true);
    assert all[6] == PollChunk(true, true) && |all| == 7;
    forall l <- all
      ensures !l.ResetFile? && !l.PowerLoss?
    {
      var i :| 0 <= i < 7 && all[i] == l;
    }
  }

  lemma RunDown(c: Config, k: nat)
    requires k == FirstCursor(c) && HeadFor(c, k + 1) <= MAX_UINT64 && HeadFor(c, k + 2) <= MAX_UINT64
    requires SafeBlock(HeadFor(c, k + 1), c.confirmations) == k + 1
    requires SafeBlock(HeadFor(c, k + 2), c.confirmations) == k + 2
    ensures GoesDown(c, FirstHead(c), 0, LaunchAt(HeadFor(c, k + 2)) + FallBack(c), PollChunk(true, true))
  {
    var m, first, launch := System(c), Initial(FirstHead(c), 0), LaunchAt(HeadFor(c, k + 2));
    var s := LaunchedAt(c, HeadFor(c, k + 2));
    RunLaunchAt(c, HeadFor(c, k + 2));
    RunFallBack(c, s, k);
    m.Concat(first, launch, FallBack(c));
    PollLowers(c, m.After(s, FallBack(c)), k);
    KeepsFile(c, HeadFor(c, k + 2));
  }

  lemma RoomLetsItGoDown(c: Config)
    requires HasRoom(c)
    ensures exists head, file, ls, l :: GoesDown(c, head, file, ls, l)
  {
    var k := FirstCursor(c);
    var head: uint64 :| SafeBlock(head, c.confirmations) > k + 1;
    HeadForIsHead(c, head, k + 1);
    HeadForIsHead(c, head, k + 2);
    RunDown(c, k);
  }

  /** Without that room nothing is ever backfilled, and at most the block above the first cursor is polled. */
  predicate CrampedInv(c: Config, s: State) {
    s.process.Up? ==>
      && s.process.polled >= FirstCursor(c) && s.process.backfilled >= FirstCursor(c)
      && match s.process.job
         case Backfilling(_, _) => false
         case Polling(start, to) => s.file < start == to == s.process.polled + 1
         case _ => s.file <= s.process.polled
  }

  lemma StepKeepsCramped(c: Config, s: State, l: Label)
    requires !HasRoom(c) && CrampedInv(c, s) && Enabled(c, s, l) && !l.ResetFile? && !l.PowerLoss?
    ensures CrampedInv(c, Step(c, s, l)) && Step(c, s, l).file >= s.file
  {
    assert SafeBlock(s.head, c.confirmations) <= FirstCursor(c) + 1;
    if l.Launch? {
      ResolveStartClamps(c.start, s.head);
    }
  }

  lemma {:induction false} RunKeepsCramped(c: Config, s: State, ls: seq<Label>)
    requires !HasRoom(c) && CrampedInv(c, s) && System(c).IsRun(s, ls)
    requires forall l <- ls :: !l.ResetFile? && !l.PowerLoss?
    ensures CrampedInv(c, System(c).After(s, ls))
    decreases |ls|
  {
    if |ls| > 0 {
      StepKeepsCramped(c, s, ls[0]);
      RunKeepsCramped(c, Step(c, s, ls[0]), ls[1..]);
    }
  }

  /** Without resets and power losses some run lowers the persisted block if and only if two blocks can ever be
      safe above the first cursor; every configuration but those next to the largest uint64 has that room. */
  lemma CanGoDownIff(c: Config)
    ensures HasRoom(c) <==> exists head, file, ls, l :: GoesDown(c, head, file, ls, l)
    ensures FirstCursor(c) + 2 + c.confirmations <= MAX_UINT64 ==> HasRoom(c)
  {
    if HasRoom(c) {
      RoomLetsItGoDown(c);
    } else {
      forall head, file, ls, l
        ensures !GoesDown(c, head, file, ls, l)
      {
        if GoesDown(c, head, file, ls, l) {
          assert l in ls + [l] && forall x <- ls :: x in ls + [l];
          RunKeepsCramped(c, Initial(head, file), ls);
          StepKeepsCramped(c, System(c).After(Initial(head, file), ls), l);
        }
      }
    }
    if FirstCursor(c) + 2 + c.confirmations <= MAX_UINT64 {
      var head: uint64 := FirstCursor(c) + 2 + c.confirmations;
      assert SafeBlock(head, c.confirmations) > FirstCursor(c) + 1;
    }
  }

  /** What a positive start block keeps below every cursor. */
  predicate AboveStart(c: Config, s: State) {
    && (forall b :: b in s.processed ==> b > c.start)
    && (s.process.Up? ==>
          && s.process.polled >= c.start && s.process.backfilled >= c.start
          && (s.process.job.Backfilling? || s.process.job.Polling? ==> s.process.job.start > c.start))
  }

  lemma StepKeepsAboveStart(c: Config, s: State, l: Label)
    requires c.start > 0 && AboveStart(c, s) && Enabled(c, s, l)
    ensures AboveStart(c, Step(c, s, l))
  {
    match l
    case BackfillChunk(ok, persisted) => assert AboveStart(c, DoBackfillChunk(c, s, ok, persisted));
    case PollChunk(ok, persisted) => assert AboveStart(c, DoPollChunk(c, s, ok, persisted));
    case _ =>
  }

  /** The configured start block is the cursor, not the first block: no run processes it or any block
      below it. */
  lemma StartBlockIsNeverProcessed(c: Config, head: uint64, file: nat, ls: seq<Label>)
    requires c.start > 0 && System(c).IsRun(Initial(head, file), ls)
    ensures forall b :: b in System(c).After(Initial(head, file), ls).processed ==> b > c.start
  {
    var inv := s => AboveStart(c, s);
    forall s, l | inv(s) && System(c).enabled(s, l)
      ensures inv(System(c).step(s, l))
    {
      StepKeepsAboveStart(c, s, l);
    }
    System(c).Always(inv, Initial(head, file), ls);
  }
}
