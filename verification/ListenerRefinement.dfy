/** Every call of the listener's two loops is a run of the whole-run system: what the methods promise
    about cursor, state file and processed blocks is the state the run ends in. */
module ListenerRefinement {
  import opened Integers
  import opened Listener
  import opened ListenerRuns

  function Elements(bs: seq<nat>): set<nat> {
    set b | b in bs
  }

  lemma ElementsOfBlocks(lo: nat, hi: nat, visits: seq<nat>)
    ensures Elements(Blocks(lo, hi + 1) + visits) == Range(lo, hi) + Elements(visits)
  {
    var bs := Blocks(lo, hi + 1);
    forall b: nat
      ensures b in bs + visits <==> lo <= b <= hi || b in visits
    {
      if lo <= b <= hi {
        assert bs[b - lo] == b;
      }
    }
  }

  /** The steps of one call, chunk by chunk, up to the first unanswered one. */
  function PollLabels(env: Env, cs: seq<Chunk>): seq<Label> {
    if |cs| == 0 then []
    else if !IsAnswered(env, cs[0]) then [PollChunk(false, false)]
    else [PollChunk(true, Saves(env, cs[0].1))] + PollLabels(env, cs[1..])
  }

  function BackfillLabels(env: Env, cs: seq<Chunk>): seq<Label> {
    if |cs| == 0 then []
    else if !IsAnswered(env, cs[0]) then [BackfillChunk(false, false)]
    else [BackfillChunk(true, Saves(env, cs[0].1))] + BackfillLabels(env, cs[1..])
  }

  /** The blocks that were in the file before those chunks' persists. */
  function Replaced(env: Env, cs: seq<Chunk>, persisted: nat): set<nat> {
    if |cs| == 0 || !IsAnswered(env, cs[0]) then {}
    else if Saves(env, cs[0].1) then {persisted} + Replaced(env, cs[1..], cs[0].1)
    else Replaced(env, cs[1..], persisted)
  }

  /** s once those chunks were worked through and the process is p. */
  function Worked(s: State, env: Env, cs: seq<Chunk>, p: Process): State {
    s.(process := p, file := LastPersisted(env, cs, s.file), earlier := s.earlier + Replaced(env, cs, s.file),
       processed := s.processed + Elements(Visits(env, cs)))
  }

  /** s once that one answered chunk was. */
  function WorkedOne(s: State, env: Env, chunk: Chunk, p: Process): State {
    s.(process := p, file := if Saves(env, chunk.1) then chunk.1 else s.file,
       earlier := if Saves(env, chunk.1) then s.earlier + {s.file} else s.earlier,
       processed := s.processed + Range(chunk.0, chunk.1))
  }

  lemma WorkedNothing(s: State, env: Env, cs: seq<Chunk>, p: Process)
    requires |cs| > 0 && !IsAnswered(env, cs[0])
    ensures Worked(s, env, cs, p) == s.(process := p)
  {
  }

  lemma WorkedStep(s: State, t: State, env: Env, cs: seq<Chunk>, p: Process)
    requires |cs| > 0 && IsAnswered(env, cs[0])
    requires t == WorkedOne(s, env, cs[0], t.process)
    ensures Worked(t, env, cs[1..], p) == Worked(s, env, cs, p)
  {
    assert t.earlier + Replaced(env, cs[1..], t.file) == s.earlier + Replaced(env, cs, s.file);
    ElementsOfBlocks(cs[0].0, cs[0].1, Visits(env, cs[1..]));
  }

  /** Those steps are a run from s, which works through the chunks and leaves the process p. */
  ghost predicate WorksThrough(c: Config, env: Env, s: State, cs: seq<Chunk>, ls: seq<Label>, p: Process) {
    System(c).IsRun(s, ls) && System(c).After(s, ls) == Worked(s, env, cs, p)
  }

  lemma WorksThroughNothing(c: Config, env: Env, s: State)
    ensures WorksThrough(c, env, s, [], [], s.process)
  {
  }

  lemma WorksThroughUnanswered(c: Config, env: Env, s: State, cs: seq<Chunk>, l: Label)
    requires |cs| > 0 && !IsAnswered(env, cs[0]) && Enabled(c, s, l)
    requires Step(c, s, l) == s.(process := Step(c, s, l).process)
    ensures WorksThrough(c, env, s, cs, [l], Step(c, s, l).process)
  {
    OneMore(c, s, [l]);
    WorkedNothing(s, env, cs, Step(c, s, l).process);
  }

  lemma WorksThroughOneMore(c: Config, env: Env, s: State, cs: seq<Chunk>, l: Label, ls: seq<Label>, p: Process)
    requires |cs| > 0 && IsAnswered(env, cs[0]) && Enabled(c, s, l)
    requires Step(c, s, l) == WorkedOne(s, env, cs[0], Step(c, s, l).process)
    requires WorksThrough(c, env, Step(c, s, l), cs[1..], ls, p)
    ensures WorksThrough(c, env, s, cs, [l] + ls, p)
  {
    OneMore(c, s, [l] + ls);
    assert ([l] + ls)[1..] == ls;
    WorkedStep(s, Step(c, s, l), env, cs, p);
  }

  /** One answered polling chunk. */
  lemma PollOne(c: Config, env: Env, s: State, from: nat, to: nat)
    requires s.process.Up? && s.process.job == Polling(from, to) && from <= to
    ensures var chunk := (from, PollEnd(from, to, c.chunk));
            var l := PollChunk(true, Saves(env, chunk.1));
            && Enabled(c, s, l) && Step(c, s, l) == WorkedOne(s, env, chunk, Step(c, s, l).process)
            && Step(c, s, l).process
            == if from + c.chunk <= to then s.process.(job := Polling(from + c.chunk, to))
               else Up(to, s.process.backfilled, Idle)
  {
  }

  lemma {:induction false} PollSimulates(c: Config, env: Env, s: State, from: nat, to: nat)
    requires s.process.Up? && s.process.job == Polling(from, to) && from <= to
    ensures var cs := PollChunks(from, to, c.chunk);
            WorksThrough(c, env, s, cs, PollLabels(env, cs),
                         Up(if AllAnswered(env, cs) then to else s.process.polled, s.process.backfilled, Idle))
    decreases (1 + to - from)
  {
    var cs := PollChunks(from, to, c.chunk);
    var p := Up(if AllAnswered(env, cs) then to else s.process.polled, s.process.backfilled, Idle);
    PollStep(from, to, c.chunk);
    if !IsAnswered(env, cs[0]) {
      WorksThroughUnanswered(c, env, s, cs, PollChunk(false, false));
    } else {
      var l := PollChunk(true, Saves(env, cs[0].1));
      var t := Step(c, s, l);
      PollOne(c, env, s, from, to);
      if from + c.chunk <= to {
        PollSimulates(c, env, t, from + c.chunk, to);
        assert WorksThrough(c, env, t, cs[1..], PollLabels(env, cs[1..]), p);
      } else {
        assert cs[1..] == [] && PollLabels(env, cs[1..]) == [] && AllAnswered(env, cs[1..]);
        WorksThroughNothing(c, env, t);
      }
      WorksThroughOneMore(c, env, s, cs, l, PollLabels(env, cs[1..]), p);
    }
  }

  lemma {:induction false} BackfillSimulates(c: Config, env: Env, s: State, from: nat, to: nat)
    requires s.process.Up? && s.process.job == Backfilling(from, to) && from < to
    ensures var cs := BackfillChunks(from, to, c.chunk);
            WorksThrough(c, env, s, cs, BackfillLabels(env, cs),
                         Up(s.process.polled, LastBlock(env, cs, s.process.backfilled), Idle))
    decreases (to - from)
  {
    var cs := BackfillChunks(from, to, c.chunk);
    var p := Up(s.process.polled, LastBlock(env, cs, s.process.backfilled), Idle);
    BackfillStep(from, to, c.chunk);
    if !IsAnswered(env, cs[0]) {
      WorksThroughUnanswered(c, env, s, cs, BackfillChunk(false, false));
    } else {
      var l := BackfillChunk(true, Saves(env, cs[0].1));
      var t := Step(c, s, l);
      if from + c.chunk < to {
        BackfillSimulates(c, env, t, from + c.chunk, to);
        assert WorksThrough(c, env, t, cs[1..], BackfillLabels(env, cs[1..]), p);
      } else {
        assert cs[1..] == [] && BackfillLabels(env, cs[1..]) == [] && LastBlock(env, cs[1..], cs[0].1) == cs[0].1;
        WorksThroughNothing(c, env, t);
      }
      WorksThroughOneMore(c, env, s, cs, l, BackfillLabels(env, cs[1..]), p);
    }
  }

  /** A run, unfolded by its first step. */
  lemma OneMore(c: Config, s: State, ls: seq<Label>)
    requires |ls| > 0
    ensures var m := System(c);
            && (m.IsRun(s, ls) <==> Enabled(c, s, ls[0]) && m.IsRun(Step(c, s, ls[0]), ls[1..]))
            && m.After(s, ls) == m.After(Step(c, s, ls[0]), ls[1..])
  {
  }

  lemma TwoMore(c: Config, s: State, one: Label, two: Label, ls: seq<Label>)
    ensures var m, t := System(c), Step(c, s, one);
            && (Enabled(c, s, one) && Enabled(c, t, two) && m.IsRun(Step(c, t, two), ls) ==>
                m.IsRun(s, [one, two] + ls))
            && m.After(s, [one, two] + ls) == m.After(Step(c, t, two), ls)
  {
    OneMore(c, s, [one, two] + ls);
    assert ([one, two] + ls)[1..] == [two] + ls;
    OneMore(c, Step(c, s, one), [two] + ls);
    assert ([two] + ls)[1..] == ls;
  }

  /** One poll is a run: it leaves the cursor, the persisted block and the processed blocks exactly
      where ProcessCurrentBlockRange does. */
  lemma PollIsARun(c: Config, env: Env, s: State)
    requires env.head.Some? && s.process.Up? && s.process.job.Idle? && s.process.polled < MAX_UINT64
    ensures var to := SafeBlock(env.head.value, c.confirmations);
            var cs := PollChunks(Add64(s.process.polled, 1), to, c.chunk);
            var ls := [Head(env.head.value), BeginPoll(true)] + PollLabels(env, cs);
            var polled := if AllAnswered(env, cs) && cs != [] then to else s.process.polled;
            && System(c).IsRun(s, ls)
            && System(c).After(s, ls)
            == Worked(s.(head := env.head.value), env, cs, Up(polled, s.process.backfilled, Idle))
  {
    var from, to := s.process.polled + 1, SafeBlock(env.head.value, c.confirmations);
    var begun := Step(c, Step(c, s, Head(env.head.value)), BeginPoll(true));
    var cs := PollChunks(from, to, c.chunk);
    TwoMore(c, s, Head(env.head.value), BeginPoll(true), PollLabels(env, cs));
    if from <= to {
      PollStep(from, to, c.chunk);
      PollSimulates(c, env, begun, from, to);
    }
  }

  /** The backfill is a run that ends where CatchUpHistoricalBlocks does. */
  lemma BackfillIsARun(c: Config, env: Env, s: State)
    requires env.head.Some? && s.process.Up? && s.process.job.Launched? && s.process.backfilled < MAX_UINT64
    ensures var to := SafeBlock(env.head.value, c.confirmations);
            var cs := BackfillChunks(Add64(s.process.backfilled, 1), to, c.chunk);
            var ls := [Head(env.head.value), BeginBackfill(true)] + BackfillLabels(env, cs);
            && System(c).IsRun(s, ls)
            && System(c).After(s, ls)
            == Worked(s.(head := env.head.value), env, cs,
                      Up(s.process.polled, LastBlock(env, cs, s.process.backfilled), Idle))
  {
    var from, to := s.process.backfilled + 1, SafeBlock(env.head.value, c.confirmations);
    var begun := Step(c, Step(c, s, Head(env.head.value)), BeginBackfill(true));
    var cs := BackfillChunks(from, to, c.chunk);
    TwoMore(c, s, Head(env.head.value), BeginBackfill(true), BackfillLabels(env, cs));
    if from < to {
      BackfillSimulates(c, env, begun, from, to);
    }
  }
}
