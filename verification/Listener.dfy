/** The block-cursor listener: NewListenerConfig, ResolveCommonListenerConfig, processBlockRange with
    its grouping by block, the backfill loop and the polling loop (listener_base.go, listener_evm.go). */
module Listener {
  import opened Integers
  import opened Wrappers
  import opened SolverState
  import opened ListenerRuns

  // ------------------------------------------------------------- the node and the logs

  /** An Open log; parses says whether the binding can decode it. */
  datatype Log = Log(blockNumber: nat, id: nat, parses: bool)

  /** What the node and the operating system answer during one call of a listener loop. */
  datatype Env = Env(
    head: Option<uint64>,
    filterLogs: (nat, nat) -> Option<seq<Log>>,
    io: nat -> Io                                  // for the persist of that block
  )

  function OfBlock(logs: seq<Log>, b: nat): seq<Log> {
    if |logs| == 0 then []
    else OfBlock(logs[..|logs| - 1], b) + if logs[|logs| - 1].blockNumber == b then [logs[|logs| - 1]] else []
  }

  /** byBlock[b] of a Go map: nothing if there is no entry. */
  function EventsAt(byBlock: map<nat, seq<Log>>, b: nat): seq<Log> {
    if b in byBlock then byBlock[b] else []
  }

  function Parsed(logs: seq<Log>): seq<Log> {
    if |logs| == 0 then []
    else Parsed(logs[..|logs| - 1]) + if logs[|logs| - 1].parses then [logs[|logs| - 1]] else []
  }

  /** Those are, in their order, the logs at increasing positions that are all positions of a log that parses. */
  ghost predicate Picks(logs: seq<Log>, picked: seq<Log>, ps: seq<nat>) {
    && |ps| == |picked|
    && (forall i :: 0 <= i < |ps| ==> ps[i] < |logs| && logs[ps[i]].parses && picked[i] == logs[ps[i]])
    && (forall i, j :: 0 <= i < j < |ps| ==> ps[i] < ps[j])
    && (forall p: nat :: p < |logs| && logs[p].parses ==> p in ps)
  }

  lemma PicksOneMore(logs: seq<Log>, picked: seq<Log>, ps: seq<nat>)
    requires |logs| > 0 && logs[|logs| - 1].parses && Picks(logs[..|logs| - 1], picked, ps)
    ensures Picks(logs, picked + [logs[|logs| - 1]], ps + [|logs| - 1])
  {
    var n := |logs| - 1;
    forall p: nat | p < |logs| && logs[p].parses
      ensures p in ps + [n]
    {
      if p < n {
        assert logs[..n][p] == logs[p];
      } else {
        assert (ps + [n])[|ps|] == p;
      }
    }
  }

  lemma PicksNoMore(logs: seq<Log>, picked: seq<Log>, ps: seq<nat>)
    requires |logs| > 0 && !logs[|logs| - 1].parses && Picks(logs[..|logs| - 1], picked, ps)
    ensures Picks(logs, picked, ps)
  {
    var n := |logs| - 1;
    forall p: nat | p < |logs| && logs[p].parses
      ensures p in ps
    {
      assert logs[..n][p] == logs[p];
    }
  }

  lemma {:induction false} ParsedIsPicked(logs: seq<Log>) returns (ps: seq<nat>)
    ensures Picks(logs, Parsed(logs), ps)
  {
    if |logs| == 0 {
      return [];
    }
    var n := |logs| - 1;
    ps := ParsedIsPicked(logs[..n]);
    if logs[n].parses {
      PicksOneMore(logs, Parsed(logs[..n]), ps);
      ps := ps + [n];
    } else {
      PicksNoMore(logs, Parsed(logs[..n]), ps);
    }
  }

  /** Parsed picks, in their order, exactly the logs that parse: those at the positions ps. */
  lemma ParsedPicks(logs: seq<Log>) returns (ps: seq<nat>)
    ensures |ps| == |Parsed(logs)|
    ensures forall i :: 0 <= i < |ps| ==> ps[i] < |logs| && logs[ps[i]].parses && Parsed(logs)[i] == logs[ps[i]]
    ensures forall i, j :: 0 <= i < j < |ps| ==> ps[i] < ps[j]
    ensures forall p: nat :: p < |logs| && logs[p].parses ==> p in ps
  {
    ps := ParsedIsPicked(logs);
  }

  /** A log that parses is picked as often as it is there, any other not at all. */
  lemma {:induction false} ParsedCounts(logs: seq<Log>, x: Log)
    ensures multiset(Parsed(logs))[x] == if x.parses then multiset(logs)[x] else 0
  {
    if |logs| > 0 {
      var n := |logs| - 1;
      ParsedCounts(logs[..n], x);
      assert logs == logs[..n] + [logs[n]];
    }
  }

  /** What was handed over holds every log that parses as often as the block does, no other, and in order. */
  ghost predicate HandsOver(events: seq<Log>, handed: seq<Log>) {
    && (forall x :: multiset(handed)[x] == if x.parses then multiset(events)[x] else 0)
    && exists ps :: Picks(events, handed, ps)
  }

  lemma ParsedIsHandedOver(before: seq<Log>, events: seq<Log>, after: seq<Log>)
    requires after == before + Parsed(events)
    ensures HandsOver(events, after[|before|..])
  {
    assert after[|before|..] == Parsed(events);
    var ps := ParsedIsPicked(events);
    forall x
      ensures multiset(Parsed(events))[x] == if x.parses then multiset(events)[x] else 0
    {
      ParsedCounts(events, x);
    }
  }

  lemma {:induction false} ParsedConcat(a: seq<Log>, b: seq<Log>)
    ensures Parsed(a + b) == Parsed(a) + Parsed(b)
  {
    if |b| == 0 {
      assert a + b == a;
    } else {
      ParsedConcat(a, b[..|b| - 1]);
      assert (a + b)[..|a + b| - 1] == a + b[..|b| - 1];
    }
  }

  lemma {:induction false} AllParsed(logs: seq<Log>)
    requires forall i :: 0 <= i < |logs| ==> logs[i].parses
    ensures Parsed(logs) == logs
  {
    if |logs| > 0 {
      AllParsed(logs[..|logs| - 1]);
      assert logs[..|logs| - 1] + [logs[|logs| - 1]] == logs;
    }
  }

  /** What is handed to the handler for blocks from to next - 1: block by block, each block's logs in
      the order the node returned them. */
  function Grouped(logs: seq<Log>, from: nat, next: nat): seq<Log> {
    if next <= from then [] else Grouped(logs, from, next - 1) + Parsed(OfBlock(logs, next - 1))
  }

  /** from, from + 1, ..., next - 1. */
  function Blocks(from: nat, next: nat): (bs: seq<nat>)
    ensures |bs| == if next <= from then 0 else next - from
    ensures forall i :: 0 <= i < |bs| ==> bs[i] == from + i
  {
    if next <= from then [] else Blocks(from, next - 1) + [next - 1]
  }

  // ------------------------------------------------------------- chunks

  type Chunk = (nat, nat)

  /** The polling loop's chunks: they partition [from, to]. */
  function PollChunks(from: nat, to: nat, size: pos): seq<Chunk>
    decreases (1 + to - from)
  {
    if from > to then [] else [(from, PollEnd(from, to, size))] + PollChunks(from + size, to, size)
  }

  /** The backfill loop's chunks: every chunk starts at the last block of the one before. */
  function BackfillChunks(from: nat, to: nat, size: pos): seq<Chunk>
    decreases (to - from)
  {
    if from >= to then [] else [(from, BackfillEnd(from, to, size))] + BackfillChunks(from + size, to, size)
  }

  predicate IsAnswered(env: Env, c: Chunk) {
    env.filterLogs(c.0, c.1).Some?
  }

  /** What the handler is called with for one answered chunk. */
  function LogsOf(env: Env, c: Chunk): seq<Log>
    requires IsAnswered(env, c)
  {
    Grouped(env.filterLogs(c.0, c.1).value, c.0, c.1 + 1)
  }

  predicate AllAnswered(env: Env, cs: seq<Chunk>) {
    |cs| == 0 || (IsAnswered(env, cs[0]) && AllAnswered(env, cs[1..]))
  }

  /** The handler calls of the chunks up to the first one the node fails to answer. */
  function Deliveries(env: Env, cs: seq<Chunk>): seq<Log> {
    if |cs| == 0 || !IsAnswered(env, cs[0]) then [] else LogsOf(env, cs[0]) + Deliveries(env, cs[1..])
  }

  /** The blocks of those chunks, in the order they are marked processed. */
  function Visits(env: Env, cs: seq<Chunk>): seq<nat> {
    if |cs| == 0 || !IsAnswered(env, cs[0]) then [] else Blocks(cs[0].0, cs[0].1 + 1) + Visits(env, cs[1..])
  }

  /** The last block of those chunks, or the cursor if there is none. */
  function LastBlock(env: Env, cs: seq<Chunk>, cursor: nat): nat {
    if |cs| == 0 || !IsAnswered(env, cs[0]) then cursor else LastBlock(env, cs[1..], cs[0].1)
  }

  /** Whether the persist after that block succeeds, for a network the state file knows. */
  predicate Saves(env: Env, block: nat) {
    env.io(block).SomeReadSucceeds() && env.io(block).save.NoStep?
  }

  /** The persisted block after those chunks: a failed persist leaves the old one. */
  function LastPersisted(env: Env, cs: seq<Chunk>, persisted: nat): nat {
    if |cs| == 0 || !IsAnswered(env, cs[0]) then persisted
    else LastPersisted(env, cs[1..], if Saves(env, cs[0].1) then cs[0].1 else persisted)
  }

  /** Where the persisted blocks of a listener's network are kept. */
  datatype Entry = Entry(name: string, defaults: Networks)

  /** The file after a persist. */
  function Persisted(env: Env, e: Entry, file: File, block: uint64): File {
    AfterUpdate(file, e.defaults, e.name, NetworkState(block, "now"), env.io(block))
  }

  /** What a loop has done so far. */
  datatype Progress = Progress(delivered: seq<Log>, visited: seq<nat>, file: File, cursor: nat)

  function AfterChunk(env: Env, e: Entry, c: Chunk, p: Progress): Progress
    requires IsAnswered(env, c)
  {
    Progress(p.delivered + LogsOf(env, c), p.visited + Blocks(c.0, c.1 + 1),
             if c.1 <= MAX_UINT64 then Persisted(env, e, p.file, c.1) else p.file, c.1)
  }

  /** What it has done after the chunks up to the first one that is not answered. */
  function AfterChunks(env: Env, e: Entry, cs: seq<Chunk>, p: Progress): Progress
    decreases |cs|
  {
    if |cs| == 0 || !IsAnswered(env, cs[0]) then p else AfterChunks(env, e, cs[1..], AfterChunk(env, e, cs[0], p))
  }

  predicate IsPersistable(e: Entry, file: File) {
    file.Valid? && e.name in file.networks
  }

  predicate Below64(cs: seq<Chunk>) {
    forall c <- cs :: c.1 <= MAX_UINT64
  }

  /** Chunk by chunk, that is all handler calls, all blocks, the last block, and in a file that knows the
      network the last block whose persist succeeded. */
  lemma {:induction false} AfterChunksMeans(env: Env, e: Entry, cs: seq<Chunk>, p: Progress)
    requires Below64(cs)
    ensures var q := AfterChunks(env, e, cs, p);
            && q.delivered == p.delivered + Deliveries(env, cs) && q.visited == p.visited + Visits(env, cs)
            && q.cursor == LastBlock(env, cs, p.cursor)
            && (IsPersistable(e, p.file) ==>
                  && IsPersistable(e, q.file)
                  && q.file.networks[e.name].lastIndexedBlock
                  == LastPersisted(env, cs, p.file.networks[e.name].lastIndexedBlock))
    decreases |cs|
  {
    if |cs| > 0 && IsAnswered(env, cs[0]) {
      var q := AfterChunk(env, e, cs[0], p);
      assert cs[0] in cs && forall c <- cs[1..] :: c in cs;
      AfterChunksMeans(env, e, cs[1..], q);
      Associate(p.delivered, LogsOf(env, cs[0]), Deliveries(env, cs[1..]));
      Associate(p.visited, Blocks(cs[0].0, cs[0].1 + 1), Visits(env, cs[1..]));
      UpdateMeans(p.file, e.defaults, e.name, NetworkState(cs[0].1, "now"), env.io(cs[0].1));
    } else {
      Associate(p.delivered, [], []);
      Associate(p.visited, [], []);
    }
  }

  // ------------------------------------------------------------- counters that wrap around

  /** The polling loop's counter passes the last chunk, or stands at the first unanswered one, before it
      wraps around. */
  predicate PollEnds(env: Env, from: nat, to: nat, size: pos)
    decreases (1 + to - from)
  {
    from > to
    || (from + size - 1 <= MAX_UINT64
        && (IsAnswered(env, (from, PollEnd(from, to, size))) ==>
              from + size <= MAX_UINT64 && PollEnds(env, from + size, to, size)))
  }

  /** The same for the backfill; a chunk up to the largest uint64 is never done with. */
  predicate BackfillEnds(env: Env, from: nat, to: nat, size: pos)
    decreases (to - from)
  {
    from >= to
    || (from + size <= MAX_UINT64
        && (IsAnswered(env, (from, BackfillEnd(from, to, size))) ==>
              BackfillEnd(from, to, size) < MAX_UINT64 && BackfillEnds(env, from + size, to, size)))
  }

  /** They do as long as the range ends a chunk below the largest uint64. */
  lemma {:induction false} FarRangesEnd(env: Env, from: nat, to: nat, size: pos)
    requires to + size <= MAX_UINT64
    ensures PollEnds(env, from, to, size) && BackfillEnds(env, from, to, size)
    decreases (1 + to - from)
  {
    if from <= to {
      FarRangesEnd(env, from + size, to, size);
    }
  }

  /** Past that, the loops of the source go on: a wrapped counter is below the end of the range again, and
      every uint64 is at most the largest one. */
  lemma WrappedCountersGoOn(from: uint64, to: uint64, size: uint64)
    requires from <= to
    ensures from + size > MAX_UINT64 ==> Add64(from, size) < from
    ensures to == MAX_UINT64 ==> forall b: uint64 :: Add64(b, 1) <= to
  {
  }

  lemma PollStep(from: nat, to: nat, size: pos)
    requires from <= to
    ensures var cs := PollChunks(from, to, size);
            |cs| > 0 && cs[0] == (from, PollEnd(from, to, size)) && cs[1..] == PollChunks(from + size, to, size)
  {
  }

  lemma BackfillStep(from: nat, to: nat, size: pos)
    requires from < to
    ensures var cs := BackfillChunks(from, to, size);
            |cs| > 0 && cs[0] == (from, BackfillEnd(from, to, size)) && cs[1..] == BackfillChunks(from + size, to, size)
  {
  }

  /** What a loop over those chunks ends with, once it is at p. */
  predicate EndsWith(env: Env, e: Entry, cs: seq<Chunk>, p: Progress, ok: bool, q: Progress) {
    (ok <==> AllAnswered(env, cs)) && q == AfterChunks(env, e, cs, p)
  }

  /** One round of the polling loop. */
  lemma PollRound(env: Env, e: Entry, from: uint64, to: uint64, size: pos, p: Progress)
    requires from <= to && PollEnds(env, from, to, size)
    ensures var c, cs := (from, PollEnd(from, to, size)), PollChunks(from, to, size);
            && from + size - 1 <= MAX_UINT64
            && if IsAnswered(env, c) then
                 && from + size <= MAX_UINT64 && PollEnds(env, from + size, to, size)
                 && forall ok, q ::
                      EndsWith(env, e, PollChunks(from + size, to, size), AfterChunk(env, e, c, p), ok, q) ==>
                        EndsWith(env, e, cs, p, ok, q)
               else EndsWith(env, e, cs, p, false, p)
  {
    PollStep(from, to, size);
  }

  /** One round of the backfill loop. */
  lemma BackfillRound(env: Env, e: Entry, from: uint64, to: uint64, size: pos, p: Progress)
    requires from < to && BackfillEnds(env, from, to, size)
    ensures var c, cs := (from, BackfillEnd(from, to, size)), BackfillChunks(from, to, size);
            && from + size <= MAX_UINT64
            && if IsAnswered(env, c) then
                 && c.1 < MAX_UINT64 && BackfillEnds(env, from + size, to, size)
                 && forall ok, q ::
                      EndsWith(env, e, BackfillChunks(from + size, to, size), AfterChunk(env, e, c, p), ok, q) ==>
                        EndsWith(env, e, cs, p, ok, q)
               else EndsWith(env, e, cs, p, false, p)
  {
    BackfillStep(from, to, size);
  }

  lemma Associate<T>(a: seq<T>, b: seq<T>, c: seq<T>)
    ensures a + (b + c) == (a + b) + c && a + [] == a
  {
  }

  /** What one more block adds to whatever was delivered and visited before. */
  lemma OneMoreBlock(logs: seq<Log>, from: nat, b: nat, delivered: seq<Log>, visited: seq<nat>)
    requires from <= b
    ensures delivered + Grouped(logs, from, b + 1) == (delivered + Grouped(logs, from, b)) + Parsed(OfBlock(logs, b))
    ensures visited + Blocks(from, b + 1) == (visited + Blocks(from, b)) + [b]
  {
    Associate(delivered, Grouped(logs, from, b), Parsed(OfBlock(logs, b)));
    Associate(visited, Blocks(from, b), [b]);
  }

  // ------------------------------------------------------------- the listener

  /** NewListenerConfig: a zero poll interval or chunk size is replaced by a default. */
  datatype ListenerConfig = ListenerConfig(
    chainName: string,
    initialBlock: int64,
    pollInterval: int,
    confirmationBlocks: uint64,
    maxBlockRange: uint64
  )

  function NewListenerConfig(chainName: string, initialBlock: int64, pollInterval: int,
                             confirmationBlocks: uint64, maxBlockRange: uint64): (c: ListenerConfig)
    ensures c.maxBlockRange > 0 && c.pollInterval != 0
    ensures maxBlockRange > 0 ==> c.maxBlockRange == maxBlockRange
    ensures pollInterval != 0 ==> c.pollInterval == pollInterval
    ensures maxBlockRange == 0 ==> c.maxBlockRange == 9
    ensures pollInterval == 0 ==> c.pollInterval == 10000
    ensures c.chainName == chainName && c.initialBlock == initialBlock && c.confirmationBlocks == confirmationBlocks
  {
    ListenerConfig(chainName, initialBlock, if pollInterval == 0 then 10000 else pollInterval, confirmationBlocks,
                   if maxBlockRange == 0 then 9 else maxBlockRange)
  }

  /** ResolveCommonListenerConfig: the larger of the persisted block and the resolved start block. It
      fails when the head is needed but not available, or the network is not in the state file. */
  method ResolveCommonListenerConfig(config: ListenerConfig, head: Option<uint64>, state: Option<Networks>)
    returns (last: Option<uint64>)
    ensures last.Some? <==> (config.initialBlock > 0 || head.Some?) && state.Some? && config.chainName in state.value
    ensures last.Some? ==>
              last.value == Max(state.value[config.chainName].lastIndexedBlock,
                                ResolveStart(config.initialBlock, if head.Some? then head.value else 0))
  {
    var configStartBlock := config.initialBlock;
    var resolvedStartBlock: uint64;
    if configStartBlock > 0 {
      resolvedStartBlock := configStartBlock;
    } else {
      var currentBlock :- head;
      if configStartBlock == 0 {
        resolvedStartBlock := currentBlock;
      } else {
        resolvedStartBlock := Sub64(currentBlock, ToUint64(Neg64(configStartBlock)));
        if resolvedStartBlock > currentBlock {
          resolvedStartBlock := 0;
        }
      }
    }
    var networks :- state;
    if config.chainName !in networks {
      return None;
    }
    var deploymentStateBlock := networks[config.chainName].lastIndexedBlock;
    last := Some(if deploymentStateBlock > resolvedStartBlock then deploymentStateBlock else resolvedStartBlock);
  }

  /** With the block the default state file has for a network, the listener starts at the resolved start
      block, whatever the head. */
  lemma FreshStateFileAddsNothing(start: int64, head: uint64)
    ensures Max(ResolveSolverStartBlock(start), ResolveStart(start, head)) == ResolveStart(start, head)
  {
    ResolveStartClamps(start, head);
  }

  class BaseListener {
    var lastProcessedBlock: uint64

    constructor (last: uint64)
      ensures lastProcessedBlock == last
    {
      lastProcessedBlock := last;
    }
  }

  class EvmListener {
    const config: ListenerConfig
    const baseListener: BaseListener
    const stateFile: SolverStateFile
    var lastProcessedBlock: uint64
    var delivered: seq<Log>        // every call of the handler, in order
    ghost var visited: seq<nat>    // every block marked processed, in order

    ghost predicate Valid() {
      config.maxBlockRange > 0
    }

    constructor (config: ListenerConfig, stateFile: SolverStateFile, last: uint64)
      requires config.maxBlockRange > 0
      ensures Valid() && this.config == config && this.stateFile == stateFile && fresh(baseListener)
      ensures lastProcessedBlock == last && baseListener.lastProcessedBlock == last
      ensures delivered == [] && visited == []
    {
      this.config, this.stateFile, lastProcessedBlock := config, stateFile, last;
      baseListener := new BaseListener(last);
      delivered, visited := [], [];
    }

    /** Group logs by block: byBlock[b] holds exactly block b's logs, in the order returned. */
    method GroupByBlock(logs: seq<Log>) returns (byBlock: map<nat, seq<Log>>)
      ensures forall b :: EventsAt(byBlock, b) == OfBlock(logs, b)
    {
      byBlock := map[];
      for i := 0 to |logs|
        invariant forall b :: EventsAt(byBlock, b) == OfBlock(logs[..i], b)
      {
        var event := logs[i];
        byBlock := byBlock[event.blockNumber := EventsAt(byBlock, event.blockNumber) + [event]];
        assert logs[..i + 1][..i] == logs[..i];
      }
      assert logs[..|logs|] == logs;
    }

    /** Handle one block's events; one that does not parse is skipped, and what the handler answers is
        ignored. */
    method HandleBlock(events: seq<Log>)
      modifies this`delivered
      ensures delivered == old(delivered) + Parsed(events)
      ensures HandsOver(events, delivered[|old(delivered)|..])
    {
      for i := 0 to |events|
        invariant delivered == old(delivered) + Parsed(events[..i])
      {
        assert events[..i + 1][..i] == events[..i];
        if events[i].parses {
          delivered := delivered + [events[i]];
        }
      }
      assert events[..|events|] == events;
      ParsedIsHandedOver(old(delivered), events, delivered);
    }

    /** processBlockRange: every block of [fromBlock, toBlock] once, in order. */
    method ProcessBlockRange(env: Env, fromBlock: uint64, toBlock: uint64)
      returns (last: uint64, ok: bool)
      requires env.filterLogs(fromBlock, toBlock).Some? ==> toBlock < MAX_UINT64
      modifies this`delivered, this`visited
      ensures fromBlock > toBlock ==>
                ok && last == lastProcessedBlock && delivered == old(delivered) && visited == old(visited)
      ensures fromBlock <= toBlock && env.filterLogs(fromBlock, toBlock).None? ==>
                !ok && last == lastProcessedBlock && delivered == old(delivered) && visited == old(visited)
      ensures fromBlock <= toBlock && env.filterLogs(fromBlock, toBlock).Some? ==>
                && ok && last == toBlock
                && delivered == old(delivered) + LogsOf(env, (fromBlock, toBlock))
                && visited == old(visited) + Blocks(fromBlock, toBlock + 1)
    {
      if fromBlock > toBlock {
        return lastProcessedBlock, true;
      }
      var logs := env.filterLogs(fromBlock, toBlock);
      if logs.None? {
        return lastProcessedBlock, false;
      }
      ProcessBlocks(logs.value, fromBlock, toBlock);
      return toBlock, true;
    }

    /** Process blocks in order; the last one done is toBlock. */
    method ProcessBlocks(logs: seq<Log>, fromBlock: uint64, toBlock: uint64)
      requires fromBlock <= toBlock < MAX_UINT64
      modifies this`delivered, this`visited
      ensures delivered == old(delivered) + Grouped(logs, fromBlock, toBlock + 1)
      ensures visited == old(visited) + Blocks(fromBlock, toBlock + 1)
    {
      var byBlock := GroupByBlock(logs);
      var b := fromBlock;
      while b <= toBlock
        invariant fromBlock <= b <= toBlock + 1
        invariant delivered == old(delivered) + Grouped(logs, fromBlock, b)
        invariant visited == old(visited) + Blocks(fromBlock, b)
        decreases toBlock + 1 - b
      {
        Visit(logs, byBlock, b);
        OneMoreBlock(logs, fromBlock, b, old(delivered), old(visited));
        assert Add64(b, 1) == b + 1;
        b := Add64(b, 1);
      }
    }

    /** The body of that loop. */
    method Visit(ghost logs: seq<Log>, byBlock: map<nat, seq<Log>>, b: nat)
      requires EventsAt(byBlock, b) == OfBlock(logs, b)
      modifies this`delivered, this`visited
      ensures delivered == old(delivered) + Parsed(OfBlock(logs, b))
      ensures visited == old(visited) + [b]
    {
      var events := EventsAt(byBlock, b);
      HandleBlock(events);
      visited := visited + [b];
    }

    ghost function NetworkEntry(): Entry {
      Entry(config.chainName, stateFile.defaults)
    }

    /** The network's entry in the state file can be updated. */
    ghost predicate Persistable()
      reads stateFile
    {
      IsPersistable(NetworkEntry(), stateFile.file)
    }

    ghost function PersistedBlock(): nat
      requires Persistable()
      reads stateFile
    {
      stateFile.file.networks[config.chainName].lastIndexedBlock
    }

    /** What the listener has done so far; the cursor is the one its caller advances. */
    ghost function Now(cursor: nat): Progress
      reads this, stateFile
    {
      Progress(delivered, visited, stateFile.file, cursor)
    }

    /** Persist the cursor after a chunk; a failure is only reported. It leaves the file, or the defaults
        where there was no readable one, or the file in which this network alone has the new block. */
    method Persist(env: Env, block: uint64)
      modifies stateFile
      ensures stateFile.file == Persisted(env, NetworkEntry(), old(stateFile.file), block)
    {
      var ok := stateFile.UpdateLastIndexedBlock(config.chainName, block, "now", env.io(block));
    }

    /** One chunk of either loop: process it and persist its last block. */
    method WorkThrough(env: Env, start: uint64, end: uint64, ghost cursor: nat) returns (last: uint64, ok: bool)
      requires start <= end
      requires IsAnswered(env, (start, end)) ==> end < MAX_UINT64
      modifies this`delivered, this`visited, stateFile
      ensures ok <==> IsAnswered(env, (start, end))
      ensures ok ==> last == end && Now(end) == AfterChunk(env, NetworkEntry(), (start, end), old(Now(cursor)))
      ensures !ok ==> Now(cursor) == old(Now(cursor))
    {
      last, ok := ProcessBlockRange(env, start, end);
      if ok {
        Persist(env, last);
      }
    }

    /** ProcessCurrentBlockRangeCommon. The blocks above the cursor up to the safe block are processed
        chunk by chunk until one is not answered; the cursor moves only when all of them were. */
    method ProcessCurrentBlockRange(env: Env) returns (ok: bool)
      requires Valid()
      requires env.head.Some? ==>
                 PollEnds(env, Add64(lastProcessedBlock, 1), SafeBlock(env.head.value, config.confirmationBlocks),
                          config.maxBlockRange)
      modifies this`lastProcessedBlock, this`delivered, this`visited, stateFile
      ensures env.head.None? ==>
                !ok && lastProcessedBlock == old(lastProcessedBlock) && Now(0) == old(Now(0))
      ensures env.head.Some? ==>
                var to := SafeBlock(env.head.value, config.confirmationBlocks);
                var cs := PollChunks(Add64(old(lastProcessedBlock), 1), to, config.maxBlockRange);
                && (ok <==> AllAnswered(env, cs))
                && lastProcessedBlock == (if ok && cs != [] then to else old(lastProcessedBlock))
                && HasWorked(env, cs, old(Now(0)))
    {
      if env.head.None? {
        return false;
      }
      var currentBlock := env.head.value;
      var safeBlock := currentBlock;
      if config.confirmationBlocks > 0 && currentBlock > config.confirmationBlocks {
        safeBlock := Sub64(currentBlock, config.confirmationBlocks);
      }
      var fromBlock := Add64(lastProcessedBlock, 1);
      var toBlock := safeBlock;
      if fromBlock > toBlock {
        AfterChunksMeans(env, NetworkEntry(), [], Now(0));
        return true;
      }
      ok := PollRange(env, fromBlock, toBlock);
      if ok {
        lastProcessedBlock := toBlock;
      }
    }

    /** What the chunks up to the first unanswered one did since then: the handler calls, the blocks marked
        processed, and the file; in a file that knows the network its block is the last one persisted. */
    ghost predicate HasWorked(env: Env, cs: seq<Chunk>, before: Progress)
      reads this, stateFile
    {
      && delivered == before.delivered + Deliveries(env, cs)
      && visited == before.visited + Visits(env, cs)
      && stateFile.file == AfterChunks(env, NetworkEntry(), cs, before).file
      && (IsPersistable(NetworkEntry(), before.file) ==>
            && Persistable()
            && PersistedBlock() == LastPersisted(env, cs, before.file.networks[config.chainName].lastIndexedBlock))
    }

    lemma HasWorkedThrough(env: Env, cs: seq<Chunk>, before: Progress, ok: bool, cursor: nat)
      requires Below64(cs) && EndsWith(env, NetworkEntry(), cs, before, ok, Now(cursor))
      ensures (ok <==> AllAnswered(env, cs)) && HasWorked(env, cs, before)
                && cursor == LastBlock(env, cs, before.cursor)
    {
      AfterChunksMeans(env, NetworkEntry(), cs, before);
    }

    /** The chunk loop of the poll; its last chunk ends at toBlock. */
    method PollRange(env: Env, fromBlock: uint64, toBlock: uint64) returns (ok: bool)
      requires Valid() && fromBlock <= toBlock && PollEnds(env, fromBlock, toBlock, config.maxBlockRange)
      modifies this`delivered, this`visited, stateFile
      ensures var cs := PollChunks(fromBlock, toBlock, config.maxBlockRange);
              (ok <==> AllAnswered(env, cs)) && HasWorked(env, cs, old(Now(0)))
    {
      var chunkSize := config.maxBlockRange;
      ghost var e, last := NetworkEntry(), 0;
      var start := fromBlock;
      PollBelow64(fromBlock, toBlock, chunkSize);
      while start <= toBlock
        invariant PollEnds(env, start, toBlock, chunkSize)
        invariant forall ok, q :: EndsWith(env, e, PollChunks(start, toBlock, chunkSize), Now(last), ok, q) ==>
                    EndsWith(env, e, PollChunks(fromBlock, toBlock, chunkSize), old(Now(0)), ok, q)
        decreases toBlock + 1 - start
      {
        PollRound(env, e, start, toBlock, chunkSize, Now(last));
        var end := Add64(start, Sub64(chunkSize, 1));
        if end > toBlock {
          end := toBlock;
        }
        assert end == PollEnd(start, toBlock, chunkSize);
        var newLast, good := WorkThrough(env, start, end, last);
        if !good {
          HasWorkedThrough(env, PollChunks(fromBlock, toBlock, chunkSize), old(Now(0)), false, last);
          return false;
        }
        start, last := Add64(start, chunkSize), newLast;
      }
      HasWorkedThrough(env, PollChunks(fromBlock, toBlock, chunkSize), old(Now(0)), true, last);
      ok := true;
    }

    /** CatchUpHistoricalBlocks. Chunks overlap by one block, and only the base listener's own cursor
        moves, chunk by chunk. */
    method CatchUpHistoricalBlocks(env: Env) returns (ok: bool)
      requires Valid()
      requires env.head.Some? ==>
                 BackfillEnds(env, Add64(baseListener.lastProcessedBlock, 1),
                              SafeBlock(env.head.value, config.confirmationBlocks), config.maxBlockRange)
      modifies baseListener, this`delivered, this`visited, stateFile
      ensures env.head.None? ==>
                !ok && baseListener.lastProcessedBlock == old(baseListener.lastProcessedBlock) && Now(0) == old(Now(0))
      ensures env.head.Some? ==>
                var last := old(baseListener.lastProcessedBlock);
                var cs := BackfillChunks(Add64(last, 1), SafeBlock(env.head.value, config.confirmationBlocks),
                                         config.maxBlockRange);
                && (ok <==> AllAnswered(env, cs))
                && baseListener.lastProcessedBlock == LastBlock(env, cs, last)
                && HasWorked(env, cs, old(Now(baseListener.lastProcessedBlock)))
    {
      if env.head.None? {
        return false;
      }
      var currentBlock := env.head.value;
      var safeBlock := currentBlock;
      if config.confirmationBlocks > 0 && currentBlock > config.confirmationBlocks {
        safeBlock := Sub64(currentBlock, config.confirmationBlocks);
      }
      var fromBlock := Add64(baseListener.lastProcessedBlock, 1);
      var toBlock := safeBlock;
      if fromBlock >= toBlock {
        AfterChunksMeans(env, NetworkEntry(), [], Now(baseListener.lastProcessedBlock));
        return true;
      }
      ok := BackfillRange(env, fromBlock, toBlock);
    }

    /** The chunk loop of the backfill. */
    method BackfillRange(env: Env, fromBlock: uint64, toBlock: uint64) returns (ok: bool)
      requires Valid() && BackfillEnds(env, fromBlock, toBlock, config.maxBlockRange)
      modifies baseListener, this`delivered, this`visited, stateFile
      ensures var cs := BackfillChunks(fromBlock, toBlock, config.maxBlockRange);
              && (ok <==> AllAnswered(env, cs))
              && baseListener.lastProcessedBlock == LastBlock(env, cs, old(baseListener.lastProcessedBlock))
              && HasWorked(env, cs, old(Now(baseListener.lastProcessedBlock)))
    {
      var chunkSize := config.maxBlockRange;
      ghost var e, before := NetworkEntry(), Now(baseListener.lastProcessedBlock);
      var start := fromBlock;
      BackfillBelow64(fromBlock, toBlock, chunkSize);
      while start < toBlock
        invariant BackfillEnds(env, start, toBlock, chunkSize)
        invariant forall ok, q ::
                    EndsWith(env, e, BackfillChunks(start, toBlock, chunkSize),
                             Now(baseListener.lastProcessedBlock), ok, q)
                    ==> EndsWith(env, e, BackfillChunks(fromBlock, toBlock, chunkSize), before, ok, q)
        decreases toBlock - start
      {
        BackfillRound(env, e, start, toBlock, chunkSize, Now(baseListener.lastProcessedBlock));
        var end := Add64(start, chunkSize);
        if end > toBlock {
          end := toBlock;
        }
        assert end == BackfillEnd(start, toBlock, chunkSize);
        var newLast, good := WorkThrough(env, start, end, baseListener.lastProcessedBlock);
        if !good {
          HasWorkedThrough(env, BackfillChunks(fromBlock, toBlock, chunkSize), before, false,
                           baseListener.lastProcessedBlock);
          return false;
        }
        baseListener.lastProcessedBlock := newLast;
        start := Add64(start, chunkSize);
      }
      HasWorkedThrough(env, BackfillChunks(fromBlock, toBlock, chunkSize), before, true,
                       baseListener.lastProcessedBlock);
      ok := true;
    }
  }

  lemma {:induction false} PollBelow64(from: nat, to: uint64, size: pos)
    ensures Below64(PollChunks(from, to, size))
    decreases (1 + to - from)
  {
    if from <= to {
      PollBelow64(from + size, to, size);
    }
  }

  lemma {:induction false} BackfillBelow64(from: nat, to: uint64, size: pos)
    ensures Below64(BackfillChunks(from, to, size))
    decreases (to - from)
  {
    if from < to {
      BackfillBelow64(from + size, to, size);
    }
  }

  // ------------------------------------------------------------- polling refines a simple scan

  /** The handler calls of visiting those blocks of a chain one by one. */
  function Scan(chain: nat -> seq<Log>, blocks: seq<nat>): seq<Log> {
    if |blocks| == 0 then [] else Scan(chain, blocks[..|blocks| - 1]) + Parsed(chain(blocks[|blocks| - 1]))
  }

  /** All logs of a stretch of the chain, in chain order. */
  function ChainLogs(chain: nat -> seq<Log>, from: nat, next: nat): seq<Log> {
    if next <= from then [] else ChainLogs(chain, from, next - 1) + chain(next - 1)
  }

  /** A node that returns every log of a range, in chain order. */
  ghost predicate Complete(env: Env, chain: nat -> seq<Log>) {
    && (forall b: nat, i :: 0 <= i < |chain(b)| ==> chain(b)[i].blockNumber == b)
    && (forall from: nat, to: nat :: env.filterLogs(from, to) == Some(ChainLogs(chain, from, to + 1)))
  }

  lemma {:induction false} OfBlockConcat(a: seq<Log>, c: seq<Log>, b: nat)
    ensures OfBlock(a + c, b) == OfBlock(a, b) + OfBlock(c, b)
  {
    if |c| == 0 {
      assert a + c == a;
    } else {
      OfBlockConcat(a, c[..|c| - 1], b);
      assert (a + c)[..|a + c| - 1] == a + c[..|c| - 1];
    }
  }

  lemma {:induction false} OfBlockUniform(logs: seq<Log>, own: nat, b: nat)
    requires forall i :: 0 <= i < |logs| ==> logs[i].blockNumber == own
    ensures OfBlock(logs, b) == if b == own then logs else []
  {
    if |logs| > 0 {
      OfBlockUniform(logs[..|logs| - 1], own, b);
    }
  }

  /** Grouping by block undoes the concatenation. */
  lemma {:induction false} OfBlockOfChain(chain: nat -> seq<Log>, from: nat, next: nat, b: nat)
    requires forall b: nat, i :: 0 <= i < |chain(b)| ==> chain(b)[i].blockNumber == b
    ensures OfBlock(ChainLogs(chain, from, next), b) == if from <= b < next then chain(b) else []
  {
    if next > from {
      OfBlockOfChain(chain, from, next - 1, b);
      OfBlockConcat(ChainLogs(chain, from, next - 1), chain(next - 1), b);
      OfBlockUniform(chain(next - 1), next - 1, b);
    }
  }

  lemma ScanOneMore(chain: nat -> seq<Log>, from: nat, next: nat)
    requires next > from
    ensures Scan(chain, Blocks(from, next)) == Scan(chain, Blocks(from, next - 1)) + Parsed(chain(next - 1))
  {
    assert Blocks(from, next)[..next - 1 - from] == Blocks(from, next - 1);
  }

  /** The logs of each of those blocks are all that the chain has there. */
  ghost predicate HoldsBlocks(logs: seq<Log>, chain: nat -> seq<Log>, from: nat, next: nat) {
    forall b :: from <= b < next ==> OfBlock(logs, b) == chain(b)
  }

  lemma {:induction false} GroupedIsScan(chain: nat -> seq<Log>, logs: seq<Log>, from: nat, next: nat)
    requires HoldsBlocks(logs, chain, from, next)
    ensures Grouped(logs, from, next) == Scan(chain, Blocks(from, next))
    decreases next
  {
    if next > from {
      GroupedIsScan(chain, logs, from, next - 1);
      GroupedOneMore(logs, from, next, chain(next - 1));
      ScanOneMore(chain, from, next);
    }
  }

  lemma GroupedOneMore(logs: seq<Log>, from: nat, next: nat, own: seq<Log>)
    requires next > from && OfBlock(logs, next - 1) == own
    ensures Grouped(logs, from, next) == Grouped(logs, from, next - 1) + Parsed(own)
  {
  }

  lemma {:induction false} ScanConcat(chain: nat -> seq<Log>, a: seq<nat>, b: seq<nat>)
    ensures Scan(chain, a + b) == Scan(chain, a) + Scan(chain, b)
  {
    if |b| == 0 {
      assert a + b == a;
    } else {
      ScanConcat(chain, a, b[..|b| - 1]);
      assert (a + b)[..|a + b| - 1] == a + b[..|b| - 1];
    }
  }

  lemma ChunkIsScan(env: Env, chain: nat -> seq<Log>, c: Chunk)
    requires Complete(env, chain)
    ensures IsAnswered(env, c) && LogsOf(env, c) == Scan(chain, Blocks(c.0, c.1 + 1))
  {
    var logs := ChainLogs(chain, c.0, c.1 + 1);
    assert env.filterLogs(c.0, c.1) == Some(logs);
    forall b | c.0 <= b < c.1 + 1
      ensures OfBlock(logs, b) == chain(b)
    {
      OfBlockOfChain(chain, c.0, c.1 + 1, b);
    }
    GroupedIsScan(chain, logs, c.0, c.1 + 1);
  }

  /** With a complete node, chunking and grouping deliver exactly the scan of the visited blocks. */
  lemma {:induction false} DeliveriesAreScan(env: Env, chain: nat -> seq<Log>, cs: seq<Chunk>)
    requires Complete(env, chain)
    ensures AllAnswered(env, cs)
    ensures Deliveries(env, cs) == Scan(chain, Visits(env, cs))
  {
    if |cs| > 0 {
      ChunkIsScan(env, chain, cs[0]);
      DeliveriesAreScan(env, chain, cs[1..]);
      ScanConcat(chain, Blocks(cs[0].0, cs[0].1 + 1), Visits(env, cs[1..]));
    }
  }

  lemma {:induction false} BlocksConcat(a: nat, b: nat, c: nat)
    requires a <= b <= c
    ensures Blocks(a, b) + Blocks(b, c) == Blocks(a, c)
  {
    if b < c {
      BlocksConcat(a, b, c - 1);
    }
  }

  /** A chunk and what is left after it. */
  lemma BlocksSplit(from: nat, to: nat, size: pos)
    requires from <= to
    ensures Blocks(from, to + 1) == Blocks(from, PollEnd(from, to, size) + 1) + Blocks(from + size, to + 1)
  {
    if from + size <= to {
      BlocksConcat(from, from + size, to + 1);
    } else {
      assert Blocks(from + size, to + 1) == [];
    }
  }

  /** Polling chunks partition the range: every block once, in order. */
  lemma {:induction false} PollVisitsOnce(env: Env, from: nat, to: nat, size: pos)
    requires AllAnswered(env, PollChunks(from, to, size))
    ensures Visits(env, PollChunks(from, to, size)) == Blocks(from, to + 1)
    decreases (1 + to - from)
  {
    if from <= to {
      PollStep(from, to, size);
      PollVisitsOnce(env, from + size, to, size);
      BlocksSplit(from, to, size);
    }
  }

  /** Whatever the node answers, a poll visits an initial stretch of the range, each block once. */
  lemma {:induction false} PollVisitsPrefix(env: Env, from: nat, to: nat, size: pos)
    ensures Visits(env, PollChunks(from, to, size)) <= Blocks(from, to + 1)
    decreases (1 + to - from)
  {
    if from <= to {
      PollStep(from, to, size);
      PollVisitsPrefix(env, from + size, to, size);
      BlocksSplit(from, to, size);
    }
  }

  /** Chunked polling is a one-by-one scan: with a complete node the handler sees the logs of blocks
      from to to, each block once and in order. */
  lemma PollRefinesScan(env: Env, chain: nat -> seq<Log>, from: nat, to: nat, size: pos)
    requires Complete(env, chain)
    ensures AllAnswered(env, PollChunks(from, to, size))
    ensures Deliveries(env, PollChunks(from, to, size)) == Scan(chain, Blocks(from, to + 1))
  {
    DeliveriesAreScan(env, chain, PollChunks(from, to, size));
    PollVisitsOnce(env, from, to, size);
  }

  /** The logs of a stretch, cut anywhere, and of one block: together they say what a stretch is. */
  lemma {:induction false} ChainLogsSplit(chain: nat -> seq<Log>, a: nat, b: nat, c: nat)
    requires a <= b <= c
    ensures ChainLogs(chain, a, b) + ChainLogs(chain, b, c) == ChainLogs(chain, a, c)
    ensures ChainLogs(chain, a, a) == [] && ChainLogs(chain, a, a + 1) == chain(a)
  {
    if b < c {
      ChainLogsSplit(chain, a, b, c - 1);
    }
  }

  lemma {:induction false} ScanIsParsed(chain: nat -> seq<Log>, from: nat, next: nat)
    ensures Scan(chain, Blocks(from, next)) == Parsed(ChainLogs(chain, from, next))
  {
    if next > from {
      ScanIsParsed(chain, from, next - 1);
      ScanOneMore(chain, from, next);
      ParsedConcat(ChainLogs(chain, from, next - 1), chain(next - 1));
    }
  }

  lemma {:induction false} ChainLogsParse(chain: nat -> seq<Log>, from: nat, next: nat)
    requires forall b: nat, i :: 0 <= i < |chain(b)| ==> chain(b)[i].parses
    ensures forall i :: 0 <= i < |ChainLogs(chain, from, next)| ==> ChainLogs(chain, from, next)[i].parses
  {
    if next > from {
      ChainLogsParse(chain, from, next - 1);
    }
  }

  /** With a complete node a poll delivers the logs of its range that parse, in chain order; if all parse, it
      delivers exactly the chain's logs. */
  lemma PollDeliversChainLogs(env: Env, chain: nat -> seq<Log>, from: nat, to: nat, size: pos)
    requires Complete(env, chain)
    ensures Deliveries(env, PollChunks(from, to, size)) == Parsed(ChainLogs(chain, from, to + 1))
    ensures (forall b: nat, i :: 0 <= i < |chain(b)| ==> chain(b)[i].parses) ==>
              Deliveries(env, PollChunks(from, to, size)) == ChainLogs(chain, from, to + 1)
  {
    PollRefinesScan(env, chain, from, to, size);
    ScanIsParsed(chain, from, to + 1);
    if forall b: nat, i :: 0 <= i < |chain(b)| ==> chain(b)[i].parses {
      ChainLogsParse(chain, from, to + 1);
      AllParsed(ChainLogs(chain, from, to + 1));
    }
  }

  // ------------------------------------------------------------- chunk sizes and the confirmation window

  /** A polling chunk is not empty, stays in the range, and has at most the configured size; a backfill chunk one
      block more. */
  lemma {:induction false} PollChunkSizes(from: nat, to: nat, size: pos)
    ensures forall c <- PollChunks(from, to, size) :: from <= c.0 <= c.1 <= to && c.1 - c.0 < size
    decreases (1 + to - from)
  {
    if from <= to {
      PollChunkSizes(from + size, to, size);
    }
  }

  lemma {:induction false} BackfillChunkSizes(from: nat, to: nat, size: pos)
    ensures forall c <- BackfillChunks(from, to, size) :: from <= c.0 < c.1 <= to && c.1 - c.0 <= size
    decreases (to - from)
  {
    if from < to {
      BackfillChunkSizes(from + size, to, size);
    }
  }

  /** A block is safe exactly if the head has reached it, and once the head is past the confirmation window, if it
      has that many blocks on top. */
  lemma SafeBlocks(head: uint64, confirmations: uint64, b: nat)
    ensures b <= SafeBlock(head, confirmations) <==> b <= head && (head > confirmations ==> b + confirmations <= head)
  {
  }

  // ------------------------------------------------------------- backfill repeats chunk borders

  function Times(visits: seq<nat>, b: nat): nat {
    multiset(visits)[b]
  }

  lemma {:induction false} TimesInBlocks(lo: nat, hi: nat, b: nat)
    ensures Times(Blocks(lo, hi + 1), b) == if lo <= b <= hi then 1 else 0
    decreases (1 + hi - lo)
  {
    if lo <= hi {
      assert Blocks(lo, hi + 1) == Blocks(lo, hi) + [hi];
      TimesOneMore(Blocks(lo, hi), hi, b);
      if hi > 0 {
        TimesInBlocks(lo, hi - 1, b);
      }
    }
  }

  lemma TimesOneMore(visits: seq<nat>, hi: nat, b: nat)
    ensures Times(visits + [hi], b) == Times(visits, b) + if b == hi then 1 else 0
  {
  }

  /** How often a complete backfill of [from, to] processes block b. */
  function BackfillTimes(from: nat, to: nat, size: pos, b: nat): nat {
    if b < from || b > to then 0
    else if from < b < to && (b - from) % size == 0 then 2
    else 1
  }

  lemma ModMinus(x: nat, size: pos)
    requires x >= size
    ensures (x - size) % size == x % size
  {
    var q, r := x / size, x % size;
    assert x - size == size * (q - 1) + r;
    ModUnique(x - size, size, q - 1, r);
  }

  lemma ModUnique(n: nat, d: pos, q: int, r: nat)
    requires n == d * q + r && r < d
    ensures n % d == r
  {
    var k := q - n / d;
    assert d * k == n % d - r;
    assert k >= 1 ==> d * k >= d;
    assert k <= -1 ==> d * k <= 0 - d;
  }

  lemma BackfillTimesStep(from: nat, to: nat, size: pos, b: nat)
    requires from < to
    ensures BackfillTimes(from, to, size, b)
         == (if from <= b <= BackfillEnd(from, to, size) then 1 else 0)
          + (if from + size < to then BackfillTimes(from + size, to, size, b) else 0)
  {
    if from < b < from + size {
      ModUnique(b - from, size, 0, b - from);
    } else if b == from + size {
      ModUnique(size, size, 1, 0);
    } else if b > from + size {
      ModMinus(b - from, size);
    }
  }

  lemma TimesConcat(a: seq<nat>, c: seq<nat>, b: nat)
    ensures Times(a + c, b) == Times(a, b) + Times(c, b)
  {
  }

  /** In how many chunks block b lies. */
  function ChunksWith(cs: seq<Chunk>, b: nat): nat {
    if |cs| == 0 then 0 else (if cs[0].0 <= b <= cs[0].1 then 1 else 0) + ChunksWith(cs[1..], b)
  }

  lemma {:induction false} VisitsAreChunks(env: Env, cs: seq<Chunk>, b: nat)
    requires AllAnswered(env, cs)
    ensures Times(Visits(env, cs), b) == ChunksWith(cs, b)
  {
    if |cs| > 0 {
      TimesConcat(Blocks(cs[0].0, cs[0].1 + 1), Visits(env, cs[1..]), b);
      TimesInBlocks(cs[0].0, cs[0].1, b);
      VisitsAreChunks(env, cs[1..], b);
    }
  }

  lemma {:induction false} ChunksWithClosedForm(from: nat, to: nat, size: pos, b: nat)
    requires from < to
    ensures ChunksWith(BackfillChunks(from, to, size), b) == BackfillTimes(from, to, size, b)
    decreases (to - from)
  {
    BackfillStep(from, to, size);
    BackfillTimesStep(from, to, size, b);
    if from + size < to {
      ChunksWithClosedForm(from + size, to, size, b);
    }
  }

  lemma {:induction false} BackfillEndsAtSafeBlock(env: Env, from: nat, to: nat, size: pos, cursor: nat)
    requires from < to && AllAnswered(env, BackfillChunks(from, to, size))
    ensures LastBlock(env, BackfillChunks(from, to, size), cursor) == to
    decreases (to - from)
  {
    BackfillStep(from, to, size);
    if from + size < to {
      BackfillEndsAtSafeBlock(env, from + size, to, size, BackfillEnd(from, to, size));
    }
  }

  /** A complete backfill ends with the cursor at the safe block and processes every block once,
      except the inner chunk borders, which it processes twice. */
  lemma BackfillMultiplicity(env: Env, from: nat, to: nat, size: pos, cursor: nat, b: nat)
    requires from < to && AllAnswered(env, BackfillChunks(from, to, size))
    ensures LastBlock(env, BackfillChunks(from, to, size), cursor) == to
    ensures multiset(Visits(env, BackfillChunks(from, to, size)))[b]
         == if b < from || b > to then 0 else if from < b < to && (b - from) % size == 0 then 2 else 1
  {
    BackfillEndsAtSafeBlock(env, from, to, size, cursor);
    VisitsAreChunks(env, BackfillChunks(from, to, size), b);
    ChunksWithClosedForm(from, to, size, b);
  }
}
