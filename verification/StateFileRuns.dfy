/** Listeners of several networks updating one state file at the same time, with the steps of a save,
    process crashes and power loss between them (config/solver_state.go). */
module StateFileRuns {
  import opened Integers
  import opened Runs
  import opened Wrappers
  import SolverState

  type Tid = nat

  type Entry = SolverState.NetworkState

  /** The persisted entry of every network. */
  type Blocks = SolverState.Networks

  type Update = (string, Entry)

  function Block(n: uint64): Entry {
    SolverState.NetworkState(n, "")
  }

  /** How a state is written to a file and read back. */
  datatype Format = Format(marshal: Blocks -> string, parse: string -> Option<Blocks>)

  /** What is marshalled parses to itself, and an empty file does not parse. */
  ghost predicate IsFormat(f: Format) {
    (forall m :: f.parse(f.marshal(m)) == Some(m)) && f.parse("").None?
  }

  /** A file's bytes, and how many of them a power loss is sure to leave. */
  datatype Data = Data(bytes: string, durable: nat)

  /** A file the target's name may stand for after a power loss, and how many updates it holds. */
  datatype Version = Version(data: Data, saves: nat)

  /** Where a call of UpdateLastIndexedBlock stands. */
  datatype Pc =
    | Calling(name: string, entry: Entry)                                        // waits for the mutex
    | Reading(name: string, entry: Entry)                                        // inside, about to read
    | Saving(name: string, entry: Entry, read: Blocks)                           // holds the state it read
    | Writing(name: string, entry: Entry, read: Blocks, temp: Data)              // its file is open

  /** versions: the last one is the target file now. A rename reaches the disk only some time later, so a
      power loss may bring an older one back. */
  datatype State = State(
    versions: seq<Version>,
    mutexFree: bool,
    calls: map<Tid, Pc>,
    saved: seq<Update>,      // the updates that were saved and not undone by a power loss, oldest first
    reported: seq<Update>    // those whose call returned without an error, undone or not
  ) {
    function Target(): Data {
      if |versions| > 0 then versions[|versions| - 1].data else Data("", 0)
    }

    predicate IsWriting(t: Tid) {
      t in calls && calls[t].Writing?
    }
  }

  /** mutex: calls exclude each other. viaTemp: the new state goes to a temporary file that is renamed over
      the target, else straight into the target. sync: the file is synced first. powerLoss: not only the
      process may stop, but the machine. The code has the first three. */
  datatype Config = Config(mutex: bool, viaTemp: bool, sync: bool, powerLoss: bool)

  datatype Label =
    | Call(t: Tid, name: string, entry: Entry)
    | Acquire(t: Tid)
    | Read(t: Tid, ok: bool)
    | Create(t: Tid)                       // the temporary file; or the target is opened and truncated
    | Write(t: Tid, upTo: nat)             // some of the bytes
    | Sync(t: Tid)
    | Rename(t: Tid)                       // the save is done
    | Fail(t: Tid)                         // any of these steps fails
    | WriteBack                            // the renames so far reach the disk
    | Crash
    | PowerLoss(version: nat, upTo: nat)

  /** The state after the saved updates, each changing its own network only. */
  function Replay(initial: Blocks, saved: seq<Update>): Blocks {
    if |saved| == 0 then initial
    else var (name, entry) := saved[|saved| - 1]; Replay(initial, saved[..|saved| - 1])[name := entry]
  }

  /** What a call is about to write. */
  function NewBytes(f: Format, pc: Pc): string
    requires pc.Saving? || pc.Writing?
  {
    f.marshal(pc.read[pc.name := pc.entry])
  }

  /** The file a call has open. */
  function Open(c: Config, s: State, t: Tid): Data
    requires s.IsWriting(t)
  {
    if c.viaTemp then s.calls[t].temp else s.Target()
  }

  function WithOpen(c: Config, s: State, t: Tid, d: Data): State
    requires s.IsWriting(t)
  {
    if c.viaTemp then s.(calls := s.calls[t := s.calls[t].(temp := d)]) else Overwrite(s, d)
  }

  /** The target changed in place. */
  function Overwrite(s: State, d: Data): State {
    if |s.versions| == 0 then s
    else s.(versions := s.versions[|s.versions| - 1 := s.versions[|s.versions| - 1].(data := d)])
  }

  predicate Enabled(c: Config, f: Format, s: State, l: Label) {
    match l
    case Call(t, _, _) => t !in s.calls
    case Acquire(t) => t in s.calls && s.calls[t].Calling? && (c.mutex ==> s.mutexFree)
    case Read(t, _) => t in s.calls && s.calls[t].Reading?
    case Create(t) => t in s.calls && s.calls[t].Saving?
    case Write(t, n) => s.IsWriting(t) && |Open(c, s, t).bytes| <= n <= |NewBytes(f, s.calls[t])|
    case Sync(t) => s.IsWriting(t)
    case Rename(t) =>
      && s.IsWriting(t) && Open(c, s, t).bytes == NewBytes(f, s.calls[t])
      && (c.sync ==> Open(c, s, t).durable == |Open(c, s, t).bytes|)
    case Fail(t) => t in s.calls
    case WriteBack => true
    case Crash => true
    case PowerLoss(k, n) =>
      c.powerLoss && k < |s.versions| && s.versions[k].data.durable <= n <= |s.versions[k].data.bytes|
  }

  /** The call returns: the mutex is released and a temporary file removed. */
  function Return(s: State, t: Tid): State {
    s.(mutexFree := true, calls := s.calls - {t})
  }

  /** A save, from the creation of the file to the rename. */
  function SaveStep(c: Config, f: Format, s: State, l: Label): State
    requires Enabled(c, f, s, l) && (l.Create? || l.Write? || l.Sync? || l.Rename?)
  {
    var t, pc := l.t, s.calls[l.t];
    match l
    case Create(_) =>
      var s' := s.(calls := s.calls[t := Writing(pc.name, pc.entry, pc.read, Data("", 0))]);
      if c.viaTemp then s' else Overwrite(s', Data("", 0))
    case Write(_, n) => WithOpen(c, s, t, Data(NewBytes(f, pc)[..n], Open(c, s, t).durable))
    case Sync(_) => WithOpen(c, s, t, Data(Open(c, s, t).bytes, |Open(c, s, t).bytes|))
    case Rename(_) =>
      Return(s, t).(versions := (if c.viaTemp then s.versions else []) + [Version(Open(c, s, t), |s.saved| + 1)],
                    saved := s.saved + [(pc.name, pc.entry)], reported := s.reported + [(pc.name, pc.entry)])
  }

  /** A machine that lost power comes up with one of the versions, of which the bytes past upTo are gone. */
  function LosePower(s: State, version: nat, upTo: nat): State
    requires version < |s.versions| && upTo <= |s.versions[version].data.bytes|
  {
    var v := s.versions[version];
    State([Version(Data(v.data.bytes[..upTo], upTo), v.saves)], true, map[],
          if v.saves <= |s.saved| then s.saved[..v.saves] else s.saved, s.reported)
  }

  /** A file that does not parse makes the call fail here; in the code it is replaced by the defaults. */
  function ReadStep(f: Format, s: State, t: Tid, ok: bool): State
    requires t in s.calls
  {
    var pc, found := s.calls[t], f.parse(s.Target().bytes);
    if ok && found.Some? && pc.name in found.value then
      s.(calls := s.calls[t := Saving(pc.name, pc.entry, found.value)])
    else Return(s, t)
  }

  function Step(c: Config, f: Format, s: State, l: Label): State {
    if !Enabled(c, f, s, l) then s
    else match l
      case Call(t, name, entry) => s.(calls := s.calls[t := Calling(name, entry)])
      case Acquire(t) => s.(mutexFree := false, calls := s.calls[t := Reading(s.calls[t].name, s.calls[t].entry)])
      case Read(t, ok) => ReadStep(f, s, t, ok)
      case Create(_) => SaveStep(c, f, s, l)
      case Write(_, _) => SaveStep(c, f, s, l)
      case Sync(_) => SaveStep(c, f, s, l)
      case Rename(_) => SaveStep(c, f, s, l)
      case Fail(t) => if s.calls[t].Calling? then s.(calls := s.calls - {t}) else Return(s, t)
      case WriteBack => if |s.versions| == 0 then s else s.(versions := s.versions[|s.versions| - 1..])
      case Crash => s.(mutexFree := true, calls := map[])
      case PowerLoss(k, n) => LosePower(s, k, n)
  }

  function Updates(c: Config, f: Format): Machine<State, Label> {
    Machine((s, l) => Enabled(c, f, s, l), (s, l) => Step(c, f, s, l))
  }

  function Initial(f: Format, file: Blocks): State {
    State([Version(Data(f.marshal(file), |f.marshal(file)|), 0)], true, map[], [], [])
  }

  // ------------------------------------------------------------- the target is whole

  /** The bytes are some state, whole. */
  ghost predicate IsWhole(f: Format, bytes: string) {
    exists m :: bytes == f.marshal(m)
  }

  /** Every version is whole, and if power can be lost it is synced. */
  ghost predicate WholeInv(c: Config, f: Format, s: State) {
    && |s.versions| > 0
    && (forall v <- s.versions :: IsWhole(f, v.data.bytes) && (c.powerLoss ==> v.data.durable == |v.data.bytes|))
  }

  predicate SavesSafely(c: Config) {
    c.viaTemp && (c.sync || !c.powerLoss)
  }

  lemma StepKeepsWhole(c: Config, f: Format, s: State, l: Label)
    requires SavesSafely(c) && WholeInv(c, f, s) && Enabled(c, f, s, l)
    ensures WholeInv(c, f, Step(c, f, s, l))
  {
    if l.PowerLoss? {
      var v := s.versions[l.version];
      assert v in s.versions && v.data.bytes[..l.upTo] == v.data.bytes;
    }
  }

  // ------------------------------------------------------------- no update is lost

  /** At most one call is inside, the one the mutex is taken by, and what it has read is what was saved. */
  ghost predicate CallsInv(initial: Blocks, s: State) {
    && (forall t, u :: t in s.calls && u in s.calls && !s.calls[t].Calling? && !s.calls[u].Calling? ==> t == u)
    && (s.mutexFree ==> forall t :: t in s.calls ==> s.calls[t].Calling?)
    && (forall t :: t in s.calls && (s.calls[t].Saving? || s.calls[t].Writing?) ==>
          s.calls[t].read == Replay(initial, s.saved))
  }

  /** The target holds every saved update, and an older version the first so many. */
  ghost predicate ReplayInv(f: Format, initial: Blocks, s: State) {
    && |s.versions| > 0 && s.versions[|s.versions| - 1].saves == |s.saved|
    && (forall v <- s.versions :: Holds(f, initial, s.saved, v))
  }

  predicate Holds(f: Format, initial: Blocks, saved: seq<Update>, v: Version) {
    v.saves <= |saved| && v.data.bytes == f.marshal(Replay(initial, saved[..v.saves]))
  }

  ghost predicate Inv(c: Config, f: Format, initial: Blocks, s: State) {
    WholeInv(c, f, s) && CallsInv(initial, s) && ReplayInv(f, initial, s)
  }

  /** The target's bytes are the state after all saved updates. */
  predicate HoldsAllSaved(f: Format, initial: Blocks, s: State) {
    s.Target().bytes == f.marshal(Replay(initial, s.saved))
  }

  lemma LastHoldsAll(f: Format, initial: Blocks, s: State)
    requires ReplayInv(f, initial, s)
    ensures HoldsAllSaved(f, initial, s)
  {
    assert Holds(f, initial, s.saved, s.versions[|s.versions| - 1]);
    assert s.saved[..|s.saved|] == s.saved;
  }

  lemma RenameKeepsReplay(c: Config, f: Format, initial: Blocks, s: State, t: Tid)
    requires c.viaTemp && CallsInv(initial, s) && ReplayInv(f, initial, s) && Enabled(c, f, s, Rename(t))
    ensures ReplayInv(f, initial, Step(c, f, s, Rename(t)))
  {
    var s', pc := Step(c, f, s, Rename(t)), s.calls[t];
    assert s'.saved[..|s.saved|] == s.saved && s'.saved[..|s'.saved|] == s'.saved;
    assert Replay(initial, s'.saved) == pc.read[pc.name := pc.entry];
    forall v <- s.versions
      ensures Holds(f, initial, s'.saved, v)
    {
      assert s'.saved[..v.saves] == s.saved[..v.saves];
    }
  }

  lemma PowerLossKeepsReplay(c: Config, f: Format, initial: Blocks, s: State, k: nat, n: nat)
    requires WholeInv(c, f, s) && ReplayInv(f, initial, s) && Enabled(c, f, s, PowerLoss(k, n))
    ensures ReplayInv(f, initial, Step(c, f, s, PowerLoss(k, n)))
  {
    var v := s.versions[k];
    assert v in s.versions && v.data.bytes[..n] == v.data.bytes;
    assert s.saved[..v.saves][..v.saves] == s.saved[..v.saves];
  }

  lemma StepKeepsReplay(c: Config, f: Format, initial: Blocks, s: State, l: Label)
    requires SavesSafely(c) && Inv(c, f, initial, s) && Enabled(c, f, s, l)
    ensures ReplayInv(f, initial, Step(c, f, s, l))
  {
    if l.Rename? {
      RenameKeepsReplay(c, f, initial, s, l.t);
    } else if l.PowerLoss? {
      PowerLossKeepsReplay(c, f, initial, s, l.version, l.upTo);
    } else {
      assert Step(c, f, s, l).saved == s.saved;
    }
  }

  lemma StepKeepsCalls(c: Config, f: Format, initial: Blocks, s: State, l: Label)
    requires c.mutex && SavesSafely(c) && IsFormat(f) && Inv(c, f, initial, s) && Enabled(c, f, s, l)
    ensures CallsInv(initial, Step(c, f, s, l))
  {
    LastHoldsAll(f, initial, s);
  }

  // ------------------------------------------------------------- runs that break it

  /** A call that has read its state. */
  function ReadFirst(name: string, entry: Entry): seq<Label> {
    [Call(0, name, entry), Acquire(0), Read(0, true)]
  }

  lemma RunReadFirst(c: Config, f: Format, file: Blocks, name: string, entry: Entry)
    requires IsFormat(f) && name in file
    ensures Updates(c, f).IsRun(Initial(f, file), ReadFirst(name, entry))
    ensures Updates(c, f).After(Initial(f, file), ReadFirst(name, entry))
         == Initial(f, file).(mutexFree := false, calls := map[0 := Saving(name, entry, file)])
  {
    var m, ls, s0 := Updates(c, f), ReadFirst(name, entry), Initial(f, file);
    var s1 := Step(c, f, s0, ls[0]);
    var s2 := Step(c, f, s1, ls[1]);
    assert s2 == s0.(mutexFree := false, calls := map[0 := Reading(name, entry)]);
    var s3 := Step(c, f, s2, ls[2]);
    assert s3.calls == map[0 := Saving(name, entry, file)];
    m.From(s2, ls, 2);
    m.From(s1, ls, 1);
    m.From(s0, ls, 0);
    assert ls[0..] == ls && ls[3..] == [];
  }

  /** The target is truncated, and the process dies before the first byte is written. */
  function DieAfterTruncation(): seq<Label> {
    ReadFirst("Base", Block(7)) + [Create(0), Crash]
  }

  lemma WritingInPlaceTearsTheFile(c: Config, f: Format)
    requires IsFormat(f) && !c.viaTemp
    ensures var m, s0, ls := Updates(c, f), Initial(f, map["Base" := Block(1)]), DieAfterTruncation();
            m.IsRun(s0, ls) && m.After(s0, ls).Target().bytes == ""
  {
    var m, s0, file := Updates(c, f), Initial(f, map["Base" := Block(1)]), map["Base" := Block(1)];
    RunReadFirst(c, f, file, "Base", Block(7));
    var s1 := m.After(s0, ReadFirst("Base", Block(7)));
    var s2 := Step(c, f, s1, Create(0));
    var ls := [Create(0), Crash];
    m.From(s2, ls, 1);
    m.From(s1, ls, 0);
    assert ls[0..] == ls && ls[2..] == [];
    m.Concat(s0, ReadFirst("Base", Block(7)), ls);
  }

  function Fill(t: Tid, n: nat): seq<Label> {
    [Create(t), Write(t, n)]
  }

  /** A call whose temporary file has all its bytes. */
  function Filled(f: Format, pc: Pc): Pc
    requires pc.Saving?
  {
    Writing(pc.name, pc.entry, pc.read, Data(NewBytes(f, pc), 0))
  }

  lemma RunFill(c: Config, f: Format, s: State, t: Tid)
    requires c.viaTemp && t in s.calls && s.calls[t].Saving?
    ensures var m, ls := Updates(c, f), Fill(t, |NewBytes(f, s.calls[t])|);
            m.IsRun(s, ls) && m.After(s, ls) == s.(calls := s.calls[t := Filled(f, s.calls[t])])
  {
    var m, pc, bytes := Updates(c, f), s.calls[t], NewBytes(f, s.calls[t]);
    var ls := Fill(t, |bytes|);
    var s1 := s.(calls := s.calls[t := Writing(pc.name, pc.entry, pc.read, Data("", 0))]);
    assert bytes[..|bytes|] == bytes;
    assert Step(c, f, s1, ls[1]).calls == s.calls[t := Filled(f, pc)];
    m.From(s1, ls, 1);
    m.From(s, ls, 0);
    assert ls[0..] == ls && ls[2..] == [];
  }

  /** The state after t's save of these bytes. */
  function Renamed(s: State, t: Tid, pc: Pc, data: Data): State {
    Return(s, t).(versions := s.versions + [Version(data, |s.saved| + 1)], saved := s.saved + [(pc.name, pc.entry)],
                  reported := s.reported + [(pc.name, pc.entry)])
  }

  function SaveUnsynced(t: Tid, n: nat): seq<Label> {
    Fill(t, n) + [Rename(t)]
  }

  lemma RunSaveUnsynced(c: Config, f: Format, s: State, t: Tid)
    requires c.viaTemp && !c.sync && t in s.calls && s.calls[t].Saving?
    ensures var m, pc, bytes := Updates(c, f), s.calls[t], NewBytes(f, s.calls[t]);
            && m.IsRun(s, SaveUnsynced(t, |bytes|))
            && m.After(s, SaveUnsynced(t, |bytes|)) == Renamed(s, t, pc, Data(bytes, 0))
  {
    var m, pc, bytes := Updates(c, f), s.calls[t], NewBytes(f, s.calls[t]);
    RunFill(c, f, s, t);
    m.Snoc(s, Fill(t, |bytes|), Rename(t));
    assert s.calls[t := Filled(f, pc)] - {t} == s.calls - {t};
  }

  /** The save is done, and then power is lost before the bytes reach the disk, but not the new name. */
  function LosePowerAfterRename(n: nat): seq<Label> {
    ReadFirst("Base", Block(7)) + (SaveUnsynced(0, n) + [PowerLoss(1, 0)])
  }

  lemma WithoutSyncPowerLossTearsTheFile(c: Config, f: Format)
    requires IsFormat(f) && c.viaTemp && !c.sync && c.powerLoss
    ensures var m, s0 := Updates(c, f), Initial(f, map["Base" := Block(1)]);
            var ls := LosePowerAfterRename(|f.marshal(map["Base" := Block(7)])|);
            m.IsRun(s0, ls) && m.After(s0, ls).Target().bytes == ""
  {
    var m, s0, file := Updates(c, f), Initial(f, map["Base" := Block(1)]), map["Base" := Block(1)];
    var n := |f.marshal(map["Base" := Block(7)])|;
    RunReadFirst(c, f, file, "Base", Block(7));
    var s1 := m.After(s0, ReadFirst("Base", Block(7)));
    assert file["Base" := Block(7)] == map["Base" := Block(7)];
    RunSaveUnsynced(c, f, s1, 0);
    var s2 := m.After(s1, SaveUnsynced(0, n));
    m.Snoc(s1, SaveUnsynced(0, n), PowerLoss(1, 0));
    m.Concat(s0, ReadFirst("Base", Block(7)), SaveUnsynced(0, n) + [PowerLoss(1, 0)]);
  }

  /** A run in which two listeners both read before either saves. */
  function BothRead(): seq<Label> {
    [Call(0, "Base", Block(7)), Call(1, "Starknet", Block(9)), Acquire(0), Acquire(1)] + [Read(0, true), Read(1, true)]
  }

  function SaveAll(t: Tid, n: nat): seq<Label> {
    Fill(t, n) + [Sync(t)] + [Rename(t)]
  }

  lemma RunBothRead(c: Config, f: Format, file: Blocks)
    requires IsFormat(f) && !c.mutex && "Base" in file && "Starknet" in file
    ensures Updates(c, f).IsRun(Initial(f, file), BothRead())
    ensures Updates(c, f).After(Initial(f, file), BothRead())
         == Initial(f, file).(mutexFree := false,
                              calls := map[0 := Saving("Base", Block(7), file),
                                           1 := Saving("Starknet", Block(9), file)])
  {
    var m, ls, s0 := Updates(c, f), BothRead(), Initial(f, file);
    var s1 := Step(c, f, s0, ls[0]);
    var s2 := Step(c, f, s1, ls[1]);
    var s3 := Step(c, f, s2, ls[2]);
    var s4 := Step(c, f, s3, ls[3]);
    assert s4.calls == map[0 := Reading("Base", Block(7)), 1 := Reading("Starknet", Block(9))];
    var s5 := Step(c, f, s4, ls[4]);
    var s6 := Step(c, f, s5, ls[5]);
    assert s6.calls == map[0 := Saving("Base", Block(7), file), 1 := Saving("Starknet", Block(9), file)];
    m.From(s5, ls, 5);
    m.From(s4, ls, 4);
    m.From(s3, ls, 3);
    m.From(s2, ls, 2);
    m.From(s1, ls, 1);
    m.From(s0, ls, 0);
    assert ls[0..] == ls && ls[6..] == [];
  }

  /** A save that nobody interrupts. */
  lemma RunSaveAll(c: Config, f: Format, s: State, t: Tid)
    requires c.viaTemp && t in s.calls && s.calls[t].Saving?
    ensures var m, pc, bytes := Updates(c, f), s.calls[t], NewBytes(f, s.calls[t]);
            && m.IsRun(s, SaveAll(t, |bytes|))
            && m.After(s, SaveAll(t, |bytes|)) == Renamed(s, t, pc, Data(bytes, |bytes|))
  {
    var m, pc, bytes := Updates(c, f), s.calls[t], NewBytes(f, s.calls[t]);
    RunFill(c, f, s, t);
    var s1 := s.(calls := s.calls[t := Filled(f, pc)]);
    m.Snoc(s, Fill(t, |bytes|), Sync(t));
    var s2 := Step(c, f, s1, Sync(t));
    m.Snoc(s, Fill(t, |bytes|) + [Sync(t)], Rename(t));
    assert s2.calls - {t} == s.calls - {t};
  }

  function LoseAnUpdate(f: Format): seq<Label> {
    BothRead()
    + (SaveAll(0, |f.marshal(map["Base" := Block(7), "Starknet" := Block(1)])|)
       + SaveAll(1, |f.marshal(map["Base" := Block(1), "Starknet" := Block(9)])|))
  }

  lemma WithoutMutexAnUpdateIsLost(c: Config, f: Format)
    requires IsFormat(f) && !c.mutex && c.viaTemp
    ensures var m, file := Updates(c, f), map["Base" := Block(1), "Starknet" := Block(1)];
            && m.IsRun(Initial(f, file), LoseAnUpdate(f))
            && var s := m.After(Initial(f, file), LoseAnUpdate(f));
               !HoldsAllSaved(f, file, s) && s.saved == s.reported
  {
    var m, file := Updates(c, f), map["Base" := Block(1), "Starknet" := Block(1)];
    RunBothRead(c, f, file);
    var s0 := m.After(Initial(f, file), BothRead());
    RunSaveAll(c, f, s0, 0);
    assert file["Base" := Block(7)] == map["Base" := Block(7), "Starknet" := Block(1)];
    var first := SaveAll(0, |f.marshal(map["Base" := Block(7), "Starknet" := Block(1)])|);
    var s1 := m.After(s0, first);
    RunSaveAll(c, f, s1, 1);
    assert file["Starknet" := Block(9)] == map["Base" := Block(1), "Starknet" := Block(9)];
    var second := SaveAll(1, |f.marshal(map["Base" := Block(1), "Starknet" := Block(9)])|);
    var s2 := m.After(s1, second);
    m.Concat(s0, first, second);
    m.Concat(Initial(f, file), BothRead(), first + second);
    assert s2.saved == [("Base", Block(7)), ("Starknet", Block(9))];
    assert f.parse(s2.Target().bytes) == Some(map["Base" := Block(1), "Starknet" := Block(9)]);
    ReplayAt(file, s2.saved, "Base");
  }

  /** The save is done and reported, and then power is lost before the new name reaches the disk. */
  function LosePowerAfterSave(n: nat, before: nat): seq<Label> {
    ReadFirst("Base", Block(7)) + (SaveAll(0, n) + [PowerLoss(0, before)])
  }

  /** A synced and renamed update is undone: the call returned without an error, and the old bytes are back. */
  lemma PowerLossUndoesAnUpdate(c: Config, f: Format)
    requires IsFormat(f) && c.viaTemp && c.powerLoss
    ensures var m, file := Updates(c, f), map["Base" := Block(1)];
            var n := |f.marshal(map["Base" := Block(7)])|;
            var done := m.After(Initial(f, file), ReadFirst("Base", Block(7)) + SaveAll(0, n));
            var ls := LosePowerAfterSave(n, |f.marshal(file)|);
            var s := m.After(Initial(f, file), ls);
            && done.saved == done.reported == [("Base", Block(7))]
            && m.IsRun(Initial(f, file), ls) && s.saved == [] && s.reported == [("Base", Block(7))]
            && s.Target().bytes == f.marshal(file)
  {
    var m, file := Updates(c, f), map["Base" := Block(1)];
    var n, before, s0 := |f.marshal(map["Base" := Block(7)])|, |f.marshal(file)|, Initial(f, file);
    RunReadFirst(c, f, file, "Base", Block(7));
    var s1 := m.After(s0, ReadFirst("Base", Block(7)));
    assert file["Base" := Block(7)] == map["Base" := Block(7)];
    RunSaveAll(c, f, s1, 0);
    m.Concat(s0, ReadFirst("Base", Block(7)), SaveAll(0, n));
    assert f.marshal(file)[..before] == f.marshal(file);
    m.Snoc(s1, SaveAll(0, n), PowerLoss(0, before));
    m.Concat(s0, ReadFirst("Base", Block(7)), SaveAll(0, n) + [PowerLoss(0, before)]);
  }

  // ------------------------------------------------------------- the theorems

  /** Whatever step a crash falls on, the target is a whole state, if and only if the state goes through a
      temporary file that, where power can be lost, is synced before the rename. */
  lemma TargetIsWholeIff(c: Config, f: Format)
    requires IsFormat(f)
    ensures SavesSafely(c) <==> forall file, ls :: Updates(c, f).IsRun(Initial(f, file), ls) ==>
              IsWhole(f, Updates(c, f).After(Initial(f, file), ls).Target().bytes)
  {
    if SavesSafely(c) {
      forall file, ls | Updates(c, f).IsRun(Initial(f, file), ls)
        ensures IsWhole(f, Updates(c, f).After(Initial(f, file), ls).Target().bytes)
      {
        var inv := s => WholeInv(c, f, s);
        forall s, l | inv(s) && Updates(c, f).enabled(s, l)
          ensures inv(Updates(c, f).step(s, l))
        {
          StepKeepsWhole(c, f, s, l);
        }
        Updates(c, f).Always(inv, Initial(f, file), ls);
      }
    } else if !c.viaTemp {
      WritingInPlaceTearsTheFile(c, f);
      assert !IsWhole(f, "");
    } else {
      WithoutSyncPowerLossTearsTheFile(c, f);
      assert !IsWhole(f, "");
    }
  }

  lemma RunKeepsInv(c: Config, f: Format, file: Blocks, ls: seq<Label>)
    requires c.mutex && SavesSafely(c) && IsFormat(f) && Updates(c, f).IsRun(Initial(f, file), ls)
    ensures Inv(c, f, file, Updates(c, f).After(Initial(f, file), ls))
  {
    var inv := s => Inv(c, f, file, s);
    forall s, l | inv(s) && Updates(c, f).enabled(s, l)
      ensures inv(Updates(c, f).step(s, l))
    {
      StepKeepsWhole(c, f, s, l);
      StepKeepsReplay(c, f, file, s, l);
      StepKeepsCalls(c, f, file, s, l);
    }
    Updates(c, f).Always(inv, Initial(f, file), ls);
  }

  /** No lost update: in every interleaving of calls, failing steps, crashes and power losses the target is
      the initial state with exactly the saved updates applied in order, if and only if besides the mutex
      guards the calls. A power loss may undo the last renames; the updates it undoes are not among the
      saved ones. */
  lemma NoLostUpdateIff(c: Config, f: Format)
    requires IsFormat(f)
    ensures c.mutex && SavesSafely(c) <==> forall file, ls :: Updates(c, f).IsRun(Initial(f, file), ls) ==>
              HoldsAllSaved(f, file, Updates(c, f).After(Initial(f, file), ls))
  {
    if !SavesSafely(c) {
      if c.viaTemp {
        WithoutSyncPowerLossTearsTheFile(c, f);
      } else {
        WritingInPlaceTearsTheFile(c, f);
      }
      assert forall file, s :: HoldsAllSaved(f, file, s) ==> s.Target().bytes != "";
    } else if !c.mutex {
      WithoutMutexAnUpdateIsLost(c, f);
    } else {
      forall file, ls | Updates(c, f).IsRun(Initial(f, file), ls)
        ensures HoldsAllSaved(f, file, Updates(c, f).After(Initial(f, file), ls))
      {
        RunKeepsInv(c, f, file, ls);
        LastHoldsAll(f, file, Updates(c, f).After(Initial(f, file), ls));
      }
    }
  }

  /** The target's bytes are the state after all updates that were ever reported as saved. */
  predicate HoldsAllReported(f: Format, initial: Blocks, s: State) {
    s.Target().bytes == f.marshal(Replay(initial, s.reported))
  }

  lemma NothingUndone(c: Config, f: Format, file: Blocks, ls: seq<Label>)
    requires !c.powerLoss && Updates(c, f).IsRun(Initial(f, file), ls)
    ensures var s := Updates(c, f).After(Initial(f, file), ls); s.saved == s.reported
  {
    var inv := (s: State) => s.saved == s.reported;
    Updates(c, f).Always(inv, Initial(f, file), ls);
  }

  /** Whatever was once reported as saved stays in the file if and only if the mutex guards the calls, the state
      goes through a temporary file, and power is never lost: no sync of the temporary file makes up for that,
      as the directory is not synced. */
  lemma KeepsReportedIff(c: Config, f: Format)
    requires IsFormat(f)
    ensures c.mutex && c.viaTemp && !c.powerLoss <==> forall file, ls :: Updates(c, f).IsRun(Initial(f, file), ls) ==>
              HoldsAllReported(f, file, Updates(c, f).After(Initial(f, file), ls))
  {
    if !c.viaTemp {
      WritingInPlaceTearsTheFile(c, f);
      assert forall file, s :: HoldsAllReported(f, file, s) ==> s.Target().bytes != "";
    } else if c.powerLoss {
      PowerLossUndoesAnUpdate(c, f);
      UndoneIsNotHeld(c, f);
    } else if !c.mutex {
      WithoutMutexAnUpdateIsLost(c, f);
    } else {
      forall file, ls | Updates(c, f).IsRun(Initial(f, file), ls)
        ensures HoldsAllReported(f, file, Updates(c, f).After(Initial(f, file), ls))
      {
        RunKeepsInv(c, f, file, ls);
        LastHoldsAll(f, file, Updates(c, f).After(Initial(f, file), ls));
        NothingUndone(c, f, file, ls);
      }
    }
  }

  lemma UndoneIsNotHeld(c: Config, f: Format)
    requires IsFormat(f) && c.viaTemp && c.powerLoss
    ensures var m, file := Updates(c, f), map["Base" := Block(1)];
            var ls := LosePowerAfterSave(|f.marshal(map["Base" := Block(7)])|, |f.marshal(file)|);
            m.IsRun(Initial(f, file), ls) && !HoldsAllReported(f, file, m.After(Initial(f, file), ls))
  {
    var file := map["Base" := Block(1)];
    PowerLossUndoesAnUpdate(c, f);
    ReplayAt(file, [("Base", Block(7))], "Base");
    assert f.parse(f.marshal(file)) == Some(file);
  }

  /** The older versions hold fewer updates. */
  ghost predicate OldestFirst(s: State) {
    |s.versions| > 0 && forall v <- s.versions :: s.versions[0].saves <= v.saves <= |s.saved|
  }

  /** These updates are in the file and in every version that a power loss could bring back. */
  ghost predicate IsSafe(s: State, first: seq<Update>) {
    |s.versions| > 0 && first <= s.saved && forall v <- s.versions :: |first| <= v.saves <= |s.saved|
  }

  lemma StepKeepsOldestFirst(c: Config, f: Format, s: State, l: Label)
    requires c.viaTemp && OldestFirst(s) && Enabled(c, f, s, l)
    ensures OldestFirst(Step(c, f, s, l))
  {
  }

  lemma StepKeepsSafe(c: Config, f: Format, s: State, first: seq<Update>, l: Label)
    requires c.viaTemp && IsSafe(s, first) && Enabled(c, f, s, l)
    ensures IsSafe(Step(c, f, s, l), first)
  {
  }

  lemma RunKeepsSafe(c: Config, f: Format, s: State, first: seq<Update>, ls: seq<Label>)
    requires c.viaTemp && IsSafe(s, first) && Updates(c, f).IsRun(s, ls)
    ensures first <= Updates(c, f).After(s, ls).saved
  {
    var inv := s => IsSafe(s, first);
    forall s, l | inv(s) && Updates(c, f).enabled(s, l)
      ensures inv(Updates(c, f).step(s, l))
    {
      StepKeepsSafe(c, f, s, first, l);
    }
    Updates(c, f).Always(inv, s, ls);
  }

  lemma RunKeepsOldestFirst(c: Config, f: Format, file: Blocks, ls: seq<Label>)
    requires c.viaTemp && Updates(c, f).IsRun(Initial(f, file), ls)
    ensures OldestFirst(Updates(c, f).After(Initial(f, file), ls))
  {
    var inv := s => OldestFirst(s);
    forall s, l | inv(s) && Updates(c, f).enabled(s, l)
      ensures inv(Updates(c, f).step(s, l))
    {
      StepKeepsOldestFirst(c, f, s, l);
    }
    Updates(c, f).Always(inv, Initial(f, file), ls);
  }

  /** Where power can be lost, the first i saved updates survive whatever comes if and only if the oldest version
      that may still be on disk holds them. */
  lemma SurvivesIff(c: Config, f: Format, file: Blocks, ls: seq<Label>, i: nat)
    requires IsFormat(f) && c.mutex && SavesSafely(c) && c.powerLoss && Updates(c, f).IsRun(Initial(f, file), ls)
    requires i <= |Updates(c, f).After(Initial(f, file), ls).saved|
    ensures var m, s := Updates(c, f), Updates(c, f).After(Initial(f, file), ls);
            && |s.versions| > 0
            && (i <= s.versions[0].saves <==>
                  forall more :: m.IsRun(s, more) ==> s.saved[..i] <= m.After(s, more).saved)
  {
    var m, s := Updates(c, f), Updates(c, f).After(Initial(f, file), ls);
    RunKeepsInv(c, f, file, ls);
    RunKeepsOldestFirst(c, f, file, ls);
    if i <= s.versions[0].saves {
      forall more | m.IsRun(s, more)
        ensures s.saved[..i] <= m.After(s, more).saved
      {
        RunKeepsSafe(c, f, s, s.saved[..i], more);
      }
    } else {
      LosesTheRest(c, f, s, i);
    }
  }

  lemma LosesTheRest(c: Config, f: Format, s: State, i: nat)
    requires c.powerLoss && WholeInv(c, f, s) && OldestFirst(s) && s.versions[0].saves < i <= |s.saved|
    ensures var more := [PowerLoss(0, |s.versions[0].data.bytes|)];
            Updates(c, f).IsRun(s, more) && !(s.saved[..i] <= Updates(c, f).After(s, more).saved)
  {
    var l := PowerLoss(0, |s.versions[0].data.bytes|);
    assert s.versions[0] in s.versions;
    Updates(c, f).From(s, [l], 0);
    assert [l][0..] == [l] && [l][1..] == [];
  }

  /** The entry last saved for a network. */
  function LastSaved(saved: seq<Update>, name: string): Option<Entry> {
    if |saved| == 0 then None
    else if saved[|saved| - 1].0 == name then Some(saved[|saved| - 1].1)
    else LastSaved(saved[..|saved| - 1], name)
  }

  /** Read off the replay: a network's entry is the last one saved for it, and a network nothing was
      saved for keeps its entry. */
  lemma {:induction false} ReplayAt(initial: Blocks, saved: seq<Update>, name: string)
    ensures match LastSaved(saved, name)
            case Some(entry) => name in Replay(initial, saved) && Replay(initial, saved)[name] == entry
            case None => (name in Replay(initial, saved) <==> name in initial)
                         && (name in initial ==> Replay(initial, saved)[name] == initial[name])
  {
    if |saved| > 0 {
      ReplayAt(initial, saved[..|saved| - 1], name);
    }
  }
}
