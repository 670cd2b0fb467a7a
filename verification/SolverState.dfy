/** The persisted solver state (config/solver_state.go): one file with the last indexed block of
    every network, read and replaced whole under one process-wide mutex. */
module SolverState {
  import opened Integers
  import opened Wrappers

  datatype NetworkState = NetworkState(lastIndexedBlock: uint64, lastUpdated: string)

  type Networks = map<string, NetworkState>

  /** What is on disk. */
  datatype File = Absent | Empty | Corrupt | Valid(networks: Networks)

  /** At which step a save fails. */
  datatype SaveStep = NoStep | MakeDir | CreateTemp | WriteTemp | SyncTemp | CloseTemp | RenameTemp

  /** The temporary file of the save under way. */
  datatype Temp = Begun | Written(networks: Networks, synced: bool)

  /** What the operating system lets happen during one call: which reads fail, and at which step the save
      of the defaults and the save of the update do. */
  datatype Io = Io(readFails: (bool, bool, bool), defaultSave: SaveStep, save: SaveStep) {
    predicate SomeReadSucceeds() {
      !readFails.0 || !readFails.1 || !readFails.2
    }
  }

  /** resolveSolverStartBlock: a negative start block is written as 0. */
  function ResolveSolverStartBlock(solverStartBlock: int64): uint64 {
    if solverStartBlock >= 0 then solverStartBlock else 0
  }

  /** getDefaultSolverState, from the start blocks configured for the networks. */
  function DefaultSolverState(starts: map<string, int64>): Networks {
    map name | name in starts :: NetworkState(ResolveSolverStartBlock(starts[name]), "")
  }

  /** What a read returns: a file that is absent, empty or still does not parse at the third attempt counts
      as the defaults, if they can be saved. */
  function ReadResult(file: File, defaults: Networks, io: Io): Option<Networks> {
    var fallback := if io.defaultSave.NoStep? then Some(defaults) else None;
    match file
    case Absent => fallback
    case Empty => if io.SomeReadSucceeds() then fallback else None
    case Corrupt => if io.readFails.2 then None else fallback
    case Valid(networks) => if io.SomeReadSucceeds() then Some(networks) else None
  }

  /** What a read returns, kind by kind. */
  lemma ReadResultIs(file: File, defaults: Networks, io: Io)
    ensures ReadResult(file, defaults, io).Some? ==>
              ReadResult(file, defaults, io).value == if file.Valid? then file.networks else defaults
    ensures file.Valid? ==> (ReadResult(file, defaults, io).Some? <==> io.SomeReadSucceeds())
    ensures file.Absent? ==> (ReadResult(file, defaults, io).Some? <==> io.defaultSave.NoStep?)
    ensures file.Empty? ==> (ReadResult(file, defaults, io).Some? <==> io.SomeReadSucceeds() && io.defaultSave.NoStep?)
    ensures file.Corrupt? ==> (ReadResult(file, defaults, io).Some? <==> !io.readFails.2 && io.defaultSave.NoStep?)
  {
  }

  lemma SomeReadSucceedsIff(io: Io)
    ensures !io.SomeReadSucceeds() <==> io.readFails == (true, true, true)
  {
  }

  /** A configured start block is written as it is if it is not negative, and as 0 otherwise. */
  lemma DefaultsAre(starts: map<string, int64>, name: string)
    ensures DefaultSolverState(starts).Keys == starts.Keys
    ensures name in starts ==>
              var entry := DefaultSolverState(starts)[name];
              && entry.lastUpdated == ""
              && (starts[name] < 0 ==> entry.lastIndexedBlock == 0)
              && (starts[name] >= 0 ==> entry.lastIndexedBlock == starts[name])
  {
  }

  /** The file after that read. */
  function AfterRead(file: File, defaults: Networks, io: Io): File {
    if file.Valid? || ReadResult(file, defaults, io).None? then file else Valid(defaults)
  }

  predicate Updates(file: File, defaults: Networks, name: string, io: Io) {
    var state := ReadResult(file, defaults, io);
    state.Some? && name in state.value && io.save.NoStep?
  }

  /** The file after an update: the named network has the new block and every other network its own. */
  function AfterUpdate(file: File, defaults: Networks, name: string, network: NetworkState, io: Io): File {
    if Updates(file, defaults, name, io) then Valid(ReadResult(file, defaults, io).value[name := network])
    else AfterRead(file, defaults, io)
  }

  class SolverStateFile {
    const defaults: Networks
    var file: File
    var temp: Option<Temp>

    constructor (starts: map<string, int64>, file: File)
      ensures defaults == DefaultSolverState(starts) && this.file == file && temp == None
    {
      defaults, this.file, temp := DefaultSolverState(starts), file, None;
    }

    /** The target is touched by the last step only, and at whichever step the save fails, the target is the
        old one and the temporary file is gone. */
    method SaveSolverStateLocked(state: Networks, fails: SaveStep) returns (ok: bool)
      modifies this`file, this`temp
      ensures ok == fails.NoStep? && file == if ok then Valid(state) else old(file)
      ensures old(temp) == None ==> temp == None
    {
      if fails.MakeDir? || fails.CreateTemp? {
        return false;
      }
      temp := Some(Begun);
      ok := WriteAndRename(state, fails);
      temp := None;
    }

    /** From the open temporary file to the rename: only a synced file is ever renamed over the target. */
    method WriteAndRename(state: Networks, fails: SaveStep) returns (ok: bool)
      requires temp == Some(Begun) && !fails.MakeDir? && !fails.CreateTemp?
      modifies this`file, this`temp
      ensures ok == fails.NoStep?
      ensures if ok then temp == None && file == Valid(state) else temp.Some? && file == old(file)
      ensures fails.CloseTemp? || fails.RenameTemp? ==> temp == Some(Written(state, true))
    {
      if fails.WriteTemp? {
        return false;
      }
      temp := Some(Written(state, false));
      if fails.SyncTemp? {
        return false;
      }
      temp := Some(Written(state, true));
      if fails.CloseTemp? || fails.RenameTemp? {
        return false;
      }
      file, temp := Valid(temp.value.networks), None;
      ok := true;
    }

    /** Three attempts; an absent or empty file, or one that does not parse the third time, is
        replaced by the defaults. */
    method ReadSolverStateLocked(io: Io) returns (state: Option<Networks>)
      modifies this`file, this`temp
      ensures state == ReadResult(old(file), defaults, io) && file == AfterRead(old(file), defaults, io)
      ensures old(temp) == None ==> temp == None
    {
      if file.Absent? {
        var saved := SaveSolverStateLocked(defaults, io.defaultSave);
        return if saved then Some(defaults) else None;
      }
      var i := 0;
      while i < 3
        invariant 0 <= i <= 3 && file == old(file) && temp == old(temp) && !file.Absent?
        invariant !file.Corrupt? && i > 0 ==> io.readFails.0
        invariant !file.Corrupt? && i > 1 ==> io.readFails.1
        invariant !file.Corrupt? && i > 2 ==> io.readFails.2
        invariant file.Corrupt? && i > 2 ==> io.readFails.2
      {
        var failed := if i == 0 then io.readFails.0 else if i == 1 then io.readFails.1 else io.readFails.2;
        if !failed {
          if file.Empty? {
            var saved := SaveSolverStateLocked(defaults, io.defaultSave);
            return if saved then Some(defaults) else None;
          }
          if file.Corrupt? {
            if i == 2 {
              var saved := SaveSolverStateLocked(defaults, io.defaultSave);
              return if saved then Some(defaults) else None;
            }
          } else {
            return Some(file.networks);
          }
        }
        i := i + 1;
      }
      state := None;
    }

    /** UpdateLastIndexedBlock. On a readable file the named network gets the new block and every
        other network keeps its own; a call that fails leaves the old file, or the defaults where there
        was no readable one. */
    method UpdateLastIndexedBlock(networkName: string, newBlockNumber: uint64, now: string, io: Io) returns (ok: bool)
      modifies this`file, this`temp
      ensures ok == Updates(old(file), defaults, networkName, io)
      ensures file == AfterUpdate(old(file), defaults, networkName, NetworkState(newBlockNumber, now), io)
      ensures old(temp) == None ==> temp == None
    {
      var state := ReadSolverStateLocked(io);
      if state.None? {
        return false;
      }
      var networks := state.value;
      if networkName !in networks {
        return false;
      }
      networks := networks[networkName := NetworkState(newBlockNumber, now)];
      ok := SaveSolverStateLocked(networks, io.save);
    }
  }

  /** An update keeps every other network's block, changes the named one exactly when it succeeds, and never
      turns a readable file into an unreadable one. */
  lemma UpdateMeans(file: File, defaults: Networks, name: string, network: NetworkState, io: Io)
    ensures var after, ok := AfterUpdate(file, defaults, name, network, io), Updates(file, defaults, name, io);
            && (file.Valid? ==>
                  && after.Valid? && after.networks.Keys == file.networks.Keys
                  && (ok <==> io.SomeReadSucceeds() && name in file.networks && io.save.NoStep?)
                  && (ok ==> after.networks[name] == network)
                  && forall other :: other in file.networks && (other != name || !ok) ==>
                       after.networks[other] == file.networks[other])
            && (!file.Valid? ==>
                  && (ok <==> ReadResult(file, defaults, io).Some? && name in defaults && io.save.NoStep?)
                  && after == if ok then Valid(defaults[name := network])
                              else if ReadResult(file, defaults, io).Some? then Valid(defaults) else file)
  {
  }
}
