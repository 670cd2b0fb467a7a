/** One call of UpdateLastIndexedBlock (config/solver_state.go) is a run of the steps by which the state file's
    runs describe it, in the configuration of the code. */
module StateFileRefinement {
  import opened StateFileRuns
  import SolverState

  /** The code takes the mutex, writes a temporary file and syncs it. */
  function CodeConfig(powerLoss: bool): Config {
    Config(true, true, true, powerLoss)
  }

  /** The steps of a save of n bytes that fails where it does; a failing write leaves the first part of them. */
  function SaveLabels(t: Tid, step: SolverState.SaveStep, n: nat, part: nat): seq<Label> {
    match step
    case NoStep => SaveAll(t, n)
    case MakeDir => [Fail(t)]
    case CreateTemp => [Fail(t)]
    case WriteTemp => StateFileRuns.Fill(t, part) + [Fail(t)]
    case SyncTemp => StateFileRuns.Fill(t, n) + [Fail(t)]
    case CloseTemp => StateFileRuns.Fill(t, n) + [Sync(t)] + [Fail(t)]
    case RenameTemp => StateFileRuns.Fill(t, n) + [Sync(t)] + [Fail(t)]
  }

  /** The call, up to what it holds after reading. */
  function StartLabels(t: Tid, name: string, entry: Entry, io: SolverState.Io): seq<Label> {
    [Call(t, name, entry), Acquire(t), Read(t, io.SomeReadSucceeds())]
  }

  function UpdateLabels(f: Format, t: Tid, name: string, entry: Entry, networks: Blocks, io: SolverState.Io, part: nat)
    : seq<Label>
  {
    StartLabels(t, name, entry, io)
    + if io.SomeReadSucceeds() && name in networks
      then SaveLabels(t, io.save, |f.marshal(networks[name := entry])|, part) else []
  }

  function Held(s: State, t: Tid, name: string, entry: Entry, networks: Blocks): State {
    s.(mutexFree := false, calls := s.calls[t := Saving(name, entry, networks)])
  }

  predicate IsIdle(f: Format, s: State, t: Tid, networks: Blocks) {
    s.mutexFree && t !in s.calls && s.Target().bytes == f.marshal(networks)
  }

  lemma RunStart(c: Config, f: Format, s: State, t: Tid, name: string, entry: Entry, networks: Blocks,
                 io: SolverState.Io)
    requires IsFormat(f) && IsIdle(f, s, t, networks)
    ensures var m, ls := Updates(c, f), StartLabels(t, name, entry, io);
            && m.IsRun(s, ls)
            && m.After(s, ls)
            == if io.SomeReadSucceeds() && name in networks then Held(s, t, name, entry, networks) else s
  {
    var m, ls := Updates(c, f), StartLabels(t, name, entry, io);
    var s1 := s.(calls := s.calls[t := Calling(name, entry)]);
    var s2 := s.(mutexFree := false, calls := s.calls[t := Reading(name, entry)]);
    assert Step(c, f, s1, ls[1]).calls == s2.calls;
    assert s2.Target() == s.Target();
    var s3 := Step(c, f, s2, ls[2]);
    if io.SomeReadSucceeds() && name in networks {
      assert s3.calls == Held(s, t, name, entry, networks).calls;
    } else {
      assert s3.calls == s.calls;
    }
    m.From(s2, ls, 2);
    m.From(s1, ls, 1);
    m.From(s, ls, 0);
    assert ls[0..] == ls && ls[3..] == [];
  }

  /** From a call with any file under way, a failure leaves the state before the call. */
  lemma RunFail(c: Config, f: Format, s: State, s1: State, t: Tid)
    requires s.mutexFree && t !in s.calls
    requires t in s1.calls && !s1.calls[t].Calling? && s1 == s.(mutexFree := false, calls := s1.calls)
    requires s1.calls - {t} == s.calls
    ensures Updates(c, f).IsRun(s1, [Fail(t)]) && Updates(c, f).After(s1, [Fail(t)]) == s
  {
    Updates(c, f).From(s1, [Fail(t)], 0);
    assert [Fail(t)][0..] == [Fail(t)] && [Fail(t)][1..] == [];
  }

  lemma RunPart(c: Config, f: Format, s: State, t: Tid, part: nat)
    requires c.viaTemp && t in s.calls && s.calls[t].Saving? && part <= |NewBytes(f, s.calls[t])|
    ensures var m, pc := Updates(c, f), s.calls[t];
            var temp := Data(NewBytes(f, pc)[..part], 0);
            && m.IsRun(s, StateFileRuns.Fill(t, part))
            && m.After(s, StateFileRuns.Fill(t, part))
            == s.(calls := s.calls[t := Writing(pc.name, pc.entry, pc.read, temp)])
  {
    var m, pc, ls := Updates(c, f), s.calls[t], StateFileRuns.Fill(t, part);
    var s1 := s.(calls := s.calls[t := Writing(pc.name, pc.entry, pc.read, Data("", 0))]);
    var temp := Data(NewBytes(f, pc)[..part], 0);
    assert Step(c, f, s1, ls[1]).calls == s.calls[t := Writing(pc.name, pc.entry, pc.read, temp)];
    m.From(s1, ls, 1);
    m.From(s, ls, 0);
    assert ls[0..] == ls && ls[2..] == [];
  }

  /** A save that fails at some step leaves the state before the call. */
  lemma RunFailingSave(c: Config, f: Format, s: State, t: Tid, name: string, entry: Entry, networks: Blocks,
                       step: SolverState.SaveStep, part: nat)
    requires c.viaTemp && s.mutexFree && t !in s.calls && !step.NoStep?
    requires part <= |f.marshal(networks[name := entry])|
    ensures var m, s1 := Updates(c, f), Held(s, t, name, entry, networks);
            var ls := SaveLabels(t, step, |f.marshal(networks[name := entry])|, part);
            m.IsRun(s1, ls) && m.After(s1, ls) == s
  {
    var m, s1, bytes := Updates(c, f), Held(s, t, name, entry, networks), f.marshal(networks[name := entry]);
    assert NewBytes(f, s1.calls[t]) == bytes;
    if step.MakeDir? || step.CreateTemp? {
      assert s1.calls - {t} == s.calls;
      RunFail(c, f, s, s1, t);
    } else {
      var upTo := if step.WriteTemp? then part else |bytes|;
      var ls := StateFileRuns.Fill(t, upTo);
      RunPart(c, f, s1, t, upTo);
      var s2 := m.After(s1, ls);
      assert s2.calls - {t} == s.calls;
      if step.WriteTemp? || step.SyncTemp? {
        RunFail(c, f, s, s2, t);
        m.Concat(s1, ls, [Fail(t)]);
      } else {
        var s3 := Step(c, f, s2, Sync(t));
        assert s3.calls - {t} == s.calls;
        m.Snoc(s1, ls, Sync(t));
        RunFail(c, f, s, s3, t);
        m.Concat(s1, ls + [Sync(t)], [Fail(t)]);
      }
    }
  }

  /** The state after a whole save. */
  function SavedOnce(f: Format, s: State, name: string, entry: Entry, networks: Blocks): State {
    var bytes := f.marshal(networks[name := entry]);
    s.(versions := s.versions + [Version(Data(bytes, |bytes|), |s.saved| + 1)], saved := s.saved + [(name, entry)],
       reported := s.reported + [(name, entry)])
  }

  lemma RunWholeSave(c: Config, f: Format, s: State, t: Tid, name: string, entry: Entry, networks: Blocks)
    requires c.viaTemp && s.mutexFree && t !in s.calls
    ensures var m, s1 := Updates(c, f), Held(s, t, name, entry, networks);
            var ls := SaveAll(t, |f.marshal(networks[name := entry])|);
            m.IsRun(s1, ls) && m.After(s1, ls) == SavedOnce(f, s, name, entry, networks)
  {
    var s1 := Held(s, t, name, entry, networks);
    RunSaveAll(c, f, s1, t);
    assert s1.calls - {t} == s.calls;
  }

  /** On a readable file one call that nobody interrupts, whichever reads fail and wherever its save does, is a run
      of the code's configuration. The update is saved and reported exactly if the call succeeds, and the target
      has the bytes of the file that UpdateLastIndexedBlock promises. */
  lemma UpdateIsARun(powerLoss: bool, f: Format, s: State, t: Tid, name: string, entry: Entry, networks: Blocks,
                     defaults: Blocks, io: SolverState.Io, part: nat)
    requires IsFormat(f) && IsIdle(f, s, t, networks) && part <= |f.marshal(networks[name := entry])|
    ensures var m, ls := Updates(CodeConfig(powerLoss), f), UpdateLabels(f, t, name, entry, networks, io, part);
            var file := SolverState.Valid(networks);
            && m.IsRun(s, ls)
            && m.After(s, ls)
            == (if SolverState.Updates(file, defaults, name, io) then SavedOnce(f, s, name, entry, networks) else s)
            && SolverState.AfterUpdate(file, defaults, name, entry, io).Valid?
            && m.After(s, ls).Target().bytes
            == f.marshal(SolverState.AfterUpdate(file, defaults, name, entry, io).networks)
  {
    var c := CodeConfig(powerLoss);
    var m, start := Updates(c, f), StartLabels(t, name, entry, io);
    RunStart(c, f, s, t, name, entry, networks, io);
    if io.SomeReadSucceeds() && name in networks {
      var s1, n := Held(s, t, name, entry, networks), |f.marshal(networks[name := entry])|;
      if io.save.NoStep? {
        RunWholeSave(c, f, s, t, name, entry, networks);
      } else {
        RunFailingSave(c, f, s, t, name, entry, networks, io.save, part);
      }
      m.Concat(s, start, SaveLabels(t, io.save, n, part));
    } else {
      assert start + [] == start;
    }
  }
}
