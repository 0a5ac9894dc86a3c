/** Deploy as the code runs it: a state object that is changed and saved between
    phases, and a loop that stops at the first failure (internal/deploy). */
module DeployRun {
  import opened Wrappers
  import opened PhaseNames
  import opened DeploySpec
  import opened DeploySafety
  import opened AtomicFile

  /** The checkpoint file with its temporary file, and everything observed so far. */
  class StateFile {
    var disk: Disk<Checkpoint>
    ghost var log: Log

    ghost predicate Valid()
      reads this
    {
      disk.target == match OnDisk(log) case None => None case Some(c) => Whole(Plain, c)
    }

    constructor ()
      ensures Valid() && log == []
    {
      disk := Disk(None, None);
      log := [];
    }

    ghost method Observe(e: Event)
      requires Valid() && !e.Saved?
      modifies this`log
      ensures Valid() && log == old(log) + [e]
    {
      Append(log, e);
      log := log + [e];
    }

    /** os.WriteFile and os.Rename. The outcome says whether the rename is reached; before
        it any operation may fail, or the process die. The ghost run records each moment. */
    method WriteAndRename(c: Checkpoint, o: SaveOutcome) returns (r: SaveResult, ghost run: seq<Moment<Checkpoint>>)
      modifies this`disk
      ensures IsRun(Plain, c, run) && run[0] == Moment(old(disk), Create) && run[|run| - 1].disk == disk
      ensures run[|run| - 1].pc.Replaced? <==> Lands(o)
      ensures r == ResultOf(o)
    {
      run := [Moment(disk, Create)];
      var strikes: bool := *;
      if !Lands(o) && strikes {
        r, run := GiveUp(c, o, run);
        return;
      }
      disk := disk.(temp := Some(Copy(c, false, false)));
      run := Extend(Plain, c, run, Moment(disk, Write));
      strikes := *;
      if !Lands(o) && strikes {
        r, run := GiveUp(c, o, run);
        return;
      }
      disk := disk.(temp := Some(Copy(c, true, false)));
      run := Extend(Plain, c, run, Moment(disk, CloseTemp));
      strikes := *;
      if !Lands(o) && strikes {
        r, run := GiveUp(c, o, run);
        return;
      }
      run := Extend(Plain, c, run, Moment(disk, Rename));
      if !Lands(o) {
        r, run := GiveUp(c, o, run);
        return;
      }
      disk := Disk(disk.temp, None);
      run := Extend(Plain, c, run, Moment(disk, Replaced));
      r := ResultOf(o);
    }

    method GiveUp(c: Checkpoint, o: SaveOutcome, ghost before: seq<Moment<Checkpoint>>)
      returns (r: SaveResult, ghost run: seq<Moment<Checkpoint>>)
      requires !Lands(o) && IsRun(Plain, c, before) && AtomicFile.Running(before[|before| - 1].pc)
      ensures IsRun(Plain, c, run) && run[0] == before[0] && run[|run| - 1].disk == before[|before| - 1].disk
      ensures !run[|run| - 1].pc.Replaced? && r == ResultOf(o)
    {
      run := before;
      if o.NotCommitted? {
        run := Extend(Plain, c, run, Moment(run[|run| - 1].disk, Abandoned));
      }
      r := ResultOf(o);
    }
  }

  datatype SaveResult = SaveOk | SaveFailed | SaveDied

  function ResultOf(o: SaveOutcome): SaveResult {
    if Dies(o) then SaveDied else if o.Committed? then SaveOk else SaveFailed
  }

  class State {
    var status: Status
    var completedPhases: seq<Key>
    var lastError: string

    function View(): Checkpoint
      reads this
    {
      Checkpoint(status, completedPhases, lastError)
    }

    constructor Load(file: StateFile)
      requires file.Valid()
      ensures View() == Loaded(file.log)
    {
      match file.disk.target {
        case None =>
          status, completedPhases, lastError := Unset, [], "";
        case Some(c) =>
          status, completedPhases, lastError := c.value.status, c.value.completed, c.value.lastError;
      }
    }

    method HasCompleted(key: Key) returns (found: bool)
      ensures found <==> key in completedPhases
    {
      for i := 0 to |completedPhases|
        invariant key !in completedPhases[..i]
      {
        if completedPhases[i] == key {
          return true;
        }
      }
      found := false;
    }

    /** Whatever operation fails, and wherever the process dies, the file holds the old
        checkpoint or the new one. */
    method Save(file: StateFile, o: SaveOutcome) returns (r: SaveResult)
      requires file.Valid()
      modifies file
      ensures file.Valid() && file.log == AfterSave(old(file.log), View(), o)
      ensures r == ResultOf(o)
    {
      ghost var run;
      r, run := file.WriteAndRename(View(), o);
      OldOrWholeNew(Plain, View(), run, |run| - 1);
      if Lands(o) {
        Append(file.log, Saved(View()));
        file.log := file.log + [Saved(View())];
      }
    }

    method MarkCompleted(file: StateFile, key: Key, o: SaveOutcome) returns (r: SaveResult)
      requires file.Valid()
      modifies this, file
      ensures View() == Marked(old(View()), key)
      ensures file.Valid() && file.log == AfterSave(old(file.log), View(), o)
      ensures r == ResultOf(o)
    {
      var done := HasCompleted(key);
      if !done {
        completedPhases := completedPhases + [key];
      }
      status, lastError := Running, "";
      r := Save(file, o);
    }
  }

  /** The only two phases with one key are the two that create VMs, numbers 0 and 3. */
  method BuildPhaseList(skipVMCreate: bool) returns (list: seq<string>)
    ensures list == PhaseNamesOf(skipVMCreate)
    ensures forall i, j | 0 <= i < j < |list| ::
              PhaseKey(list[i]) == PhaseKey(list[j]) <==> !skipVMCreate && i == 0 && j == 3
  {
    list := [];
    if !skipVMCreate {
      list := list + ["00-init-vms"];
    }
    list := list + ["01-setup-cobbler", "02-register-nodes"];
    if !skipVMCreate {
      list := list + ["00-init-vms"];
    }
    list := list + ["03-repair-ssh", "04-setup-puppet", "DRBD Setup", "Backup Store Setup", "Kubernetes Setup",
                    "NGINX & WordPress Setup", "Monitoring Setup", "UFW Setup", "Internal CA Setup"];
    forall i, j | 0 <= i < j < |list|
      ensures PhaseKey(list[i]) == PhaseKey(list[j]) <==> !skipVMCreate && i == 0 && j == 3
    {
      PhaseListRepeats(skipVMCreate, i, j);
    }
  }

  method KeysBefore(names: seq<string>, i: nat) returns (skip: set<Key>)
    requires i <= |names|
    ensures skip == set k | k in Keys(names)[..i]
  {
    skip := {};
    ghost var keys := Keys(names);
    for j := 0 to i
      invariant skip == set k | k in keys[..j]
    {
      assert keys[..j + 1] == keys[..j] + [keys[j]];
      skip := skip + {PhaseKey(names[j])};
    }
  }

  method PlanRun(names: seq<string>, opts: Opts, completed: seq<Key>) returns (r: Result<(set<Key>, bool), string>)
    ensures r == Plan(Keys(names), opts, completed)
  {
    var skip: set<Key> := {};
    if opts.resume && opts.fromPhase != "" {
      return Err("--resume and --from-phase are mutually exclusive");
    }
    if opts.resume {
      for i := 0 to |completed|
        invariant skip == set k | k in completed[..i]
      {
        assert completed[..i + 1] == completed[..i] + [completed[i]];
        skip := skip + {completed[i]};
      }
      assert completed[..|completed|] == completed;
      return Ok((skip, false));
    }
    if opts.fromPhase == "" {
      return Ok((skip, true));
    }
    var want := PhaseKey(opts.fromPhase);
    if want == "" {
      return Err("--from-phase requires a phase name");
    }
    ghost var keys := Keys(names);
    for i := 0 to |names|
      invariant want !in keys[..i]
    {
      if PhaseKey(names[i]) == want {
        FirstIndex(keys, want, i);
        skip := KeysBefore(names, i);
        return Ok((skip, false));
      }
      assert keys[..i + 1] == keys[..i] + [keys[i]];
    }
    assert keys[..|keys|] == keys;
    r := Err("unknown phase");
  }

  method Deploy(names: seq<string>, opts: Opts, env: Env, file: StateFile) returns (exit: Exit)
    requires file.Valid()
    modifies file
    ensures file.Valid()
    ensures (file.log, exit) == Run(names, opts, env, old(file.log))
  {
    if opts.dryRun {
      var plan := PlanRun(names, opts, []);
      return if plan.Ok? then Finished else Stopped;
    }
    if env.loadFails || env.preflightFails {
      return Stopped;
    }
    var state := new State.Load(file);
    var plan := PlanRun(names, opts, state.completedPhases);
    if plan.Err? {
      return Stopped;
    }
    var (skip, reset) := plan.value;
    if reset {
      state.completedPhases, state.status, state.lastError := [], Running, "";
      if Lands(env.first) {
        file.Observe(Reset);
      }
    }
    var saved := state.Save(file, env.first);
    if saved != SaveOk {
      return if saved == SaveDied then Died else Stopped;
    }
    exit := RunPhases(names, skip, env, state, file);
  }

  method RunPhases(names: seq<string>, skip: set<Key>, env: Env, state: State, file: StateFile) returns (exit: Exit)
    requires file.Valid()
    modifies state, file
    ensures file.Valid()
    ensures (file.log, exit) == RunFrom(Keys(names), skip, env, 0, old(state.View()), old(file.log))
  {
    ghost var keys := Keys(names);
    ghost var whole := RunFrom(keys, skip, env, 0, state.View(), file.log);
    for i := 0 to |names|
      invariant file.Valid()
      invariant RunFrom(keys, skip, env, i, state.View(), file.log) == whole
    {
      var key := PhaseKey(names[i]);
      if key in skip {
        continue;
      }
      file.Observe(Started(i));
      var e := env.phases(i);
      match e.run {
        case PhaseCrash =>
          return Died;
        case PhaseError(message) =>
          state.status, state.lastError := Failed, message;
          var saved := state.Save(file, e.failSave);
          return if saved == SaveDied then Died else Stopped;
        case PhaseOk =>
          file.Observe(Succeeded(i));
          var marked := state.MarkCompleted(file, key, e.mark);
          if marked == SaveDied {
            return Died;
          }
          if env.stagger && i < |names| - 1 && e.wait != Elapsed {
            return if e.wait == WaitCrash then Died else Stopped;
          }
      }
    }
    state.status, state.lastError := Completed, "";
    var last := state.Save(file, env.last);
    exit := if last == SaveDied then Died else Finished;
  }
}
