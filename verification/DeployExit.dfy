/** How a deployment ends: what its exit says about the phases, and what it leaves in the
    checkpoint (internal/deploy/orchestrator.go, internal/deploy/state.go). */
module DeployExit {
  import opened Wrappers
  import opened PhaseNames
  import opened DeploySpec
  import opened DeploySafety

  /* ---- What the outcomes of the phases decide ---- */

  /** The stagger delay applies after every phase but the last of the list. */
  predicate Waits(n: nat, env: Env, i: nat) {
    env.stagger && i + 1 < n
  }

  /** The run goes on after phase i. A checkpoint that is not saved does not stop it. */
  predicate GoesOn(n: nat, env: Env, i: nat) {
    var e := env.phases(i);
    e.run.PhaseOk? && !Dies(e.mark) && (Waits(n, env, i) ==> e.wait.Elapsed?)
  }

  /** The process dies in phase i, or while it saves or waits afterwards. */
  predicate DiesIn(n: nat, env: Env, i: nat) {
    var e := env.phases(i);
    match e.run
    case PhaseCrash => true
    case PhaseError(_) => Dies(e.failSave)
    case PhaseOk => Dies(e.mark) || (Waits(n, env, i) && e.wait.WaitCrash?)
  }

  /** All phases from i on that are not skipped go on. */
  predicate AllGoOn(keys: seq<Key>, skip: set<Key>, env: Env, i: nat, end: nat)
    requires end <= |keys|
  {
    forall j | i <= j < end :: keys[j] in skip || GoesOn(|keys|, env, j)
  }

  /** Phase j is the first that is not skipped and does not go on. */
  predicate StopsIn(keys: seq<Key>, skip: set<Key>, env: Env, i: nat, j: nat) {
    && i <= j < |keys| && keys[j] !in skip && !GoesOn(|keys|, env, j) && AllGoOn(keys, skip, env, i, j)
  }

  lemma {:induction false} FirstStop(keys: seq<Key>, skip: set<Key>, env: Env, i: nat) returns (j: nat)
    requires i <= |keys| && !AllGoOn(keys, skip, env, i, |keys|)
    ensures StopsIn(keys, skip, env, i, j)
    decreases |keys| - i
  {
    if keys[i] !in skip && !GoesOn(|keys|, env, i) {
      j := i;
    } else {
      j := FirstStop(keys, skip, env, i + 1);
    }
  }

  /** The loop finishes when all phases go on and the last save does not kill it. */
  lemma {:induction false} LoopFinishes(keys: seq<Key>, skip: set<Key>, env: Env, i: nat, c: Checkpoint, log: Log)
    requires i <= |keys| && AllGoOn(keys, skip, env, i, |keys|)
    ensures RunFrom(keys, skip, env, i, c, log).1 == if Dies(env.last) then Died else Finished
    decreases |keys| - i
  {
    if i < |keys| {
      if keys[i] in skip {
        LoopFinishes(keys, skip, env, i + 1, c, log);
      } else {
        assert GoesOn(|keys|, env, i);
        var c' := Marked(c, keys[i]);
        var marked := AfterSave(log + [Started(i)] + [Succeeded(i)], c', env.phases(i).mark);
        LoopFinishes(keys, skip, env, i + 1, c', marked);
      }
    }
  }

  /** Otherwise the first phase that does not go on decides. */
  lemma {:induction false} LoopStops(keys: seq<Key>, skip: set<Key>, env: Env, i: nat, c: Checkpoint, log: Log, j: nat)
    requires StopsIn(keys, skip, env, i, j)
    ensures RunFrom(keys, skip, env, i, c, log).1 == if DiesIn(|keys|, env, j) then Died else Stopped
    decreases |keys| - i
  {
    if keys[i] in skip {
      LoopStops(keys, skip, env, i + 1, c, log, j);
    } else if i < j {
      assert GoesOn(|keys|, env, i);
      var c' := Marked(c, keys[i]);
      var marked := AfterSave(log + [Started(i)] + [Succeeded(i)], c', env.phases(i).mark);
      LoopStops(keys, skip, env, i + 1, c', marked, j);
    }
  }

  /** The loop returns success exactly when every phase that is not skipped succeeds, no
      wait is cancelled and nothing kills the process. */
  lemma LoopFinishesWhen(keys: seq<Key>, skip: set<Key>, env: Env, c: Checkpoint, log: Log)
    ensures RunFrom(keys, skip, env, 0, c, log).1 == Finished
            <==> AllGoOn(keys, skip, env, 0, |keys|) && !Dies(env.last)
  {
    if AllGoOn(keys, skip, env, 0, |keys|) {
      LoopFinishes(keys, skip, env, 0, c, log);
    } else {
      var j := FirstStop(keys, skip, env, 0);
      LoopStops(keys, skip, env, 0, c, log, j);
    }
  }

  /* ---- Which phases are skipped ---- */

  /** --resume and --from-phase exclude each other, and --from-phase must name a phase. */
  predicate OptionsFit(names: seq<string>, opts: Opts) {
    && !(opts.resume && opts.fromPhase != "")
    && (opts.fromPhase != "" ==>
          PhaseKey(opts.fromPhase) != "" && exists i | 0 <= i < |names| :: PhaseKey(names[i]) == PhaseKey(opts.fromPhase))
  }

  /** Whether the options make the run skip phase i: its key is recorded, or occurs before
      the first phase of that name. */
  predicate Skips(names: seq<string>, opts: Opts, completed: seq<Key>, i: nat)
    requires i < |names|
  {
    if opts.resume then PhaseKey(names[i]) in completed
    else opts.fromPhase != "" && exists j | 0 <= j < |names| ::
           PhaseKey(names[j]) == PhaseKey(names[i]) && forall k | 0 <= k <= j :: PhaseKey(names[k]) != PhaseKey(opts.fromPhase)
  }

  lemma PlanWhen(names: seq<string>, opts: Opts, completed: seq<Key>)
    ensures Plan(Keys(names), opts, completed).Ok? <==> OptionsFit(names, opts)
    ensures Plan(Keys(names), opts, completed).Ok? ==>
              var (skip, reset) := Plan(Keys(names), opts, completed).value;
              && (reset <==> !opts.resume && opts.fromPhase == "")
              && forall i :: 0 <= i < |names| ==> (PhaseKey(names[i]) in skip <==> Skips(names, opts, completed, i))
  {
    var keys, want := Keys(names), PhaseKey(opts.fromPhase);
    if !opts.resume && opts.fromPhase != "" {
      assert (exists i :: 0 <= i < |names| && PhaseKey(names[i]) == want) <==> want in keys by {
        if i :| 0 <= i < |names| && PhaseKey(names[i]) == want {
          assert keys[i] == want;
        }
      }
      if want != "" && want in keys {
        var first := IndexOf(keys, want).value;
        forall i | 0 <= i < |names| ensures PhaseKey(names[i]) in keys[..first] <==> Skips(names, opts, completed, i) {
          SkippedBefore(names, opts, completed, first, i);
        }
      }
    }
  }

  lemma SkippedBefore(names: seq<string>, opts: Opts, completed: seq<Key>, first: nat, i: nat)
    requires first < |names| && i < |names| && !opts.resume && opts.fromPhase != ""
    requires PhaseKey(names[first]) == PhaseKey(opts.fromPhase) && PhaseKey(opts.fromPhase) !in Keys(names)[..first]
    ensures PhaseKey(names[i]) in Keys(names)[..first] <==> Skips(names, opts, completed, i)
  {
    var keys, want := Keys(names), PhaseKey(opts.fromPhase);
    if PhaseKey(names[i]) in keys[..first] {
      var j :| 0 <= j < first && keys[..first][j] == PhaseKey(names[i]);
      forall k | 0 <= k <= j ensures PhaseKey(names[k]) != want {
        assert keys[..first][k] == PhaseKey(names[k]);
      }
      assert PhaseKey(names[j]) == PhaseKey(names[i]);
    }
    if Skips(names, opts, completed, i) {
      var j :| 0 <= j < |names| && PhaseKey(names[j]) == PhaseKey(names[i])
               && forall k | 0 <= k <= j :: PhaseKey(names[k]) != want;
      assert j < first;
      assert keys[..first][j] == PhaseKey(names[i]);
    }
  }

  /* ---- The exit of a run ---- */

  /** Every phase that the options do not skip goes on, and the last save does not kill it. */
  ghost predicate RunsThrough(names: seq<string>, opts: Opts, env: Env, completed: seq<Key>) {
    && (forall i :: 0 <= i < |names| ==> Skips(names, opts, completed, i) || GoesOn(|names|, env, i))
    && !Dies(env.last)
  }

  /** A run that is not dry reports success exactly when the checkpoint can be read, the
      host passes its checks, the options fit, the first save is committed and the phases
      run through. A dry run reports only whether its options fit, and does nothing. */
  lemma RunFinishesWhen(names: seq<string>, opts: Opts, env: Env, log: Log)
    ensures var (after, exit) := Run(names, opts, env, log);
            if opts.dryRun then after == log && exit == (if OptionsFit(names, opts) then Finished else Stopped)
            else exit == Finished <==>
                   && !env.loadFails && !env.preflightFails && OptionsFit(names, opts) && env.first.Committed?
                   && RunsThrough(names, opts, env, Loaded(log).completed)
  {
    PlanWhen(names, opts, []);
    PlanWhen(names, opts, Loaded(log).completed);
    if !opts.dryRun && !env.loadFails && !env.preflightFails && OptionsFit(names, opts) && env.first.Committed? {
      RunIsLoop(names, opts, env, log);
      var start := LoopStart(names, opts, env, log);
      LoopFinishesWhen(Keys(names), start.0, env, start.1, start.2);
    }
  }

  /** Where the loop of a run begins: what it skips, its checkpoint and the log. */
  function LoopStart(names: seq<string>, opts: Opts, env: Env, log: Log): (set<Key>, Checkpoint, Log)
    requires Plan(Keys(names), opts, Loaded(log).completed).Ok?
  {
    var (skip, reset) := Plan(Keys(names), opts, Loaded(log).completed).value;
    var c := if reset then BEGIN else Loaded(log);
    (skip, c, AfterSave(if reset then log + [Reset] else log, c, Committed))
  }

  lemma RunIsLoop(names: seq<string>, opts: Opts, env: Env, log: Log)
    requires !opts.dryRun && !env.loadFails && !env.preflightFails && env.first.Committed?
    requires Plan(Keys(names), opts, Loaded(log).completed).Ok?
    ensures var start := LoopStart(names, opts, env, log);
            Run(names, opts, env, log) == RunFrom(Keys(names), start.0, env, 0, start.1, start.2)
  {
  }

  /* ---- What a finished run has done ---- */

  /** From position m on, every phase that was started succeeded. */
  ghost predicate AllSucceed(log: Log, m: nat) {
    forall p :: m <= p < |log| && log[p].Started? ==> p + 1 < |log| && log[p + 1] == Succeeded(log[p].phase)
  }

  lemma AllSucceedNext(log: Log, m: nat, i: nat, c: Checkpoint, o: SaveOutcome)
    requires AllSucceed(log, m) && m <= |log|
    ensures AllSucceed(AfterSave(log + [Started(i)] + [Succeeded(i)], c, o), m)
    ensures log <= AfterSave(log + [Started(i)] + [Succeeded(i)], c, o)
  {
  }

  lemma DoneNext(log: Log, i: nat, c: Checkpoint, o: SaveOutcome)
    ensures Done(AfterSave(log + [Started(i)] + [Succeeded(i)], c, o)) == Done(log) + {i}
  {
    Append(log, Started(i));
    Append(log + [Started(i)], Succeeded(i));
    Append(log + [Started(i)] + [Succeeded(i)], Saved(c));
  }

  lemma {:induction false} LoopDone(keys: seq<Key>, skip: set<Key>, env: Env, i: nat, c: Checkpoint, log: Log, m: nat)
    requires i <= |keys| && AllGoOn(keys, skip, env, i, |keys|) && m <= |log| && AllSucceed(log, m)
    ensures var after := RunFrom(keys, skip, env, i, c, log).0;
            && AllSucceed(after, m) && Done(log) <= Done(after)
            && forall j: nat :: i <= j < |keys| && keys[j] !in skip ==> j in Done(after)
    decreases |keys| - i
  {
    if i == |keys| {
      Append(log, Saved(Checkpoint(Completed, c.completed, "")));
    } else if keys[i] in skip {
      LoopDone(keys, skip, env, i + 1, c, log, m);
    } else {
      assert GoesOn(|keys|, env, i);
      var c' := Marked(c, keys[i]);
      var marked := AfterSave(log + [Started(i)] + [Succeeded(i)], c', env.phases(i).mark);
      AllSucceedNext(log, m, i, c', env.phases(i).mark);
      DoneNext(log, i, c', env.phases(i).mark);
      LoopDone(keys, skip, env, i + 1, c', marked, m);
    }
  }

  /** A run that reports success, and was not dry, has brought every phase that its options
      do not skip to success, and none that it started has failed. */
  lemma FinishedMeansDone(names: seq<string>, opts: Opts, env: Env, log: Log)
    requires !opts.dryRun && Run(names, opts, env, log).1 == Finished
    ensures var after := Run(names, opts, env, log).0;
            && AllSucceed(after, |log|)
            && forall i: nat :: i < |names| && !Skips(names, opts, Loaded(log).completed, i) ==> i in Done(after)
  {
    RunFinishesWhen(names, opts, env, log);
    PlanWhen(names, opts, Loaded(log).completed);
    RunIsLoop(names, opts, env, log);
    var (skip, c, begun) := LoopStart(names, opts, env, log);
    LoopFinishesWhen(Keys(names), skip, env, c, begun);
    LoopDone(Keys(names), skip, env, 0, c, begun, |log|);
  }

  /* ---- What a run leaves in the checkpoint ---- */

  /** One of the phases from i to j that are not skipped has this key. */
  predicate HasRun(keys: seq<Key>, skip: set<Key>, i: nat, j: nat, key: Key)
    requires j <= |keys|
  {
    exists k | i <= k < j :: keys[k] == key && key !in skip
  }

  /** The keys recorded before, and those of the phases from i to j that ran. */
  ghost predicate RecordsRan(keys: seq<Key>, skip: set<Key>, i: nat, j: nat, before: seq<Key>, completed: seq<Key>)
    requires j <= |keys|
  {
    forall key :: key in completed <==> key in before || HasRun(keys, skip, i, j, key)
  }

  /** The log ends with a save of these keys under this status and message. */
  ghost predicate EndsSaved(log: Log, status: Status, message: string, keys: seq<Key>, skip: set<Key>, i: nat, j: nat, before: seq<Key>)
    requires j <= |keys|
  {
    && log != [] && log[|log| - 1].Saved?
    && log[|log| - 1].checkpoint.status == status && log[|log| - 1].checkpoint.lastError == message
    && RecordsRan(keys, skip, i, j, before, log[|log| - 1].checkpoint.completed)
  }

  lemma RecordsNext(keys: seq<Key>, skip: set<Key>, i: nat, j: nat, c: Checkpoint, completed: seq<Key>)
    requires i < j <= |keys| && keys[i] !in skip && RecordsRan(keys, skip, i + 1, j, Marked(c, keys[i]).completed, completed)
    ensures RecordsRan(keys, skip, i, j, c.completed, completed)
  {
  }

  lemma RecordsSkip(keys: seq<Key>, skip: set<Key>, i: nat, j: nat, before: seq<Key>, completed: seq<Key>)
    requires i < j <= |keys| && keys[i] in skip && RecordsRan(keys, skip, i + 1, j, before, completed)
    ensures RecordsRan(keys, skip, i, j, before, completed)
  {
  }

  /** How the loop's log ends when phase j stops it. */
  ghost predicate EndsIn(keys: seq<Key>, skip: set<Key>, env: Env, i: nat, j: nat, before: seq<Key>, after: Log)
    requires j < |keys|
  {
    && after != []
    && match env.phases(j).run
       case PhaseCrash => after[|after| - 1] == Started(j)
       case PhaseError(m) =>
         if Lands(env.phases(j).failSave) then EndsSaved(after, Failed, m, keys, skip, i, j, before)
         else after[|after| - 1] == Started(j)
       case PhaseOk =>
         if Lands(env.phases(j).mark) then EndsSaved(after, Running, "", keys, skip, i, j + 1, before)
         else after[|after| - 1] == Succeeded(j)
  }

  lemma EndsInSkip(keys: seq<Key>, skip: set<Key>, env: Env, i: nat, j: nat, before: seq<Key>, after: Log)
    requires i < j < |keys| && keys[i] in skip && EndsIn(keys, skip, env, i + 1, j, before, after)
    ensures EndsIn(keys, skip, env, i, j, before, after)
  {
    var last := after[|after| - 1];
    if last.Saved? {
      if env.phases(j).run.PhaseOk? {
        RecordsSkip(keys, skip, i, j + 1, before, last.checkpoint.completed);
      } else {
        RecordsSkip(keys, skip, i, j, before, last.checkpoint.completed);
      }
    }
  }

  lemma EndsInNext(keys: seq<Key>, skip: set<Key>, env: Env, i: nat, j: nat, c: Checkpoint, after: Log)
    requires i < j < |keys| && keys[i] !in skip && EndsIn(keys, skip, env, i + 1, j, Marked(c, keys[i]).completed, after)
    ensures EndsIn(keys, skip, env, i, j, c.completed, after)
  {
    var last := after[|after| - 1];
    if last.Saved? {
      if env.phases(j).run.PhaseOk? {
        RecordsNext(keys, skip, i, j + 1, c, last.checkpoint.completed);
      } else {
        RecordsNext(keys, skip, i, j, c, last.checkpoint.completed);
      }
    }
  }

  lemma StopsHere(keys: seq<Key>, skip: set<Key>, env: Env, c: Checkpoint, log: Log, j: nat)
    requires j < |keys| && keys[j] !in skip && !GoesOn(|keys|, env, j)
    ensures EndsIn(keys, skip, env, j, j, c.completed, RunFrom(keys, skip, env, j, c, log).0)
  {
    if env.phases(j).run.PhaseOk? {
      assert keys[j] in Marked(c, keys[j]).completed;
      assert HasRun(keys, skip, j, j + 1, keys[j]);
    }
  }

  lemma {:induction false} LoopEndsIn(keys: seq<Key>, skip: set<Key>, env: Env, i: nat, c: Checkpoint, log: Log, j: nat)
    requires StopsIn(keys, skip, env, i, j)
    ensures EndsIn(keys, skip, env, i, j, c.completed, RunFrom(keys, skip, env, i, c, log).0)
    decreases |keys| - i
  {
    if i == j {
      StopsHere(keys, skip, env, c, log, j);
    } else if keys[i] in skip {
      LoopEndsIn(keys, skip, env, i + 1, c, log, j);
      EndsInSkip(keys, skip, env, i, j, c.completed, RunFrom(keys, skip, env, i, c, log).0);
    } else {
      assert GoesOn(|keys|, env, i);
      var c' := Marked(c, keys[i]);
      var marked := AfterSave(log + [Started(i)] + [Succeeded(i)], c', env.phases(i).mark);
      LoopEndsIn(keys, skip, env, i + 1, c', marked, j);
      EndsInNext(keys, skip, env, i, j, c, RunFrom(keys, skip, env, i, c, log).0);
    }
  }

  lemma {:induction false} LoopEndsCompleted(keys: seq<Key>, skip: set<Key>, env: Env, i: nat, c: Checkpoint, log: Log)
    requires i <= |keys| && AllGoOn(keys, skip, env, i, |keys|) && Lands(env.last)
    ensures EndsSaved(RunFrom(keys, skip, env, i, c, log).0, Completed, "", keys, skip, i, |keys|, c.completed)
    decreases |keys| - i
  {
    if i < |keys| {
      var after := RunFrom(keys, skip, env, i, c, log).0;
      if keys[i] in skip {
        LoopEndsCompleted(keys, skip, env, i + 1, c, log);
        RecordsSkip(keys, skip, i, |keys|, c.completed, after[|after| - 1].checkpoint.completed);
      } else {
        assert GoesOn(|keys|, env, i);
        var c' := Marked(c, keys[i]);
        var marked := AfterSave(log + [Started(i)] + [Succeeded(i)], c', env.phases(i).mark);
        LoopEndsCompleted(keys, skip, env, i + 1, c', marked);
        RecordsNext(keys, skip, i, |keys|, c, after[|after| - 1].checkpoint.completed);
      }
    }
  }

  /** The run reaches its phases. */
  predicate Begins(names: seq<string>, opts: Opts, env: Env) {
    !opts.dryRun && !env.loadFails && !env.preflightFails && OptionsFit(names, opts) && env.first.Committed?
  }

  /** A run that does not reach its phases starts none of them, and fails unless it is dry
      or dies in the first save; the checkpoint is replaced only when that save reaches the file. */
  lemma NothingStarts(names: seq<string>, opts: Opts, env: Env, log: Log)
    requires !opts.dryRun && !Begins(names, opts, env)
    ensures var (after, exit) := Run(names, opts, env, log);
            var saves := !env.loadFails && !env.preflightFails && OptionsFit(names, opts);
            && exit == (if saves && Dies(env.first) then Died else Stopped)
            && log <= after && (forall p :: |log| <= p < |after| ==> !after[p].Started?)
            && (after != log ==> saves && Lands(env.first))
  {
    PlanWhen(names, opts, Loaded(log).completed);
  }

  /** What was recorded when the phases began: nothing in a fresh run. */
  function RecordedBefore(opts: Opts, log: Log): seq<Key> {
    if opts.resume || opts.fromPhase != "" then Loaded(log).completed else []
  }

  /** The first phase that is neither skipped nor goes on ends the run: with an error unless
      the process dies in it, and with the checkpoint saying what failed and which keys
      are recorded, if that save reaches the file. */
  lemma RunEndsIn(names: seq<string>, opts: Opts, env: Env, log: Log, j: nat)
    requires Begins(names, opts, env) && j < |names|
    requires !Skips(names, opts, Loaded(log).completed, j) && !GoesOn(|names|, env, j)
    requires forall i :: 0 <= i < j ==> Skips(names, opts, Loaded(log).completed, i) || GoesOn(|names|, env, i)
    ensures var (after, exit) := Run(names, opts, env, log);
            && exit == (if DiesIn(|names|, env, j) then Died else Stopped)
            && Plan(Keys(names), opts, Loaded(log).completed).Ok?
            && EndsIn(Keys(names), Plan(Keys(names), opts, Loaded(log).completed).value.0, env, 0, j,
                      RecordedBefore(opts, log), after)
  {
    PlanWhen(names, opts, Loaded(log).completed);
    RunIsLoop(names, opts, env, log);
    var (skip, c, begun) := LoopStart(names, opts, env, log);
    LoopStops(Keys(names), skip, env, 0, c, begun, j);
    LoopEndsIn(Keys(names), skip, env, 0, c, begun, j);
  }

  /** A run that reports success and whose last save reaches the file leaves "completed"
      there, with the keys recorded before and those of all phases it ran. */
  lemma FinishedMeansCompleted(names: seq<string>, opts: Opts, env: Env, log: Log)
    requires !opts.dryRun && Run(names, opts, env, log).1 == Finished && Lands(env.last)
    ensures Plan(Keys(names), opts, Loaded(log).completed).Ok?
    ensures EndsSaved(Run(names, opts, env, log).0, Completed, "", Keys(names),
                      Plan(Keys(names), opts, Loaded(log).completed).value.0, 0, |names|, RecordedBefore(opts, log))
  {
    RunFinishesWhen(names, opts, env, log);
    PlanWhen(names, opts, Loaded(log).completed);
    RunIsLoop(names, opts, env, log);
    var (skip, c, begun) := LoopStart(names, opts, env, log);
    LoopFinishesWhen(Keys(names), skip, env, c, begun);
    LoopEndsCompleted(Keys(names), skip, env, 0, c, begun);
  }
}
