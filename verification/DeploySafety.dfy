/** What every history of deployments keeps, and exactly when. */
module DeploySafety {
  import opened Wrappers
  import opened PhaseNames
  import opened DeploySpec

  lemma Append(log: Log, e: Event)
    ensures Done(log + [e]) == if e.Reset? then {} else if e.Succeeded? then Done(log) + {e.phase} else Done(log)
    ensures OnDisk(log + [e]) == if e.Saved? then Some(e.checkpoint) else OnDisk(log)
  {
    assert (log + [e])[..|log|] == log;
  }

  lemma AppendSafe(keys: seq<Key>, log: Log, e: Event)
    requires Safe(keys, log) && Allowed(keys, Done(log), e)
    ensures Safe(keys, log + [e])
    ensures Done(log + [e]) == if e.Reset? then {} else if e.Succeeded? then Done(log) + {e.phase} else Done(log)
    ensures OnDisk(log + [e]) == if e.Saved? then Some(e.checkpoint) else OnDisk(log)
  {
    Append(log, e);
    var longer := log + [e];
    forall p | 0 <= p < |longer| ensures Allowed(keys, Done(longer[..p]), longer[p]) {
      if p < |log| {
        assert longer[..p] == log[..p];
        assert Allowed(keys, Done(log[..p]), log[p]);
      }
    }
  }

  lemma SaveSafe(keys: seq<Key>, log: Log, c: Checkpoint, o: SaveOutcome)
    requires Safe(keys, log) && Honest(keys, Done(log), c)
    ensures Safe(keys, AfterSave(log, c, o)) && Done(AfterSave(log, c, o)) == Done(log)
  {
    if Lands(o) {
      AppendSafe(keys, log, Saved(c));
    }
  }

  /* ---- Fresh runs are safe for every list ---- */

  /** Phase i is started, succeeds and is recorded after the first i phases were. */
  lemma RecordNext(keys: seq<Key>, i: nat, c: Checkpoint, log: Log)
    requires i < |keys| && Safe(keys, log) && Records(keys, Done(log), c.completed, i)
    ensures Safe(keys, log + [Started(i)]) && Done(log + [Started(i)]) == Done(log)
    ensures var done := log + [Started(i)] + [Succeeded(i)];
            Safe(keys, done) && Records(keys, Done(done), Marked(c, keys[i]).completed, i + 1)
  {
    AppendSafe(keys, log, Started(i));
    AppendSafe(keys, log + [Started(i)], Succeeded(i));
    assert keys[..i + 1] == keys[..i] + [keys[i]];
  }

  lemma {:induction false} FreshLoopSafe(keys: seq<Key>, env: Env, i: nat, c: Checkpoint, log: Log)
    requires Safe(keys, log) && Records(keys, Done(log), c.completed, i)
    ensures Safe(keys, RunFrom(keys, {}, env, i, c, log).0)
    decreases |keys| - i
  {
    if i == |keys| {
      SaveSafe(keys, log, Checkpoint(Completed, c.completed, ""), env.last);
    } else {
      var e := env.phases(i);
      var started := log + [Started(i)];
      RecordNext(keys, i, c, log);
      match e.run {
        case PhaseCrash =>
        case PhaseError(m) => SaveSafe(keys, started, Checkpoint(Failed, c.completed, m), e.failSave);
        case PhaseOk =>
          var c' := Marked(c, keys[i]);
          var done := started + [Succeeded(i)];
          SaveSafe(keys, done, c', e.mark);
          FreshLoopSafe(keys, env, i + 1, c', AfterSave(done, c', e.mark));
      }
    }
  }

  const BEGIN := Checkpoint(Running, [], "")

  /** A fresh run keeps a safe log safe, whatever keys its phases share and wherever it
      fails or is cut: it is resuming that can go wrong. */
  lemma FreshRunIsSafe(names: seq<string>, env: Env, log: Log)
    requires Safe(Keys(names), log)
    ensures Safe(Keys(names), Run(names, Opts(false, false, ""), env, log).0)
  {
    var keys := Keys(names);
    FreshRun(names, env, log);
    AppendSafe(keys, log, Reset);
    assert Records(keys, {}, [], 0);
    AppendSafe(keys, log + [Reset], Saved(BEGIN));
    FreshLoopSafe(keys, env, 0, BEGIN, log + [Reset] + [Saved(BEGIN)]);
  }

  /* ---- Distinct keys: every history is safe ---- */

  /** A checkpoint as runs over distinct keys leave it: the keys of a prefix, in order. */
  ghost predicate InOrder(keys: seq<Key>, done: set<nat>, c: Checkpoint) {
    && c.completed <= keys
    && (forall j: nat :: j < |c.completed| ==> j in done)
    && (c.status.Completed? ==> c.completed == keys)
  }

  lemma InOrderIsHonest(keys: seq<Key>, done: set<nat>, c: Checkpoint)
    requires InOrder(keys, done, c)
    ensures Honest(keys, done, c)
  {
    assert c.completed == keys[..|c.completed|];
    assert Records(keys, done, c.completed, |c.completed|);
  }

  ghost predicate Good(keys: seq<Key>, log: Log) {
    Safe(keys, log) && (OnDisk(log).Some? ==> InOrder(keys, Done(log), OnDisk(log).value))
  }

  lemma AppendGood(keys: seq<Key>, log: Log, e: Event)
    requires Good(keys, log) && !e.Reset? && (if e.Saved? then InOrder(keys, Done(log), e.checkpoint) else Allowed(keys, Done(log), e))
    ensures Good(keys, log + [e])
    ensures Done(log + [e]) == if e.Succeeded? then Done(log) + {e.phase} else Done(log)
  {
    if e.Saved? {
      InOrderIsHonest(keys, Done(log), e.checkpoint);
    }
    AppendSafe(keys, log, e);
  }

  lemma SaveGood(keys: seq<Key>, log: Log, c: Checkpoint, o: SaveOutcome)
    requires Good(keys, log) && InOrder(keys, Done(log), c)
    ensures Good(keys, AfterSave(log, c, o)) && Done(AfterSave(log, c, o)) == Done(log)
  {
    if Lands(o) {
      AppendGood(keys, log, Saved(c));
    }
  }

  function Max(a: nat, b: nat): nat {
    if a < b then b else a
  }

  /** Recording phase i when the keys before i, or those of a longer prefix, are there. */
  lemma MarkedInOrder(keys: seq<Key>, i: nat, k: nat, c: Checkpoint)
    requires Distinct(keys) && i < |keys| && k <= |keys| && c.completed == keys[..Max(i, k)]
    ensures Marked(c, keys[i]).completed == keys[..Max(i + 1, k)]
  {
    if i < k {
      assert keys[..k][i] == keys[i];
    } else {
      assert keys[i] !in keys[..i];
      assert keys[..i + 1] == keys[..i] + [keys[i]];
    }
  }

  /** Before phase i the recorded keys are those of the phases before i, or of the longer
      prefix found on disk. */
  ghost predicate AtPhase(keys: seq<Key>, i: nat, k: nat, c: Checkpoint, log: Log) {
    && i <= |keys| && k <= |keys| && c.completed == keys[..Max(i, k)]
    && Good(keys, log) && forall j: nat :: j < Max(i, k) ==> j in Done(log)
  }

  lemma PhaseStarts(keys: seq<Key>, i: nat, k: nat, c: Checkpoint, log: Log)
    requires AtPhase(keys, i, k, c, log) && i < |keys|
    ensures AtPhase(keys, i, k, c, log + [Started(i)])
  {
    AppendGood(keys, log, Started(i));
  }

  lemma PhaseFails(keys: seq<Key>, i: nat, k: nat, c: Checkpoint, started: Log, message: string, o: SaveOutcome)
    requires AtPhase(keys, i, k, c, started)
    ensures Good(keys, AfterSave(started, Checkpoint(Failed, c.completed, message), o))
  {
    SaveGood(keys, started, Checkpoint(Failed, c.completed, message), o);
  }

  lemma PhaseSucceeds(keys: seq<Key>, i: nat, k: nat, c: Checkpoint, started: Log, o: SaveOutcome)
    requires Distinct(keys) && AtPhase(keys, i, k, c, started) && i < |keys|
    ensures AtPhase(keys, i + 1, k, Marked(c, keys[i]), AfterSave(started + [Succeeded(i)], Marked(c, keys[i]), o))
  {
    MarkedInOrder(keys, i, k, c);
    AppendGood(keys, started, Succeeded(i));
    SaveGood(keys, started + [Succeeded(i)], Marked(c, keys[i]), o);
  }

  /** The skipped phases are the first m. */
  ghost predicate SkipsFirst(keys: seq<Key>, skip: set<Key>, m: nat) {
    m <= |keys| && forall i :: 0 <= i < |keys| ==> (keys[i] in skip <==> i < m)
  }

  lemma PrefixSkipsFirst(keys: seq<Key>, m: nat)
    requires Distinct(keys) && m <= |keys|
    ensures SkipsFirst(keys, (set key | key in keys[..m]), m)
  {
    forall i | 0 <= i < |keys| ensures keys[i] in keys[..m] <==> i < m {
      if i < m {
        assert keys[..m][i] == keys[i];
      }
    }
  }

  /** The loop keeps the log good when it skips the first m phases and at least their keys
      are recorded. */
  lemma {:induction false} LoopGood(keys: seq<Key>, skip: set<Key>, m: nat, env: Env, i: nat, c: Checkpoint, log: Log, k: nat)
    requires Distinct(keys) && m <= k && SkipsFirst(keys, skip, m) && AtPhase(keys, i, k, c, log)
    ensures Good(keys, RunFrom(keys, skip, env, i, c, log).0)
    decreases |keys| - i
  {
    if i == |keys| {
      SaveGood(keys, log, Checkpoint(Completed, c.completed, ""), env.last);
    } else if keys[i] in skip {
      LoopGood(keys, skip, m, env, i + 1, c, log, k);
    } else {
      var e := env.phases(i);
      var started := log + [Started(i)];
      PhaseStarts(keys, i, k, c, log);
      match e.run {
        case PhaseCrash =>
        case PhaseError(message) => PhaseFails(keys, i, k, c, started, message, e.failSave);
        case PhaseOk =>
          var c' := Marked(c, keys[i]);
          PhaseSucceeds(keys, i, k, c, started, e.mark);
          LoopGood(keys, skip, m, env, i + 1, c', AfterSave(started + [Succeeded(i)], c', e.mark), k);
      }
    }
  }

  lemma ResetGood(keys: seq<Key>, env: Env, log: Log)
    requires Distinct(keys) && Good(keys, log)
    ensures Good(keys, log + [Reset] + [Saved(BEGIN)])
    ensures Good(keys, RunFrom(keys, {}, env, 0, BEGIN, log + [Reset] + [Saved(BEGIN)]).0)
  {
    AppendSafe(keys, log, Reset);
    assert InOrder(keys, {}, BEGIN);
    InOrderIsHonest(keys, {}, BEGIN);
    AppendSafe(keys, log + [Reset], Saved(BEGIN));
    assert keys[..0] == [];
    LoopGood(keys, {}, 0, env, 0, BEGIN, log + [Reset] + [Saved(BEGIN)], 0);
  }

  /** What a fresh run does once it has read the file and checked the host. */
  lemma FreshRun(names: seq<string>, env: Env, log: Log)
    ensures var begun := log + [Reset] + [Saved(BEGIN)];
            Run(names, Opts(false, false, ""), env, log).0
            == if env.loadFails || env.preflightFails || env.first.NotCommitted? || env.first.CrashBeforeSave? then log
               else if env.first.CrashAfterSave? then begun
               else RunFrom(Keys(names), {}, env, 0, BEGIN, begun).0
  {
  }

  /** What a resumed run does then. */
  lemma ResumeRun(names: seq<string>, env: Env, log: Log)
    ensures var c := Loaded(log);
            Run(names, Opts(false, true, ""), env, log).0
            == if env.loadFails || env.preflightFails then log
               else if env.first.Committed? then
                 RunFrom(Keys(names), (set k | k in c.completed), env, 0, c, AfterSave(log, c, env.first)).0
               else AfterSave(log, c, env.first)
  {
  }

  lemma FreshGood(names: seq<string>, env: Env, log: Log)
    requires Distinct(Keys(names)) && Good(Keys(names), log)
    ensures Good(Keys(names), Run(names, Opts(false, false, ""), env, log).0)
  {
    FreshRun(names, env, log);
    ResetGood(Keys(names), env, log);
  }

  /** A run that keeps the checkpoint and skips the first m phases, all of them recorded. */
  lemma ContinueGood(keys: seq<Key>, skip: set<Key>, m: nat, env: Env, log: Log)
    requires Distinct(keys) && Good(keys, log) && SkipsFirst(keys, skip, m) && m <= |Loaded(log).completed|
    ensures var saved := AfterSave(log, Loaded(log), env.first);
            Good(keys, saved) && Good(keys, RunFrom(keys, skip, env, 0, Loaded(log), saved).0)
  {
    var c := Loaded(log);
    SaveGood(keys, log, c, env.first);
    assert keys[..|c.completed|] == c.completed;
    LoopGood(keys, skip, m, env, 0, c, AfterSave(log, c, env.first), |c.completed|);
  }

  lemma ResumeGood(names: seq<string>, env: Env, log: Log)
    requires Distinct(Keys(names)) && Good(Keys(names), log)
    ensures Good(Keys(names), Run(names, Opts(false, true, ""), env, log).0)
  {
    var keys, c := Keys(names), Loaded(log);
    assert keys[..|c.completed|] == c.completed;
    ResumeRun(names, env, log);
    PrefixSkipsFirst(keys, |c.completed|);
    ContinueGood(keys, (set k | k in c.completed), |c.completed|, env, log);
  }

  lemma RunGood(names: seq<string>, opts: Opts, env: Env, log: Log)
    requires Distinct(Keys(names)) && opts.fromPhase == ""
    requires Good(Keys(names), log)
    ensures Good(Keys(names), Run(names, opts, env, log).0)
  {
    if !opts.dryRun {
      if opts.resume {
        assert opts == Opts(false, true, "");
        ResumeGood(names, env, log);
      } else {
        assert opts == Opts(false, false, "");
        FreshGood(names, env, log);
      }
    }
  }

  lemma {:induction false} ExecGood(names: seq<string>, history: History)
    requires Distinct(Keys(names)) && NoFromPhase(history)
    ensures Good(Keys(names), Exec(names, history))
  {
    if history != [] {
      ExecGood(names, history[..|history| - 1]);
      var last := history[|history| - 1];
      RunGood(names, last.0, last.1, Exec(names, history[..|history| - 1]));
    }
  }

  /* ---- Shared keys: resuming goes wrong ---- */

  function PhaseFailingAt(j: int, i: nat): PhaseEnv {
    PhaseEnv(if i == j then PhaseError("failed") else PhaseOk, Committed, Committed, Elapsed)
  }

  /** Everything works, except that phase j fails (none for -1). */
  function FailingAt(j: int): Env {
    Env(false, false, Committed, false, (i: nat) => PhaseFailingAt(j, i), Committed)
  }

  /** The last thing saved says completed although phase j has not succeeded. */
  ghost predicate FalselyCompleted(log: Log, j: nat) {
    && log != [] && log[|log| - 1].Saved? && log[|log| - 1].checkpoint.status.Completed?
    && j !in Done(log)
  }

  lemma FalselyCompletedIsUnsafe(keys: seq<Key>, log: Log, j: nat)
    requires FalselyCompleted(log, j) && j < |keys|
    ensures !Safe(keys, log)
  {
    var n := |log| - 1;
    assert Done(log) == Done(log[..n]);
    assert !Allowed(keys, Done(log[..n]), log[n]);
  }

  lemma AppendMarked(log: Log, i: nat, c: Checkpoint)
    ensures var marked := log + [Started(i)] + [Succeeded(i)] + [Saved(c)];
            Done(marked) == Done(log) + {i} && OnDisk(marked) == Some(c)
  {
    Append(log, Started(i));
    Append(log + [Started(i)], Succeeded(i));
    Append(log + [Started(i)] + [Succeeded(i)], Saved(c));
  }

  /** One phase, and the end, of a run in which nothing fails. */
  lemma AllWorksStep(keys: seq<Key>, skip: set<Key>, i: nat, c: Checkpoint, log: Log)
    requires i <= |keys| && (i < |keys| ==> keys[i] !in skip)
    ensures i < |keys| ==>
              var c' := Marked(c, keys[i]);
              RunFrom(keys, skip, FailingAt(-1), i, c, log)
              == RunFrom(keys, skip, FailingAt(-1), i + 1, c', log + [Started(i)] + [Succeeded(i)] + [Saved(c')])
    ensures i == |keys| ==>
              RunFrom(keys, skip, FailingAt(-1), i, c, log).0 == log + [Saved(Checkpoint(Completed, c.completed, ""))]
  {
  }

  /** A first run that fails in phase j records the keys of all phases before it. */
  lemma {:induction false} FreshRunUntil(keys: seq<Key>, j: nat, i: nat, c: Checkpoint, log: Log)
    requires i <= j < |keys| && j !in Done(log)
    requires forall q: nat :: q < i ==> keys[q] in c.completed
    ensures var end := RunFrom(keys, {}, FailingAt(j), i, c, log).0;
            && j !in Done(end)
            && OnDisk(end).Some?
            && forall q: nat :: q < j ==> keys[q] in OnDisk(end).value.completed
    decreases j - i
  {
    if i == j {
      Append(log, Started(i));
      Append(log + [Started(i)], Saved(Checkpoint(Failed, c.completed, "failed")));
    } else {
      var c' := Marked(c, keys[i]);
      AppendMarked(log, i, c');
      FreshRunUntil(keys, j, i + 1, c', log + [Started(i)] + [Succeeded(i)] + [Saved(c')]);
    }
  }

  /** A run without failures that skips phase j still ends by saving "completed". */
  lemma {:induction false} ResumeSkipping(keys: seq<Key>, skip: set<Key>, j: nat, i: nat, c: Checkpoint, log: Log)
    requires i <= |keys| && j < |keys| && keys[j] in skip && j !in Done(log)
    ensures var end := RunFrom(keys, skip, FailingAt(-1), i, c, log).0;
            FalselyCompleted(end, j) && OnDisk(end).Some? && OnDisk(end).value.status == Completed
    decreases |keys| - i
  {
    if i == |keys| {
      AllWorksStep(keys, skip, i, c, log);
      Append(log, Saved(Checkpoint(Completed, c.completed, "")));
    } else if keys[i] in skip {
      ResumeSkipping(keys, skip, j, i + 1, c, log);
    } else {
      var c' := Marked(c, keys[i]);
      AllWorksStep(keys, skip, i, c, log);
      AppendMarked(log, i, c');
      ResumeSkipping(keys, skip, j, i + 1, c', log + [Started(i)] + [Succeeded(i)] + [Saved(c')]);
    }
  }

  /** A first run that fails in phase j, and then a resumed one in which nothing fails. */
  function FailThenResume(j: nat): History {
    [(Opts(false, false, ""), FailingAt(j)), (Opts(false, true, ""), FailingAt(-1))]
  }

  /** Two phases with one key: fail in the later one, resume, and the resumed run saves
      "completed" although that phase never succeeded. */
  lemma SharedKeyBreaks(names: seq<string>, i: nat, j: nat)
    requires i < j < |names| && PhaseKey(names[i]) == PhaseKey(names[j])
    ensures NoFromPhase(FailThenResume(j)) && FailThenResume(j)[1].0.resume
    ensures var log := Exec(names, FailThenResume(j));
            FalselyCompleted(log, j) && OnDisk(log).Some? && OnDisk(log).value.status == Completed
  {
    BothAttempts(names, i, j);
    ExecTwo(names, (Opts(false, false, ""), FailingAt(j)), (Opts(false, true, ""), FailingAt(-1)));
  }

  lemma BothAttempts(names: seq<string>, i: nat, j: nat)
    requires i < j < |names| && PhaseKey(names[i]) == PhaseKey(names[j])
    ensures var first := Run(names, Opts(false, false, ""), FailingAt(j), []).0;
            var end := Run(names, Opts(false, true, ""), FailingAt(-1), first).0;
            FalselyCompleted(end, j) && OnDisk(end).Some? && OnDisk(end).value.status == Completed
  {
    FirstAttempt(names, j);
    assert Keys(names)[j] == Keys(names)[i];
    SecondAttempt(names, j, Run(names, Opts(false, false, ""), FailingAt(j), []).0);
  }

  lemma ExecTwo(names: seq<string>, first: (Opts, Env), second: (Opts, Env))
    ensures Exec(names, [first, second]) == Run(names, second.0, second.1, Run(names, first.0, first.1, []).0).0
  {
    assert [first, second][..1] == [first] && [first][..0] == [];
    assert Exec(names, []) == [];
    assert Exec(names, [first]) == Run(names, first.0, first.1, []).0;
  }

  lemma SecondAttempt(names: seq<string>, j: nat, log: Log)
    requires j < |names| && j !in Done(log)
    requires OnDisk(log).Some? && Keys(names)[j] in OnDisk(log).value.completed
    ensures var end := Run(names, Opts(false, true, ""), FailingAt(-1), log).0;
            FalselyCompleted(end, j) && OnDisk(end).Some? && OnDisk(end).value.status == Completed
  {
    var c := OnDisk(log).value;
    Append(log, Saved(c));
    ResumeSkipping(Keys(names), (set k | k in c.completed), j, 0, c, log + [Saved(c)]);
  }

  lemma FirstAttempt(names: seq<string>, j: nat)
    requires j < |names|
    ensures var log := Run(names, Opts(false, false, ""), FailingAt(j), []).0;
            && j !in Done(log) && OnDisk(log).Some?
            && forall q: nat :: q < j ==> Keys(names)[q] in OnDisk(log).value.completed
  {
    FreshStart(names, j);
    FreshRunUntil(Keys(names), j, 0, BEGIN, [Reset, Saved(BEGIN)]);
  }

  lemma FreshStart(names: seq<string>, j: int)
    ensures Done([Reset, Saved(BEGIN)]) == {}
    ensures Run(names, Opts(false, false, ""), FailingAt(j), [])
            == RunFrom(Keys(names), {}, FailingAt(j), 0, BEGIN, [Reset, Saved(BEGIN)])
  {
    assert [Reset, Saved(BEGIN)] == [] + [Reset] + [Saved(BEGIN)];
    Append([], Reset);
    Append([Reset], Saved(BEGIN));
  }

  /** After this history of fresh and resumed runs the file says completed, and phase j
      never succeeded. */
  ghost predicate Misreports(names: seq<string>, history: History, j: nat) {
    NoFromPhase(history) && j < |names| && FalselyCompleted(Exec(names, history), j)
  }

  /** Over fresh and resumed runs, every history is safe exactly when no two phases share
      a key; and otherwise a resumed run may report completion without a phase. */
  lemma SafeIffDistinct(names: seq<string>)
    ensures (forall history | NoFromPhase(history) :: Safe(Keys(names), Exec(names, history))) <==> Distinct(Keys(names))
    ensures (exists history, j: nat :: Misreports(names, history, j)) <==> !Distinct(Keys(names))
  {
    var keys := Keys(names);
    if Distinct(keys) {
      forall history | NoFromPhase(history)
        ensures Safe(keys, Exec(names, history)) && forall j: nat :: !Misreports(names, history, j)
      {
        ExecGood(names, history);
        NeverFalselyCompleted(keys, Exec(names, history));
      }
    } else {
      var i, j :| 0 <= i < j < |keys| && keys[i] == keys[j];
      SharedKeyBreaks(names, i, j);
      assert Misreports(names, FailThenResume(j), j);
      FalselyCompletedIsUnsafe(keys, Exec(names, FailThenResume(j)), j);
    }
  }

  lemma NeverFalselyCompleted(keys: seq<Key>, log: Log)
    requires Safe(keys, log)
    ensures forall j: nat :: j < |keys| ==> !FalselyCompleted(log, j)
  {
    forall j: nat | j < |keys| && FalselyCompleted(log, j) ensures false {
      FalselyCompletedIsUnsafe(keys, log, j);
    }
  }

  /** The checkpoint on disk after any history, also one cut in the middle of a run. */
  lemma CheckpointIsHonest(names: seq<string>, history: History)
    requires Distinct(Keys(names)) && NoFromPhase(history)
    ensures var log := Exec(names, history);
            OnDisk(log).Some? ==>
              var c := OnDisk(log).value;
              && c.completed <= Keys(names)
              && (c.status.Completed? ==> forall i: nat :: i < |names| ==> i in Done(log))
  {
    ExecGood(names, history);
  }

  /* ---- The phase list of the repository ---- */

  const ALL_PHASES: seq<string> := [
    "00-init-vms", "01-setup-cobbler", "02-register-nodes", "00-init-vms",
    "03-repair-ssh", "04-setup-puppet", "DRBD Setup", "Backup Store Setup", "Kubernetes Setup",
    "NGINX & WordPress Setup", "Monitoring Setup", "UFW Setup", "Internal CA Setup"]

  /** Every phase in order; without VM creation, all but the two that create VMs. */
  function PhaseNamesOf(skipVMCreate: bool): seq<string> {
    if skipVMCreate then ALL_PHASES[1..3] + ALL_PHASES[4..] else ALL_PHASES
  }

  /** The first two characters of a name, lower case. */
  function Initials(name: string): (char, char)
    requires |name| >= 2
  {
    (LowerChar(name[0]), LowerChar(name[1]))
  }

  predicate StartsWithWord(name: string) {
    |name| >= 2 && IsAlnum(Initials(name).0) && IsAlnum(Initials(name).1)
  }

  lemma DifferentInitials(a: string, b: string)
    requires StartsWithWord(a) && StartsWithWord(b) && Initials(a) != Initials(b)
    ensures PhaseKey(a) != PhaseKey(b)
  {
    KeyStartsWithName(a);
    KeyStartsWithName(b);
    assert PhaseKey(a)[..2][0] == Initials(a).0 && PhaseKey(a)[..2][1] == Initials(a).1;
    assert PhaseKey(b)[..2][0] == Initials(b).0 && PhaseKey(b)[..2][1] == Initials(b).1;
  }

  const INITIALS: seq<(char, char)> := [
    ('0', '0'), ('0', '1'), ('0', '2'), ('0', '0'), ('0', '3'), ('0', '4'), ('d', 'r'), ('b', 'a'), ('k', 'u'),
    ('n', 'g'), ('m', 'o'), ('u', 'f'), ('i', 'n')]

  lemma InitialsOfPhases(i: nat)
    requires i < |ALL_PHASES|
    ensures |ALL_PHASES| == 13 && StartsWithWord(ALL_PHASES[i]) && Initials(ALL_PHASES[i]) == INITIALS[i]
  {
  }

  lemma InitialsDiffer(i: nat, j: nat)
    requires i < j < 13 && !(i == 0 && j == 3)
    ensures INITIALS[i] != INITIALS[j]
  {
  }

  predicate HasInitials(names: seq<string>) {
    |names| == |INITIALS| && forall i | 0 <= i < |names| :: StartsWithWord(names[i]) && Initials(names[i]) == INITIALS[i]
  }

  lemma OnlyFirstAndFourthShare(names: seq<string>, i: nat, j: nat)
    requires HasInitials(names) && names[0] == names[3] && i < j < |names|
    ensures PhaseKey(names[i]) == PhaseKey(names[j]) <==> i == 0 && j == 3
  {
    if !(i == 0 && j == 3) {
      InitialsDiffer(i, j);
      DifferentInitials(names[i], names[j]);
    }
  }

  lemma AllPhasesHaveInitials()
    ensures HasInitials(ALL_PHASES) && ALL_PHASES[0] == ALL_PHASES[3]
  {
    forall i | 0 <= i < |ALL_PHASES| ensures StartsWithWord(ALL_PHASES[i]) && Initials(ALL_PHASES[i]) == INITIALS[i] {
      InitialsOfPhases(i);
    }
  }

  /** The list of a deployment has two phases with one key, numbers 0 and 3, if it creates
      VMs, and none if it does not. */
  lemma PhaseListRepeats(skipVMCreate: bool, i: nat, j: nat)
    requires i < j < |PhaseNamesOf(skipVMCreate)|
    ensures var names := PhaseNamesOf(skipVMCreate);
            PhaseKey(names[i]) == PhaseKey(names[j]) <==> !skipVMCreate && i == 0 && j == 3
  {
    AllPhasesHaveInitials();
    if skipVMCreate {
      OnlyFirstAndFourthShare(ALL_PHASES, if i < 2 then i + 1 else i + 2, if j < 2 then j + 1 else j + 2);
    } else {
      OnlyFirstAndFourthShare(ALL_PHASES, i, j);
    }
  }

  /** So resuming is safe, for every history, exactly with --skip-vm-create. */
  lemma ActualPhaseList(skipVMCreate: bool)
    ensures (forall history | NoFromPhase(history) ::
               Safe(Keys(PhaseNamesOf(skipVMCreate)), Exec(PhaseNamesOf(skipVMCreate), history)))
            <==> skipVMCreate
  {
    SafeIffDistinct(PhaseNamesOf(skipVMCreate));
    PhaseKeysDistinct(skipVMCreate);
  }

  lemma PhaseKeysDistinct(skipVMCreate: bool)
    ensures Distinct(Keys(PhaseNamesOf(skipVMCreate))) <==> skipVMCreate
  {
    var names := PhaseNamesOf(skipVMCreate);
    var keys := Keys(names);
    forall i, j | 0 <= i < j < |keys| ensures keys[i] == keys[j] <==> !skipVMCreate && i == 0 && j == 3 {
      PhaseListRepeats(skipVMCreate, i, j);
    }
    assert !skipVMCreate ==> |keys| == 13 && keys[0] == keys[3];
  }

  /* ---- Starting from a named phase ---- */

  /** Phase i can be named by its display name or by its key. */
  lemma FromPhaseFindsIt(names: seq<string>, i: nat, arg: string, completed: seq<Key>)
    requires i < |names| && PhaseKey(names[i]) != "" && PhaseKey(names[i]) !in Keys(names)[..i]
    requires arg == names[i] || arg == PhaseKey(names[i])
    ensures Plan(Keys(names), Opts(false, false, arg), completed) == Ok((set k | k in Keys(names)[..i], false))
  {
    var keys := Keys(names);
    KeyIsIdempotent(names[i]);
    EmptyNameHasNoKey();
    assert PhaseKey(arg) == keys[i];
    FirstIndex(keys, keys[i], i);
  }

  lemma FirstIndex(keys: seq<Key>, want: Key, i: nat)
    requires i < |keys| && keys[i] == want && want !in keys[..i]
    ensures IndexOf(keys, want) == Some(i)
  {
    var r := IndexOf(keys, want);
    assert r.Some?;
    forall q | 0 <= q < r.value ensures keys[q] != want {
      assert keys[..r.value][q] == keys[q];
    }
    forall q | 0 <= q < i ensures keys[q] != want {
      assert keys[..i][q] == keys[q];
    }
  }

  /** --from-phase with the display name or the key of phase i skips a phase exactly
      when some phase before i has the same key: with distinct keys, what runs is the
      suffix from phase i on. */
  lemma FromPhaseRunsSuffix(names: seq<string>, i: nat, arg: string, completed: seq<Key>, j: nat)
    requires i < |names| && PhaseKey(names[i]) != "" && PhaseKey(names[i]) !in Keys(names)[..i]
    requires arg == names[i] || arg == PhaseKey(names[i])
    requires j < |names|
    ensures var plan := Plan(Keys(names), Opts(false, false, arg), completed);
            && plan.Ok? && !plan.value.1
            && (PhaseKey(names[j]) in plan.value.0 <==> exists q: nat :: q < i && PhaseKey(names[q]) == PhaseKey(names[j]))
            && (Distinct(Keys(names)) ==> (PhaseKey(names[j]) in plan.value.0 <==> j < i))
  {
    FromPhaseFindsIt(names, i, arg, completed);
    var keys := Keys(names);
    if keys[j] in keys[..i] {
      var q :| 0 <= q < |keys[..i]| && keys[..i][q] == keys[j];
      assert PhaseKey(names[q]) == keys[j] == keys[q];
    }
    if q: nat :| q < i && PhaseKey(names[q]) == PhaseKey(names[j]) {
      assert keys[..i][q] == keys[j] == keys[q];
    }
  }

  /** What such a run does: it keeps the checkpoint and starts the loop at phase i. */
  lemma FromPhaseRun(names: seq<string>, i: nat, arg: string, env: Env, log: Log)
    requires Distinct(Keys(names)) && Names(names, i, arg) && !env.loadFails && !env.preflightFails
    ensures var saved := AfterSave(log, Loaded(log), env.first);
            var skip := set k | k in Keys(names)[..i];
            && SkipsFirst(Keys(names), skip, i)
            && Run(names, Opts(false, false, arg), env, log).0
               == if env.first.Committed? then RunFrom(Keys(names), skip, env, 0, Loaded(log), saved).0 else saved
  {
    var keys := Keys(names);
    assert keys[i] !in keys[..i];
    FromPhaseFindsIt(names, i, arg, Loaded(log).completed);
    PrefixSkipsFirst(keys, i);
    assert arg != "" by { EmptyNameHasNoKey(); }
  }

  /** arg is the display name or the key of phase i. */
  predicate Names(names: seq<string>, i: nat, arg: string) {
    i < |names| && PhaseKey(names[i]) != "" && (arg == names[i] || arg == PhaseKey(names[i]))
  }

  lemma EmptyNameHasNoKey()
    ensures PhaseKey("") == ""
  {
    assert ToLower("") == "";
  }

  lemma {:induction false} LoopSkips(keys: seq<Key>, skip: set<Key>, m: nat, env: Env, i: nat, c: Checkpoint, log: Log)
    requires SkipsFirst(keys, skip, m) && i <= m
    ensures RunFrom(keys, skip, env, i, c, log) == RunFrom(keys, skip, env, m, c, log)
    decreases m - i
  {
    if i < m {
      LoopSkips(keys, skip, m, env, i + 1, c, log);
    }
  }

  lemma {:induction false} LoopExtends(keys: seq<Key>, skip: set<Key>, env: Env, i: nat, c: Checkpoint, log: Log)
    requires i <= |keys|
    ensures log <= RunFrom(keys, skip, env, i, c, log).0
    decreases |keys| - i
  {
    if i < |keys| {
      if keys[i] in skip {
        LoopExtends(keys, skip, env, i + 1, c, log);
      } else if env.phases(i).run.PhaseOk? {
        var marked := AfterSave(log + [Started(i)] + [Succeeded(i)], Marked(c, keys[i]), env.phases(i).mark);
        LoopExtends(keys, skip, env, i + 1, Marked(c, keys[i]), marked);
      }
    }
  }

  /** No prefix of the phases has key i without an earlier one. */
  lemma GapIsNoPrefix(keys: seq<Key>, done: set<nat>, recorded: seq<Key>, gap: nat, i: nat, k: nat)
    requires Distinct(keys) && gap < i < |keys| && keys[i] in recorded && keys[gap] !in recorded
    ensures !Records(keys, done, recorded, k)
  {
    if k <= |keys| {
      PrefixSkipsFirst(keys, k);
      assert i < k ==> keys[..k][gap] == keys[gap];
      assert i >= k ==> keys[i] !in keys[..k];
    }
  }

  lemma GapIsDishonest(keys: seq<Key>, done: set<nat>, c: Checkpoint, i: nat)
    requires Distinct(keys) && i < |keys| && c.completed <= keys && |c.completed| < i
    ensures !Honest(keys, done, Marked(c, keys[i]))
  {
    var recorded := Marked(c, keys[i]).completed;
    forall k: nat ensures !Records(keys, done, recorded, k) {
      GapIsNoPrefix(keys, done, recorded, |c.completed|, i, k);
    }
  }

  /** A checkpoint with fewer than i keys: starting at phase i leaves a gap. */
  lemma FromPhaseLeavesGap(keys: seq<Key>, skip: set<Key>, i: nat, log: Log)
    requires Distinct(keys) && i < |keys| && SkipsFirst(keys, skip, i)
    requires Loaded(log).completed <= keys && |Loaded(log).completed| < i
    ensures !Safe(keys, RunFrom(keys, skip, FailingAt(-1), 0, Loaded(log), log).0)
  {
    var c := Loaded(log);
    var done := log + [Started(i)] + [Succeeded(i)];
    FromPhaseSavesFirst(keys, skip, i, c, log);
    GapIsDishonest(keys, Done(done), c, i);
    DishonestSave(keys, done, Marked(c, keys[i]), RunFrom(keys, skip, FailingAt(-1), 0, c, log).0);
  }

  lemma FromPhaseSavesFirst(keys: seq<Key>, skip: set<Key>, i: nat, c: Checkpoint, log: Log)
    requires i < |keys| && SkipsFirst(keys, skip, i)
    ensures log + [Started(i)] + [Succeeded(i)] + [Saved(Marked(c, keys[i]))]
            <= RunFrom(keys, skip, FailingAt(-1), 0, c, log).0
  {
    var c' := Marked(c, keys[i]);
    LoopSkips(keys, skip, i, FailingAt(-1), 0, c, log);
    AllWorksStep(keys, skip, i, c, log);
    LoopExtends(keys, skip, FailingAt(-1), i + 1, c', log + [Started(i)] + [Succeeded(i)] + [Saved(c')]);
  }

  lemma DishonestSave(keys: seq<Key>, log: Log, c: Checkpoint, longer: Log)
    requires log + [Saved(c)] <= longer && !Honest(keys, Done(log), c)
    ensures !Safe(keys, longer)
  {
    assert longer[..|log|] == log && longer[|log|] == Saved(c);
    assert !Allowed(keys, Done(longer[..|log|]), longer[|log|]);
  }

  /** --from-phase is safe, whatever fails, exactly when the checkpoint on disk records
      every phase before the one named. */
  lemma FromPhaseIsSafeWhen(names: seq<string>, i: nat, arg: string, log: Log)
    requires Distinct(Keys(names)) && Good(Keys(names), log) && Names(names, i, arg)
    ensures (forall env :: Safe(Keys(names), Run(names, Opts(false, false, arg), env, log).0))
            <==> i <= |Loaded(log).completed|
  {
    var keys := Keys(names);
    var skip := set k | k in keys[..i];
    if i <= |Loaded(log).completed| {
      forall env ensures Safe(keys, Run(names, Opts(false, false, arg), env, log).0) {
        if !env.loadFails && !env.preflightFails {
          FromPhaseRun(names, i, arg, env, log);
          ContinueGood(keys, skip, i, env, log);
        }
      }
    } else {
      var env := FailingAt(-1);
      FromPhaseRun(names, i, arg, env, log);
      var saved := log + [Saved(Loaded(log))];
      Append(log, Saved(Loaded(log)));
      assert Loaded(saved) == Loaded(log);
      FromPhaseLeavesGap(keys, skip, i, saved);
    }
  }

  function Between(m: nat, n: nat): (s: set<nat>)
    ensures forall j: nat :: j in s <==> m <= j < n
  {
    if n <= m then {} else Between(m, n - 1) + {n - 1}
  }

  /** Phases m to i have succeeded and are recorded, and no others. */
  ghost predicate SuffixAt(keys: seq<Key>, m: nat, i: nat, c: Checkpoint, log: Log) {
    m <= i <= |keys| && c.completed == keys[m..i] && Done(log) == Between(m, i)
  }

  lemma SuffixNext(keys: seq<Key>, m: nat, i: nat, c: Checkpoint, log: Log)
    requires Distinct(keys) && SuffixAt(keys, m, i, c, log) && i < |keys|
    ensures SuffixAt(keys, m, i + 1, Marked(c, keys[i]), log + [Started(i)] + [Succeeded(i)] + [Saved(Marked(c, keys[i]))])
  {
    AppendMarked(log, i, Marked(c, keys[i]));
    assert Between(m, i + 1) == Between(m, i) + {i};
    assert keys[i] !in keys[m..i];
    assert keys[m..i + 1] == keys[m..i] + [keys[i]];
  }

  /** The file says completed with the keys from m on, and only those phases succeeded. */
  ghost predicate SuffixOnly(keys: seq<Key>, m: nat, log: Log) {
    m <= |keys| && OnDisk(log) == Some(Checkpoint(Completed, keys[m..], "")) && Done(log) == Between(m, |keys|)
  }

  lemma SuffixEnds(keys: seq<Key>, m: nat, c: Checkpoint, log: Log)
    requires SuffixAt(keys, m, |keys|, c, log)
    ensures SuffixOnly(keys, m, log + [Saved(Checkpoint(Completed, c.completed, ""))])
  {
    Append(log, Saved(Checkpoint(Completed, c.completed, "")));
    assert keys[m..|keys|] == keys[m..];
  }

  lemma {:induction false} SuffixRecorded(keys: seq<Key>, skip: set<Key>, m: nat, i: nat, c: Checkpoint, log: Log)
    requires Distinct(keys) && SkipsFirst(keys, skip, m) && SuffixAt(keys, m, i, c, log)
    ensures SuffixOnly(keys, m, RunFrom(keys, skip, FailingAt(-1), i, c, log).0)
    decreases |keys| - i
  {
    AllWorksStep(keys, skip, i, c, log);
    if i == |keys| {
      SuffixEnds(keys, m, c, log);
    } else {
      SuffixNext(keys, m, i, c, log);
      var c' := Marked(c, keys[i]);
      SuffixRecorded(keys, skip, m, i + 1, c', log + [Started(i)] + [Succeeded(i)] + [Saved(c')]);
    }
  }

  lemma SkippingLoopOnFreshFile(keys: seq<Key>, skip: set<Key>, i: nat)
    requires Distinct(keys) && SkipsFirst(keys, skip, i)
    ensures SuffixOnly(keys, i, RunFrom(keys, skip, FailingAt(-1), 0, NO_CHECKPOINT, [Saved(NO_CHECKPOINT)]).0)
  {
    var saved := [] + [Saved(NO_CHECKPOINT)];
    Append([], Saved(NO_CHECKPOINT));
    LoopSkips(keys, skip, i, FailingAt(-1), 0, NO_CHECKPOINT, saved);
    assert keys[i..i] == [] && Between(i, i) == {};
    SuffixRecorded(keys, skip, i, i, NO_CHECKPOINT, saved);
  }

  lemma FromPhaseRunOnFreshFile(names: seq<string>, i: nat, arg: string)
    requires Distinct(Keys(names)) && Names(names, i, arg)
    ensures var skip := set k | k in Keys(names)[..i];
            && SkipsFirst(Keys(names), skip, i)
            && Run(names, Opts(false, false, arg), FailingAt(-1), []).0
               == RunFrom(Keys(names), skip, FailingAt(-1), 0, NO_CHECKPOINT, [Saved(NO_CHECKPOINT)]).0
  {
    FromPhaseRun(names, i, arg, FailingAt(-1), []);
    assert AfterSave([], NO_CHECKPOINT, Committed) == [Saved(NO_CHECKPOINT)];
  }

  /** With no checkpoint, --from-phase i ends by saving "completed" with the keys from i on,
      although the phases before it have not run; */
  lemma FromPhaseOnFreshFile(names: seq<string>, i: nat, arg: string)
    requires Distinct(Keys(names)) && Names(names, i, arg)
    ensures SuffixOnly(Keys(names), i, Run(names, Opts(false, false, arg), FailingAt(-1), []).0)
  {
    FromPhaseRunOnFreshFile(names, i, arg);
    var skip := set k | k in Keys(names)[..i];
    SkippingLoopOnFreshFile(Keys(names), skip, i);
  }

  /** and a later --resume believes it: it runs just the phases before i. */
  lemma ResumeAfterSuffix(keys: seq<Key>, i: nat, log: Log, j: nat)
    requires Distinct(keys) && SuffixOnly(keys, i, log) && j < |keys|
    ensures var plan := Plan(keys, Opts(false, true, ""), OnDisk(log).value.completed);
            plan.Ok? && (keys[j] in plan.value.0 <==> i <= j)
  {
    if i <= j {
      assert keys[i..][j - i] == keys[j];
    }
  }
}
