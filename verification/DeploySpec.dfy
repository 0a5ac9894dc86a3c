/** The checkpointed deployment: which phases a run executes, what it saves, and what
    any history of runs leaves on disk (internal/deploy). Every call that can fail,
    and every point where the process can die, is an input. */
module DeploySpec {
  import opened Wrappers
  import opened Text
  import opened PhaseNames

  type Key = string

  datatype Status = Unset | Running | Completed | Failed

  /** The part of the checkpoint that decides anything; its times are left out. */
  datatype Checkpoint = Checkpoint(status: Status, completed: seq<Key>, lastError: string)

  const NO_CHECKPOINT := Checkpoint(Unset, [], "")

  datatype Opts = Opts(dryRun: bool, resume: bool, fromPhase: string)

  datatype SaveOutcome = Committed | NotCommitted | CrashBeforeSave | CrashAfterSave
  datatype RunOutcome = PhaseOk | PhaseError(message: string) | PhaseCrash
  datatype WaitOutcome = Elapsed | Cancelled | WaitCrash
  datatype PhaseEnv = PhaseEnv(run: RunOutcome, mark: SaveOutcome, failSave: SaveOutcome, wait: WaitOutcome)
  datatype Env = Env(loadFails: bool, preflightFails: bool, first: SaveOutcome, stagger: bool,
                     phases: nat -> PhaseEnv, last: SaveOutcome)

  /** What an observer of the machine sees, in order. */
  datatype Event =
    | Reset
    | Started(phase: nat)
    | Succeeded(phase: nat)
    | Saved(checkpoint: Checkpoint)

  type Log = seq<Event>

  datatype Exit = Finished | Stopped | Died

  /* ---- What a log means ---- */

  /** The phases that have succeeded since the last reset. */
  function Done(log: Log): set<nat> {
    if log == [] then {}
    else
      var before := Done(log[..|log| - 1]);
      match log[|log| - 1]
      case Reset => {}
      case Succeeded(i) => before + {i}
      case _ => before
  }

  function OnDisk(log: Log): Option<Checkpoint> {
    if log == [] then None
    else
      match log[|log| - 1]
      case Saved(c) => Some(c)
      case _ => OnDisk(log[..|log| - 1])
  }

  /** A phase body starts only when every earlier phase has succeeded since the last
      reset, and a saved checkpoint is honest. */
  ghost predicate Allowed(keys: seq<Key>, done: set<nat>, e: Event) {
    match e
    case Started(i) => i < |keys| && forall j: nat :: j < i ==> j in done
    case Saved(c) => Honest(keys, done, c)
    case _ => true
  }

  /** The recorded keys are those of the first k phases, all of which succeeded. */
  ghost predicate Records(keys: seq<Key>, done: set<nat>, completed: seq<Key>, k: nat) {
    && k <= |keys|
    && (forall key :: key in completed <==> key in keys[..k])
    && (forall j: nat :: j < k ==> j in done)
  }

  /** A checkpoint records some prefix of the phases, and says completed only when every
      phase has succeeded. Phases may share a key. */
  ghost predicate Honest(keys: seq<Key>, done: set<nat>, c: Checkpoint) {
    && (exists k :: Records(keys, done, c.completed, k))
    && (c.status.Completed? ==> forall j: nat :: j < |keys| ==> j in done)
  }

  ghost predicate Safe(keys: seq<Key>, log: Log) {
    forall p :: 0 <= p < |log| ==> Allowed(keys, Done(log[..p]), log[p])
  }

  /* ---- One run ---- */

  function Keys(names: seq<string>): (keys: seq<Key>)
    ensures |keys| == |names|
  {
    seq(|names|, i requires 0 <= i < |names| => PhaseKey(names[i]))
  }

  predicate Distinct(keys: seq<Key>) {
    forall i, j | 0 <= i < j < |keys| :: keys[i] != keys[j]
  }

  function IndexOf(keys: seq<Key>, key: Key): (r: Option<nat>)
    ensures r.Some? ==> r.value < |keys| && keys[r.value] == key && key !in keys[..r.value]
    ensures r.None? ==> key !in keys
  {
    if keys == [] then None
    else if keys[0] == key then Some(0)
    else
      match IndexOf(keys[1..], key)
      case None => None
      case Some(i) => assert keys[..i + 1] == [keys[0]] + keys[1..][..i]; Some(i + 1)
  }

  /** The keys to skip and whether the checkpoint starts afresh. */
  function Plan(keys: seq<Key>, opts: Opts, completed: seq<Key>): Result<(set<Key>, bool), string> {
    if opts.resume && opts.fromPhase != "" then Err("--resume and --from-phase are mutually exclusive")
    else if opts.resume then Ok((set k | k in completed, false))
    else if opts.fromPhase != "" then
      if PhaseKey(opts.fromPhase) == "" then Err("--from-phase requires a phase name")
      else
        match IndexOf(keys, PhaseKey(opts.fromPhase))
        case Some(i) => Ok((set k | k in keys[..i], false))
        case None => Err("unknown phase")
    else Ok(({}, true))
  }

  /** The new checkpoint is in place. */
  predicate Lands(o: SaveOutcome) {
    o.Committed? || o.CrashAfterSave?
  }

  function AfterSave(log: Log, c: Checkpoint, o: SaveOutcome): Log {
    if Lands(o) then log + [Saved(c)] else log
  }

  predicate Dies(o: SaveOutcome) {
    o.CrashBeforeSave? || o.CrashAfterSave?
  }

  function Marked(c: Checkpoint, key: Key): Checkpoint {
    Checkpoint(Running, if key in c.completed then c.completed else c.completed + [key], "")
  }

  /** The loop over the phases from number i on. */
  function RunFrom(keys: seq<Key>, skip: set<Key>, env: Env, i: nat, c: Checkpoint, log: Log): (Log, Exit)
    requires i <= |keys|
    decreases |keys| - i
  {
    if i == |keys| then
      (AfterSave(log, Checkpoint(Completed, c.completed, ""), env.last), if Dies(env.last) then Died else Finished)
    else if keys[i] in skip then RunFrom(keys, skip, env, i + 1, c, log)
    else
      var e := env.phases(i);
      var started := log + [Started(i)];
      match e.run
      case PhaseCrash => (started, Died)
      case PhaseError(m) =>
        (AfterSave(started, Checkpoint(Failed, c.completed, m), e.failSave), if Dies(e.failSave) then Died else Stopped)
      case PhaseOk =>
        var c' := Marked(c, keys[i]);
        var marked := AfterSave(started + [Succeeded(i)], c', e.mark);
        if Dies(e.mark) then (marked, Died)
        else if env.stagger && i < |keys| - 1 && !e.wait.Elapsed? then
          (marked, if e.wait.WaitCrash? then Died else Stopped)
        else RunFrom(keys, skip, env, i + 1, c', marked)
  }

  function Loaded(log: Log): Checkpoint {
    match OnDisk(log)
    case None => NO_CHECKPOINT
    case Some(c) => c
  }

  /** The whole of Deploy. */
  function Run(names: seq<string>, opts: Opts, env: Env, log: Log): (Log, Exit) {
    var keys := Keys(names);
    if opts.dryRun then (log, if Plan(keys, opts, []).Ok? then Finished else Stopped)
    else if env.loadFails || env.preflightFails then (log, Stopped)
    else
      match Plan(keys, opts, Loaded(log).completed)
      case Err(_) => (log, Stopped)
      case Ok((skip, reset)) =>
        var c := if reset then Checkpoint(Running, [], "") else Loaded(log);
        var begun := if reset && Lands(env.first) then log + [Reset] else log;
        var saved := AfterSave(begun, c, env.first);
        if Dies(env.first) then (saved, Died)
        else if env.first.NotCommitted? then (saved, Stopped)
        else RunFrom(keys, skip, env, 0, c, saved)
  }

  type History = seq<(Opts, Env)>

  /** The log after a history of runs that starts with no checkpoint file. */
  function Exec(names: seq<string>, history: History): Log {
    if history == [] then []
    else
      var last := history[|history| - 1];
      Run(names, last.0, last.1, Exec(names, history[..|history| - 1])).0
  }

  /** Only fresh and --resume runs (and dry runs, which do nothing). */
  ghost predicate NoFromPhase(history: History) {
    forall r :: 0 <= r < |history| ==> history[r].0.fromPhase == ""
  }
}
