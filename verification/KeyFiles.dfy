/** The age identities on disk and the move of a project-local private.key out of
    the repository (internal/config/secrets.go). The files are a map from path to
    text; a path that is absent from the map does not exist. */
module KeyFiles {
  import opened Wrappers
  import opened Text

  datatype Identity = Identity(secret: string)
  datatype Recipient = RecipientOf(identity: Identity)

  /** age.ParseX25519Identity on trimmed text. */
  type Parser = string -> Option<Identity>

  type Path = string
  type Files = map<Path, string>

  const AGE_KEY: Path := "${HOME}/.config/cms-ha/age.key"
  const LEGACY_KEY: Path := "${HOME}/.config/cms-ha/legacy.age.key"
  const PROJECT_KEY: Path := "private.key"

  /** Some key file holds this key text. */
  ghost predicate Held(files: Files, key: string) {
    exists p :: p in {AGE_KEY, LEGACY_KEY, PROJECT_KEY} && p in files && TrimSpace(files[p]) == key
  }

  /** Nothing that could be read before is out of reach now, and apart from the
      project-local file every file still has its old content. */
  ghost predicate NothingLost(before: Files, after: Files) {
    && (forall key :: Held(before, key) ==> Held(after, key))
    && (forall p :: p in before && p != PROJECT_KEY ==> p in after && after[p] == before[p])
    && (PROJECT_KEY in before && PROJECT_KEY in after ==> after[PROJECT_KEY] == before[PROJECT_KEY])
  }

  /** Where the project-local key goes: beside a different primary key, otherwise
      into the primary's place. */
  function MigrationTarget(files: Files, data: string): Path {
    if AGE_KEY in files && TrimSpace(files[AGE_KEY]) != TrimSpace(data) then LEGACY_KEY else AGE_KEY
  }

  /** Where one process is inside migrateLegacyIdentity. Every file operation is a
      step of its own, and the text may reach the disk in any number of pieces. */
  datatype Pc =
    | ReadProject
    | Choose(data: string)
    | Inspect(data: string, target: Path)
    | Open(data: string, target: Path)
    | Write(data: string, target: Path, written: nat)
    | RemoveProject(target: Path)
    | Migrated(target: Path)
    | Failed

  datatype Moment = Moment(files: Files, pc: Pc)

  /** One file operation. Any of them may also fail, which changes no file. */
  ghost predicate Step(parse: Parser, a: Moment, b: Moment) {
    || (b == Moment(a.files, Failed) && !a.pc.Migrated?)
    || match a.pc
       case ReadProject =>
         && PROJECT_KEY in a.files
         && parse(TrimSpace(a.files[PROJECT_KEY])).Some?
         && b == Moment(a.files, Choose(a.files[PROJECT_KEY]))
       case Choose(data) =>
         b == Moment(a.files, Inspect(data, MigrationTarget(a.files, data)))
       case Inspect(data, target) =>
         if target !in a.files then b == Moment(a.files, Open(data, target))
         else TrimSpace(a.files[target]) == TrimSpace(data) && b == Moment(a.files, RemoveProject(target))
       case Open(data, target) =>
         b == Moment(a.files[target := ""], Write(data, target, 0))
       case Write(data, target, n) =>
         if n < |data| then
           && b.pc.Write? && n < b.pc.written <= |data|
           && b == Moment(a.files[target := data[..b.pc.written]], Write(data, target, b.pc.written))
         else b == Moment(a.files, RemoveProject(target))
       case RemoveProject(target) =>
         b == Moment(a.files - {PROJECT_KEY}, Migrated(target))
       case Migrated(_) => false
       case Failed => false
  }

  /** What one process that runs alone can do. A crash is a run that goes no further. */
  ghost predicate IsRun(parse: Parser, run: seq<Moment>) {
    && run != []
    && run[0].pc == ReadProject
    && forall i :: 0 <= i < |run| - 1 ==> Step(parse, run[i], run[i + 1])
  }

  /** What is true of the files at each point of the code. */
  ghost predicate Inv(start: Files, m: Moment) {
    match m.pc
    case ReadProject => m.files == start
    case Choose(data) => m.files == start && PROJECT_KEY in start && data == start[PROJECT_KEY]
    case Inspect(data, target) =>
      m.files == start && PROJECT_KEY in start && data == start[PROJECT_KEY] && target in {AGE_KEY, LEGACY_KEY}
    case Open(data, target) =>
      m.files == start && PROJECT_KEY in start && data == start[PROJECT_KEY] && target in {AGE_KEY, LEGACY_KEY}
      && target !in start
    case Write(data, target, n) =>
      && PROJECT_KEY in start && data == start[PROJECT_KEY] && target in {AGE_KEY, LEGACY_KEY} && target !in start
      && n <= |data| && m.files == start[target := data[..n]]
    case RemoveProject(target) =>
      && PROJECT_KEY in start && target in {AGE_KEY, LEGACY_KEY}
      && target in m.files && TrimSpace(m.files[target]) == TrimSpace(start[PROJECT_KEY])
      && (m.files == start || (target !in start && m.files == start[target := start[PROJECT_KEY]]))
    case Migrated(target) =>
      && PROJECT_KEY in start && target in {AGE_KEY, LEGACY_KEY}
      && target in m.files && TrimSpace(m.files[target]) == TrimSpace(start[PROJECT_KEY])
      && (m.files == start - {PROJECT_KEY}
          || (target !in start && m.files == start[target := start[PROJECT_KEY]] - {PROJECT_KEY}))
    case Failed =>
      || m.files == start
      || exists target, n ::
           && PROJECT_KEY in start && target in {AGE_KEY, LEGACY_KEY} && target !in start
           && 0 <= n <= |start[PROJECT_KEY]| && m.files == start[target := start[PROJECT_KEY][..n]]
  }

  lemma InvStep(parse: Parser, start: Files, a: Moment, b: Moment)
    requires Inv(start, a) && Step(parse, a, b)
    ensures Inv(start, b)
  {
    if b.pc == Failed && a.pc.RemoveProject? && a.files != start {
      assert start[PROJECT_KEY][..|start[PROJECT_KEY]|] == start[PROJECT_KEY];
    }
    if a.pc.Write? && b.pc.RemoveProject? {
      assert a.pc.data[..|a.pc.data|] == a.pc.data;
    }
  }

  lemma {:induction false} InvHolds(parse: Parser, run: seq<Moment>, i: nat)
    requires IsRun(parse, run) && i < |run|
    ensures Inv(run[0].files, run[i])
  {
    if i > 0 {
      InvHolds(parse, run, i - 1);
      InvStep(parse, run[0].files, run[i - 1], run[i]);
    }
  }

  lemma KeyStillHeld(start: Files, m: Moment, p: Path)
    requires Inv(start, m) && p in {AGE_KEY, LEGACY_KEY, PROJECT_KEY} && p in start
    ensures Held(m.files, TrimSpace(start[p]))
  {
    var q := if p == PROJECT_KEY && m.pc.Migrated? then m.pc.target else p;
    assert q in m.files && TrimSpace(m.files[q]) == TrimSpace(start[p]);
  }

  lemma InvKeepsKeys(start: Files, m: Moment)
    requires Inv(start, m)
    ensures NothingLost(start, m.files)
  {
    forall key | Held(start, key) ensures Held(m.files, key) {
      var p :| p in {AGE_KEY, LEGACY_KEY, PROJECT_KEY} && p in start && TrimSpace(start[p]) == key;
      KeyStillHeld(start, m, p);
    }
  }

  /** However far one migration gets, and wherever it crashes, no key is lost and
      no existing file is replaced. */
  lemma MigrationLosesNothing(parse: Parser, run: seq<Moment>, i: nat)
    requires IsRun(parse, run) && i < |run|
    ensures NothingLost(run[0].files, run[i].files)
  {
    InvHolds(parse, run, i);
    InvKeepsKeys(run[0].files, run[i]);
  }

  /** The files and path a migration that reaches its end leaves behind, or None
      when it must refuse. */
  function MigrateResult(parse: Parser, files: Files): Option<(Files, Path)> {
    if PROJECT_KEY !in files || parse(TrimSpace(files[PROJECT_KEY])).None? then None
    else
      var data := files[PROJECT_KEY];
      var target := MigrationTarget(files, data);
      if target !in files then Some((files[target := data] - {PROJECT_KEY}, target))
      else if TrimSpace(files[target]) == TrimSpace(data) then Some((files - {PROJECT_KEY}, target))
      else None
  }

  /** The path is free, or holds the same key. */
  predicate Fits(files: Files, p: Path, key: string) {
    p in files ==> TrimSpace(files[p]) == key
  }

  /** A migration must refuse exactly when private.key has no key that parses, or age.key
      and legacy.age.key both hold other keys. Otherwise the key goes to the first of the
      two that fits, which keeps its text if it is there, and no other file changes. */
  lemma MigratesWhen(parse: Parser, files: Files)
    ensures MigrateResult(parse, files).Some? <==>
            && PROJECT_KEY in files && parse(TrimSpace(files[PROJECT_KEY])).Some?
            && (Fits(files, AGE_KEY, TrimSpace(files[PROJECT_KEY])) || Fits(files, LEGACY_KEY, TrimSpace(files[PROJECT_KEY])))
    ensures MigrateResult(parse, files).Some? ==>
              var ((after, target), key) := (MigrateResult(parse, files).value, files[PROJECT_KEY]);
              && target == (if Fits(files, AGE_KEY, TrimSpace(key)) then AGE_KEY else LEGACY_KEY)
              && after.Keys == files.Keys - {PROJECT_KEY} + {target}
              && (forall p :: p in after ==> after[p] == if p in files then files[p] else key)
  {
  }

  /** The facts the steps before the removal leave for the final result. */
  ghost predicate OnCourse(parse: Parser, start: Files, m: Moment) {
    match m.pc
    case ReadProject => true
    case Choose(data) => parse(TrimSpace(data)).Some?
    case Inspect(data, target) => parse(TrimSpace(data)).Some? && target == MigrationTarget(start, data)
    case Open(data, target) => parse(TrimSpace(data)).Some? && target == MigrationTarget(start, data)
    case Write(data, target, _) => parse(TrimSpace(data)).Some? && target == MigrationTarget(start, data)
    case RemoveProject(target) =>
      Inv(start, m) && MigrateResult(parse, start) == Some((m.files - {PROJECT_KEY}, target))
    case Migrated(target) => MigrateResult(parse, start) == Some((m.files, target))
    case Failed => true
  }

  lemma {:induction false} OnCourseHolds(parse: Parser, run: seq<Moment>, i: nat)
    requires IsRun(parse, run) && i < |run|
    ensures OnCourse(parse, run[0].files, run[i])
  {
    InvHolds(parse, run, i);
    if i > 0 {
      OnCourseHolds(parse, run, i - 1);
      InvHolds(parse, run, i - 1);
      var a, b := run[i - 1], run[i];
      assert Step(parse, a, b);
      if a.pc.Write? && b.pc.RemoveProject? {
        assert a.pc.data[..|a.pc.data|] == a.pc.data;
      }
    }
  }

  /** A finished migration has exactly the outcome MigrateResult names: the target
      holds the project-local key and private.key is gone. */
  lemma MigrationOutcome(parse: Parser, run: seq<Moment>)
    requires IsRun(parse, run) && run[|run| - 1].pc.Migrated?
    ensures MigrateResult(parse, run[0].files) == Some((run[|run| - 1].files, run[|run| - 1].pc.target))
    ensures var end := run[|run| - 1];
            && PROJECT_KEY !in end.files
            && end.pc.target in end.files
            && TrimSpace(end.files[end.pc.target]) == TrimSpace(run[0].files[PROJECT_KEY])
  {
    OnCourseHolds(parse, run, |run| - 1);
    InvHolds(parse, run, |run| - 1);
  }

  /** Two processes that migrate at once, each doing its own steps on the same files. */
  datatype Pair = Pair(files: Files, first: Pc, second: Pc)

  ghost predicate PairStep(parse: Parser, a: Pair, b: Pair) {
    || (a.second == b.second && Step(parse, Moment(a.files, a.first), Moment(b.files, b.first)))
    || (a.first == b.first && Step(parse, Moment(a.files, a.second), Moment(b.files, b.second)))
  }

  ghost predicate IsPairRun(parse: Parser, run: seq<Pair>) {
    && run != []
    && run[0].first == ReadProject && run[0].second == ReadProject
    && forall i :: 0 <= i < |run| - 1 ==> PairStep(parse, run[i], run[i + 1])
  }

  /* ---- When two migrations are safe ---- */

  /** Some run of two migrations from these files ends without a key that was held. */
  ghost predicate CanLose(parse: Parser, start: Files) {
    exists run: seq<Pair>, key :: LosesKey(parse, start, run, key)
  }

  ghost predicate LosesKey(parse: Parser, start: Files, run: seq<Pair>, key: string) {
    && IsPairRun(parse, run) && run[0].files == start
    && Held(start, key) && !Held(run[|run| - 1].files, key)
  }

  /** private.key has a key to migrate that no other file holds, into a new file. */
  predicate OnlyCopy(parse: Parser, start: Files) {
    && PROJECT_KEY in start && parse(TrimSpace(start[PROJECT_KEY])).Some?
    && TrimSpace(start[PROJECT_KEY]) != ""
    && MigrationTarget(start, start[PROJECT_KEY]) !in start
    && (forall p | p in {AGE_KEY, LEGACY_KEY} :: p in start ==> TrimSpace(start[p]) != TrimSpace(start[PROJECT_KEY]))
  }

  predicate Secondary(p: Path) {
    p == AGE_KEY || p == LEGACY_KEY
  }

  /** A target that did not exist at the start, or held the same key then. */
  predicate TargetOk(start: Files, target: Path) {
    && Secondary(target) && PROJECT_KEY in start
    && (target in start ==> TrimSpace(start[target]) == TrimSpace(start[PROJECT_KEY]))
  }

  /** What each of the two knows, whatever the other one does. */
  ghost predicate PcOk(parse: Parser, start: Files, files: Files, pc: Pc) {
    match pc
    case ReadProject => true
    case Failed => true
    case Choose(data) => FromProject(parse, start, data)
    case Inspect(data, target) => FromProject(parse, start, data) && Secondary(target)
    case Open(data, target) => FromProject(parse, start, data) && Secondary(target) && target !in start
    case Write(data, target, n) =>
      FromProject(parse, start, data) && Secondary(target) && target !in start && target in files && n <= |data|
    case RemoveProject(target) => Migratable(parse, start) && TargetOk(start, target) && target in files
    case Migrated(target) => Migratable(parse, start) && TargetOk(start, target) && target in files
  }

  predicate Migratable(parse: Parser, start: Files) {
    PROJECT_KEY in start && parse(TrimSpace(start[PROJECT_KEY])).Some?
  }

  predicate FromProject(parse: Parser, start: Files, data: string) {
    Migratable(parse, start) && data == start[PROJECT_KEY]
  }

  /** Old files stay as they are, new ones hold a beginning of the project's key, and the
      project's file goes only when there is a target. */
  ghost predicate FilesOk(parse: Parser, start: Files, files: Files) {
    && (forall p :: p in start && p != PROJECT_KEY ==> p in files && files[p] == start[p])
    && (PROJECT_KEY in files ==> PROJECT_KEY in start && files[PROJECT_KEY] == start[PROJECT_KEY])
    && (forall p :: p in files && p !in start ==> Secondary(p) && PROJECT_KEY in start && files[p] <= start[PROJECT_KEY])
    && (PROJECT_KEY in start && PROJECT_KEY !in files ==>
          Migratable(parse, start) && exists t :: t in files && TargetOk(start, t))
  }

  ghost predicate PairInv(parse: Parser, start: Files, s: Pair) {
    FilesOk(parse, start, s.files) && PcOk(parse, start, s.files, s.first) && PcOk(parse, start, s.files, s.second)
  }

  /** One step of either process, as far as the files go. */
  lemma StepKeepsFiles(parse: Parser, start: Files, a: Moment, b: Moment)
    requires FilesOk(parse, start, a.files) && PcOk(parse, start, a.files, a.pc) && Step(parse, a, b)
    ensures FilesOk(parse, start, b.files) && PcOk(parse, start, b.files, b.pc)
    ensures forall p :: p in a.files && p != PROJECT_KEY ==> p in b.files
  {
    if a.pc.RemoveProject? && b.pc.Migrated? {
      RemovalKeepsFiles(parse, start, a.files, a.pc.target);
    } else if PROJECT_KEY in start && PROJECT_KEY !in a.files {
      var t :| t in a.files && TargetOk(start, t);
      assert t in b.files;
    }
  }

  lemma RemovalKeepsFiles(parse: Parser, start: Files, files: Files, target: Path)
    requires FilesOk(parse, start, files) && PcOk(parse, start, files, RemoveProject(target))
    ensures FilesOk(parse, start, files - {PROJECT_KEY})
    ensures PcOk(parse, start, files - {PROJECT_KEY}, Migrated(target))
  {
    assert target in files - {PROJECT_KEY} && TargetOk(start, target);
  }

  lemma PairStepKeeps(parse: Parser, start: Files, s: Pair, t: Pair)
    requires PairInv(parse, start, s) && PairStep(parse, s, t)
    ensures PairInv(parse, start, t)
  {
    if s.second == t.second && Step(parse, Moment(s.files, s.first), Moment(t.files, t.first)) {
      StepKeepsFiles(parse, start, Moment(s.files, s.first), Moment(t.files, t.first));
    } else {
      StepKeepsFiles(parse, start, Moment(s.files, s.second), Moment(t.files, t.second));
    }
  }

  lemma {:induction false} PairInvHolds(parse: Parser, run: seq<Pair>, i: nat)
    requires IsPairRun(parse, run) && i < |run|
    ensures PairInv(parse, run[0].files, run[i])
  {
    if i > 0 {
      PairInvHolds(parse, run, i - 1);
      PairStepKeeps(parse, run[0].files, run[i - 1], run[i]);
    }
  }

  lemma {:induction false} BlankBeginning(s: string, n: nat)
    requires TrimSpace(s) == "" && n <= |s|
    ensures TrimSpace(s[..n]) == ""
  {
    AllBlank(s);
    BlankTrims(s[..n]);
  }

  lemma {:induction false} AllBlank(s: string)
    requires TrimSpace(s) == ""
    ensures forall i :: 0 <= i < |s| ==> IsSpace(s[i])
  {
    if s != "" {
      if IsSpace(s[0]) {
        AllBlank(s[1..]);
      } else {
        KeepsFirst(s);
      }
    }
  }

  lemma {:induction false} KeepsFirst(s: string)
    requires s != "" && !IsSpace(s[0])
    ensures TrimRight(s) != ""
    decreases |s|
  {
    if IsSpace(s[|s| - 1]) {
      KeepsFirst(s[..|s| - 1]);
    }
  }

  lemma {:induction false} BlankTrims(s: string)
    requires forall i :: 0 <= i < |s| ==> IsSpace(s[i])
    ensures TrimSpace(s) == ""
  {
    if s != "" {
      BlankTrims(s[1..]);
    }
  }

  /** Without the only copy of a key in private.key, nothing is lost. */
  lemma SafeMigrations(parse: Parser, start: Files, s: Pair, key: string)
    requires PairInv(parse, start, s) && Held(start, key) && !OnlyCopy(parse, start)
    ensures Held(s.files, key)
  {
    var p :| p in {AGE_KEY, LEGACY_KEY, PROJECT_KEY} && p in start && TrimSpace(start[p]) == key;
    if p == PROJECT_KEY && PROJECT_KEY !in s.files {
      SafelyRemoved(parse, start, s.files);
    } else {
      assert p in s.files && s.files[p] == start[p];
    }
  }

  lemma SafelyRemoved(parse: Parser, start: Files, files: Files)
    requires FilesOk(parse, start, files) && !OnlyCopy(parse, start)
    requires PROJECT_KEY in start && PROJECT_KEY !in files
    ensures Held(files, TrimSpace(start[PROJECT_KEY]))
  {
    var t :| t in files && TargetOk(start, t);
    var key := TrimSpace(start[PROJECT_KEY]);
    if t in start {
      assert files[t] == start[t];
    } else if key == "" {
      BlankTarget(parse, start, files, t);
    } else {
      var q :| q in {AGE_KEY, LEGACY_KEY} && q in start && TrimSpace(start[q]) == key;
      assert files[q] == start[q];
    }
  }

  lemma BlankTarget(parse: Parser, start: Files, files: Files, t: Path)
    requires FilesOk(parse, start, files) && t in files && t !in start
    requires PROJECT_KEY in start && TrimSpace(start[PROJECT_KEY]) == ""
    ensures TrimSpace(files[t]) == ""
  {
    BlankBeginning(start[PROJECT_KEY], |files[t]|);
    assert files[t] == start[PROJECT_KEY][..|files[t]|];
  }

  /** The write that stores the key is not exclusive: a second process that found no
      target before the first one finished empties it again after private.key is gone.
      Two overlapping migrations can lose a key exactly when private.key is its only copy
      and the target does not exist yet. */
  lemma ConcurrentMigrationCanLoseTheKey(parse: Parser, start: Files)
    ensures CanLose(parse, start) <==> OnlyCopy(parse, start)
  {
    if run: seq<Pair>, key :| LosesKey(parse, start, run, key) {
      PairInvHolds(parse, run, |run| - 1);
      if !OnlyCopy(parse, start) {
        SafeMigrations(parse, start, run[|run| - 1], key);
      }
    }
    if OnlyCopy(parse, start) {
      var run := OverlappingMigrations(parse, start);
      var data := start[PROJECT_KEY];
      assert PROJECT_KEY in start && Held(start, TrimSpace(data));
      assert TrimSpace("") == "";
      assert LosesKey(parse, start, run, TrimSpace(data));
    }
  }

  /** The files after private.key has moved to its target. */
  function Moved(start: Files): Files
    requires PROJECT_KEY in start
  {
    start[MigrationTarget(start, start[PROJECT_KEY]) := start[PROJECT_KEY]] - {PROJECT_KEY}
  }

  /** The second process inspects the files, the first one migrates, and then the
      second one opens its target. */
  lemma OverlappingMigrations(parse: Parser, start: Files) returns (run: seq<Pair>)
    requires OnlyCopy(parse, start)
    ensures IsPairRun(parse, run) && run[0].files == start
    ensures run[|run| - 1].files == Moved(start)[MigrationTarget(start, start[PROJECT_KEY]) := ""]
  {
    var data := start[PROJECT_KEY];
    var target := MigrationTarget(start, data);
    var late := Open(data, target);
    var first := OneMigration(parse, start);
    var middle := seq(|first|, i requires 0 <= i < |first| => Pair(first[i].files, first[i].pc, late));
    forall i | 0 <= i < |middle| - 1 ensures PairStep(parse, middle[i], middle[i + 1]) {
      assert Step(parse, first[i], first[i + 1]);
    }
    var last := Pair(Moved(start)[target := ""], Migrated(target), Write(data, target, 0));
    assert PairStep(parse, middle[|middle| - 1], last);
    var opening := [
      Pair(start, ReadProject, ReadProject),
      Pair(start, ReadProject, Choose(data)),
      Pair(start, ReadProject, Inspect(data, target))
    ];
    assert PairStep(parse, opening[2], middle[0]);
    run := opening + middle + [last];
    forall i | 0 <= i < |run| - 1 ensures PairStep(parse, run[i], run[i + 1]) {
      if 3 <= i < 2 + |middle| {
        assert run[i] == middle[i - 3] && run[i + 1] == middle[i - 2];
      }
    }
  }

  /** The successful run of a single migration of private.key into a new file. */
  lemma OneMigration(parse: Parser, start: Files) returns (run: seq<Moment>)
    requires OnlyCopy(parse, start)
    ensures |run| == 8 && IsRun(parse, run) && run[0].files == start
    ensures run[7] == Moment(Moved(start), Migrated(MigrationTarget(start, start[PROJECT_KEY])))
  {
    var data := start[PROJECT_KEY];
    var target := MigrationTarget(start, data);
    var both := start[target := data];
    assert data[..|data|] == data;
    assert start[target := ""][target := data] == both;
    run := [
      Moment(start, ReadProject),
      Moment(start, Choose(data)),
      Moment(start, Inspect(data, target)),
      Moment(start, Open(data, target)),
      Moment(start[target := ""], Write(data, target, 0)),
      Moment(both, Write(data, target, |data|)),
      Moment(both, RemoveProject(target))
    ];
    run := run + [Moment(Moved(start), Migrated(target))];
  }

  /** The operator's key directory, as the code steps through it. */
  class KeyDirectory {
    var files: Files

    constructor (files: Files)
      ensures this.files == files
    {
      this.files := files;
    }

    /** Writes the key in as many pieces as the system takes. */
    method StoreKey(parse: Parser, data: string, target: Path, works: bool, ghost before: seq<Moment>)
      returns (ok: bool, ghost run: seq<Moment>)
      requires IsRun(parse, before) && before[|before| - 1] == Moment(files, Open(data, target))
      modifies this
      ensures IsRun(parse, run) && run[0] == before[0]
      ensures run[|run| - 1] == Moment(files, if ok then Write(data, target, |data|) else Failed)
      ensures works ==> ok
    {
      files := files[target := ""];
      run := Extend(parse, before, Moment(files, Write(data, target, 0)));
      var written := 0;
      while written < |data|
        invariant 0 <= written <= |data|
        invariant IsRun(parse, run) && run[0] == before[0]
        invariant run[|run| - 1] == Moment(files, Write(data, target, written))
      {
        var ioFails: bool := *;
        if !works && ioFails {
          run := Extend(parse, run, Moment(files, Failed));
          return false, run;
        }
        var more :| written < more <= |data|;
        written := more;
        files := files[target := data[..written]];
        run := Extend(parse, run, Moment(files, Write(data, target, written)));
      }
      ok := true;
    }

    /** Every failed call returns early; works says that none fails. The ghost run records
        each moment at which the process could have crashed. */
    method MigrateLegacyIdentity(parse: Parser, works: bool) returns (r: Result<Path, string>, ghost run: seq<Moment>)
      modifies this
      ensures IsRun(parse, run) && run[0].files == old(files)
      ensures run[|run| - 1] == Moment(files, if r.Ok? then Migrated(r.value) else Failed)
      ensures NothingLost(old(files), files)
      ensures r.Ok? ==> MigrateResult(parse, old(files)) == Some((files, r.value))
      ensures works ==> (r.Ok? <==> MigrateResult(parse, old(files)).Some?)
    {
      run := [Moment(files, ReadProject)];
      r, run := MigrateFrom(parse, works, run);
      MigrationLosesNothing(parse, run, |run| - 1);
      if r.Ok? {
        MigrationOutcome(parse, run);
      }
    }

    method MigrateFrom(parse: Parser, works: bool, ghost before: seq<Moment>) returns (r: Result<Path, string>, ghost run: seq<Moment>)
      requires before == [Moment(files, ReadProject)]
      modifies this
      ensures IsRun(parse, run) && run[0] == before[0]
      ensures run[|run| - 1] == Moment(files, if r.Ok? then Migrated(r.value) else Failed)
      ensures works && MigrateResult(parse, old(files)).Some? ==> r.Ok?
    {
      run := before;
      var ioFails: bool := *;
      if PROJECT_KEY !in files || (!works && ioFails) {
        run := Extend(parse, run, Moment(files, Failed));
        return Err("read legacy age identity"), run;
      }
      var data := files[PROJECT_KEY];
      if parse(TrimSpace(data)).None? {
        run := Extend(parse, run, Moment(files, Failed));
        return Err("parse legacy age identity"), run;
      }
      run := Extend(parse, run, Moment(files, Choose(data)));
      ioFails := *;
      if !works && ioFails {
        run := Extend(parse, run, Moment(files, Failed));
        return Err("read primary age identity"), run;
      }
      var target := MigrationTarget(files, data);
      run := Extend(parse, run, Moment(files, Inspect(data, target)));
      r, run := MoveTo(parse, data, target, works, run);
    }

    method MoveTo(parse: Parser, data: string, target: Path, works: bool, ghost before: seq<Moment>)
      returns (r: Result<Path, string>, ghost run: seq<Moment>)
      requires IsRun(parse, before) && before[|before| - 1] == Moment(files, Inspect(data, target))
      modifies this
      ensures IsRun(parse, run) && run[0] == before[0]
      ensures run[|run| - 1] == Moment(files, if r.Ok? then Migrated(r.value) else Failed)
      ensures works && (target !in old(files) || TrimSpace(old(files)[target]) == TrimSpace(data)) ==> r.Ok?
    {
      run := before;
      if target in files {
        if TrimSpace(files[target]) != TrimSpace(data) {
          run := Extend(parse, run, Moment(files, Failed));
          return Err("cannot migrate legacy age identity: target already contains a different key"), run;
        }
      } else {
        run := Extend(parse, run, Moment(files, Open(data, target)));
        var ok;
        ok, run := StoreKey(parse, data, target, works, run);
        if !ok {
          return Err("store legacy age identity outside repository"), run;
        }
      }
      run := Extend(parse, run, Moment(files, RemoveProject(target)));
      r, run := RemoveSource(parse, target, works, run);
    }

    method RemoveSource(parse: Parser, target: Path, works: bool, ghost before: seq<Moment>)
      returns (r: Result<Path, string>, ghost run: seq<Moment>)
      requires IsRun(parse, before) && before[|before| - 1] == Moment(files, RemoveProject(target))
      modifies this
      ensures IsRun(parse, run) && run[0] == before[0]
      ensures run[|run| - 1] == Moment(files, if r.Ok? then Migrated(r.value) else Failed)
      ensures works ==> r.Ok?
    {
      run := before;
      var ioFails: bool := *;
      if !works && ioFails {
        run := Extend(parse, run, Moment(files, Failed));
        return Err("secure migrated age identity or remove the old one"), run;
      }
      files := files - {PROJECT_KEY};
      run := Extend(parse, run, Moment(files, Migrated(target)));
      r := Ok(target);
    }
  }

  lemma Extend(parse: Parser, run: seq<Moment>, next: Moment) returns (longer: seq<Moment>)
    requires IsRun(parse, run) && Step(parse, run[|run| - 1], next)
    ensures IsRun(parse, longer) && longer[0] == run[0] && longer[|longer| - 1] == next
  {
    longer := run + [next];
  }
}
