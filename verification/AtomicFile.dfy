/** Replacing a file by renaming a finished copy over it. The checkpoint is written
    without a sync and without cleaning up (State.Save in internal/deploy/state.go), the
    configuration with both (EncryptConfig in internal/config/secrets.go). */
module AtomicFile {
  import opened Wrappers

  /** What a file holds: a value, or only a part of it, in memory or also on the medium. */
  datatype Copy<T> = Copy(value: T, whole: bool, synced: bool)

  /** The file and the temporary file beside it. */
  datatype Disk<T> = Disk(target: Option<Copy<T>>, temp: Option<Copy<T>>)

  datatype Care = Plain | Synced

  /** The next file operation. */
  datatype Pc = Create | Write | Sync | CloseTemp | Rename | CleanUp | Replaced | Abandoned

  datatype Moment<T> = Moment(disk: Disk<T>, pc: Pc)

  predicate Running(pc: Pc) {
    pc.Create? || pc.Write? || pc.Sync? || pc.CloseTemp? || pc.Rename?
  }

  /** An operation fails. Only the careful writer then removes what it has created. */
  ghost predicate Fails<T>(care: Care, a: Moment<T>, b: Moment<T>) {
    && Running(a.pc) && b.disk == a.disk
    && b.pc == if care.Synced? && !a.pc.Create? then CleanUp else Abandoned
  }

  /** One file operation. A write may reach the file in any number of pieces. */
  ghost predicate Step<T>(care: Care, v: T, a: Moment<T>, b: Moment<T>) {
    || Fails(care, a, b)
    || match a.pc
       case Create => b == Moment(a.disk.(temp := Some(Copy(v, false, false))), Write)
       case Write =>
         || b == Moment(a.disk.(temp := Some(Copy(v, false, false))), Write)
         || b == Moment(a.disk.(temp := Some(Copy(v, true, false))), if care.Synced? then Sync else CloseTemp)
       case Sync => b == Moment(a.disk.(temp := Some(Copy(v, true, true))), CloseTemp)
       case CloseTemp => b == Moment(a.disk, Rename)
       case Rename => b == Moment(Disk(a.disk.temp, None), Replaced)
       case CleanUp => b == Moment(a.disk.(temp := None), Abandoned) || b == Moment(a.disk, Abandoned)
       case Replaced => false
       case Abandoned => false
  }

  /** Any start, also one with a temporary file that an earlier crash has left. */
  ghost predicate IsRun<T>(care: Care, v: T, run: seq<Moment<T>>) {
    && run != [] && run[0].pc == Create
    && forall i :: 0 <= i < |run| - 1 ==> Step(care, v, run[i], run[i + 1])
  }

  function Whole<T>(care: Care, v: T): Option<Copy<T>> {
    Some(Copy(v, true, care.Synced?))
  }

  ghost predicate Inv<T>(care: Care, v: T, before: Option<Copy<T>>, m: Moment<T>) {
    && m.disk.target == (if m.pc.Replaced? then Whole(care, v) else before)
    && (m.pc.Sync? ==> care.Synced? && m.disk.temp == Some(Copy(v, true, false)))
    && (m.pc.CloseTemp? || m.pc.Rename? ==> m.disk.temp == Whole(care, v))
  }

  lemma {:induction false} InvHolds<T>(care: Care, v: T, run: seq<Moment<T>>, i: nat)
    requires IsRun(care, v, run) && i < |run|
    ensures Inv(care, v, run[0].disk.target, run[i])
  {
    if i > 0 {
      InvHolds(care, v, run, i - 1);
      assert Step(care, v, run[i - 1], run[i]);
    }
  }

  /** Wherever the process fails or dies, the file is the old one, or the whole new one
      if and only if the rename has happened. */
  lemma OldOrWholeNew<T>(care: Care, v: T, run: seq<Moment<T>>, i: nat)
    requires IsRun(care, v, run) && i < |run|
    ensures run[i].disk.target == if run[i].pc.Replaced? then Whole(care, v) else run[0].disk.target
  {
    InvHolds(care, v, run, i);
  }

  /* ---- When the machine dies ---- */

  /** What is left of a file: one that was never synced may have lost its tail. */
  function Remains<T>(c: Option<Copy<T>>, tailLost: bool): Option<Copy<T>> {
    if c.Some? && !c.value.synced && tailLost then Some(c.value.(whole := false)) else c
  }

  /** A rename may not have reached the medium either. */
  function AfterPowerLoss<T>(start: Disk<T>, now: Disk<T>, renameLost: bool, tailLost: bool): Option<Copy<T>> {
    Remains(if renameLost then start.target else now.target, tailLost)
  }

  ghost predicate Durable<T>(c: Option<Copy<T>>) {
    c.Some? ==> c.value.whole && c.value.synced
  }

  /** A machine that loses power now finds the old file or the whole new one. */
  ghost predicate Survives<T>(care: Care, v: T, start: Disk<T>, now: Disk<T>) {
    forall renameLost, tailLost ::
      || AfterPowerLoss(start, now, renameLost, tailLost) == start.target
      || AfterPowerLoss(start, now, renameLost, tailLost) == Whole(care, v)
  }

  /** It does at every moment, except after a rename that no sync went before. */
  lemma SurvivesIffSynced<T>(care: Care, v: T, run: seq<Moment<T>>, i: nat)
    requires IsRun(care, v, run) && Durable(run[0].disk.target) && i < |run|
    ensures Survives(care, v, run[0].disk, run[i].disk) <==> care.Synced? || !run[i].pc.Replaced?
  {
    OldOrWholeNew(care, v, run, i);
    if care.Plain? && run[i].pc.Replaced? {
      assert AfterPowerLoss(run[0].disk, run[i].disk, false, true) == Some(Copy(v, false, false));
    }
  }

  lemma Extend<T>(care: Care, v: T, run: seq<Moment<T>>, next: Moment<T>) returns (longer: seq<Moment<T>>)
    requires IsRun(care, v, run) && Step(care, v, run[|run| - 1], next)
    ensures IsRun(care, v, longer) && longer[0] == run[0] && longer[|longer| - 1] == next
  {
    longer := run + [next];
  }
}
