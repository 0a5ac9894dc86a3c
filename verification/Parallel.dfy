/** Bounded fan-out over hosts: every schedule of the goroutines RunParallel and
    RunParallelFunc start (internal/ssh/parallel.go). */
module Parallel {
  type Host = string

  /** What running the command on a host gave. */
  datatype Outcome = Outcome(output: string, exitCode: int, failed: bool)

  datatype Entry = Unwritten | Written(host: Host, outcome: Outcome)

  const MAX_PARALLEL_HOSTS: nat := 16

  function ParallelLimit(n: nat): nat {
    if n < MAX_PARALLEL_HOSTS then n else MAX_PARALLEL_HOSTS
  }

  /** Waiting for a slot, running while it holds one, finished but not recorded, done. */
  datatype Pc = Waiting | Running | Released | Recorded

  /** results holds one slot per goroutine (RunParallel); appended is the shared slice
      of RunParallelFunc, which grows under a mutex. */
  datatype State = State(pcs: seq<Pc>, results: seq<Entry>, appended: seq<Entry>)

  function Init(n: nat): State {
    State(seq(n, _ => Waiting), seq(n, _ => Unwritten), [])
  }

  function InFlight(pcs: seq<Pc>): nat {
    if pcs == [] then 0 else (if pcs[0] == Running then 1 else 0) + InFlight(pcs[1..])
  }

  /** Goroutine i moves. The semaphore admits it only while fewer than the limit run.
      What its command gives is run(i). */
  ghost predicate Step(hosts: seq<Host>, run: nat -> Outcome, s: State, i: nat, t: State) {
    && |s.pcs| == |s.results| == |hosts| && i < |hosts|
    && match s.pcs[i]
       case Waiting => InFlight(s.pcs) < ParallelLimit(|hosts|) && t == s.(pcs := s.pcs[i := Running])
       case Running => t == s.(pcs := s.pcs[i := Released])
       case Released =>
         t == State(s.pcs[i := Recorded], s.results[i := Written(hosts[i], run(i))],
                    s.appended + [Written(hosts[i], run(i))])
       case Recorded => false
  }

  ghost predicate Next(hosts: seq<Host>, run: nat -> Outcome, s: State, t: State) {
    exists i: nat :: Step(hosts, run, s, i, t)
  }

  ghost predicate IsSchedule(hosts: seq<Host>, run: nat -> Outcome, states: seq<State>) {
    && states != [] && states[0] == Init(|hosts|)
    && forall k :: 0 <= k < |states| - 1 ==> Next(hosts, run, states[k], states[k + 1])
  }

  predicate Done(s: State) {
    forall i | 0 <= i < |s.pcs| :: s.pcs[i] == Recorded
  }

  /** The sequential form: the command on one host after the other. */
  function SequentialMap(hosts: seq<Host>, run: nat -> Outcome): (r: seq<Entry>)
    ensures |r| == |hosts|
  {
    seq(|hosts|, i requires 0 <= i < |hosts| => Written(hosts[i], run(i)))
  }

  /* ---- Safety ---- */

  lemma {:induction false} InFlightUpdate(pcs: seq<Pc>, i: nat, pc: Pc)
    requires i < |pcs|
    ensures InFlight(pcs[i := pc]) + (if pcs[i] == Running then 1 else 0)
            == InFlight(pcs) + (if pc == Running then 1 else 0)
  {
    if i > 0 {
      InFlightUpdate(pcs[1..], i - 1, pc);
      assert pcs[i := pc][1..] == pcs[1..][i - 1 := pc];
    } else {
      assert pcs[i := pc][1..] == pcs[1..];
    }
  }

  lemma {:induction false} NoneInFlight(pcs: seq<Pc>)
    ensures InFlight(pcs) > 0 <==> Running in pcs
  {
    if pcs != [] {
      NoneInFlight(pcs[1..]);
    }
  }

  ghost predicate SlotsOk(hosts: seq<Host>, run: nat -> Outcome, s: State) {
    && |s.pcs| == |s.results| == |hosts|
    && InFlight(s.pcs) <= ParallelLimit(|hosts|)
    && forall i :: 0 <= i < |hosts| ==>
         s.results[i] == if s.pcs[i] == Recorded then Written(hosts[i], run(i)) else Unwritten
  }

  /** The entries recorded so far, in host order. */
  function Collected(results: seq<Entry>): seq<Entry> {
    if results == [] then []
    else (if results[0].Written? then [results[0]] else []) + Collected(results[1..])
  }

  lemma {:induction false} CollectOne(results: seq<Entry>, i: nat, e: Entry)
    requires i < |results| && results[i].Unwritten? && e.Written?
    ensures multiset(Collected(results[i := e])) == multiset(Collected(results)) + multiset{e}
  {
    if i > 0 {
      CollectOne(results[1..], i - 1, e);
      assert results[i := e][1..] == results[1..][i - 1 := e];
    } else {
      assert results[i := e][1..] == results[1..];
    }
  }

  lemma {:induction false} CollectAll(results: seq<Entry>)
    requires forall i :: 0 <= i < |results| ==> results[i].Written?
    ensures Collected(results) == results
  {
    if results != [] {
      CollectAll(results[1..]);
    }
  }

  lemma {:induction false} NothingCollected(n: nat)
    ensures Collected(seq(n, _ => Unwritten)) == [] && InFlight(seq(n, _ => Waiting)) == 0
  {
    if n > 0 {
      NothingCollected(n - 1);
      assert seq(n, _ => Unwritten)[1..] == seq(n - 1, _ => Unwritten);
      assert seq(n, _ => Waiting)[1..] == seq(n - 1, _ => Waiting);
    }
  }

  lemma StepKeeps(hosts: seq<Host>, run: nat -> Outcome, s: State, t: State)
    requires SlotsOk(hosts, run, s) && Next(hosts, run, s, t)
    requires multiset(s.appended) == multiset(Collected(s.results))
    ensures SlotsOk(hosts, run, t)
    ensures multiset(t.appended) == multiset(Collected(t.results))
    ensures Work(t.pcs) < Work(s.pcs)
  {
    var i: nat :| Step(hosts, run, s, i, t);
    WorkUpdate(s.pcs, i, t.pcs[i]);
    StepKeepsSlots(hosts, run, s, i, t);
    if s.pcs[i] == Released {
      CollectOne(s.results, i, Written(hosts[i], run(i)));
    }
  }

  lemma StepKeepsSlots(hosts: seq<Host>, run: nat -> Outcome, s: State, i: nat, t: State)
    requires SlotsOk(hosts, run, s) && Step(hosts, run, s, i, t)
    ensures SlotsOk(hosts, run, t)
  {
    InFlightUpdate(s.pcs, i, t.pcs[i]);
  }

  lemma {:induction false} ScheduleKeeps(hosts: seq<Host>, run: nat -> Outcome, states: seq<State>, k: nat)
    requires IsSchedule(hosts, run, states) && k < |states|
    ensures SlotsOk(hosts, run, states[k])
    ensures multiset(states[k].appended) == multiset(Collected(states[k].results))
    ensures Work(states[k].pcs) + k <= 3 * |hosts|
  {
    if k == 0 {
      NothingCollected(|hosts|);
      WorkBound(Init(|hosts|).pcs);
    } else {
      ScheduleKeeps(hosts, run, states, k - 1);
      StepKeeps(hosts, run, states[k - 1], states[k]);
    }
  }

  /** Under every schedule at most min(n, 16) commands are in flight at any moment. */
  lemma BoundedParallelism(hosts: seq<Host>, run: nat -> Outcome, states: seq<State>, k: nat)
    requires IsSchedule(hosts, run, states) && k < |states|
    ensures InFlight(states[k].pcs) <= ParallelLimit(|hosts|)
    ensures ParallelLimit(|hosts|) <= |hosts| && ParallelLimit(|hosts|) <= 16
  {
    ScheduleKeeps(hosts, run, states, k);
  }

  /** The first k goroutines run, the others wait. */
  function FirstRun(n: nat, k: nat): State {
    Init(n).(pcs := seq(n, i requires 0 <= i < n => if i < k then Running else Waiting))
  }

  lemma {:induction false} CountRunning(n: nat, k: nat)
    requires k <= n
    ensures InFlight(FirstRun(n, k).pcs) == k
  {
    if k == 0 {
      NothingCollected(n);
      assert FirstRun(n, 0).pcs == seq(n, _ => Waiting);
    } else {
      CountRunning(n, k - 1);
      InFlightUpdate(FirstRun(n, k - 1).pcs, k - 1, Running);
      assert FirstRun(n, k).pcs == FirstRun(n, k - 1).pcs[k - 1 := Running];
    }
  }

  /** The bound is reached: with 16 hosts or more, 16 commands can be in flight at once, with
      fewer hosts all of them. */
  lemma BoundIsReached(hosts: seq<Host>, run: nat -> Outcome) returns (states: seq<State>)
    ensures IsSchedule(hosts, run, states)
    ensures InFlight(states[|states| - 1].pcs) == if |hosts| < 16 then |hosts| else 16
  {
    var n, limit := |hosts|, ParallelLimit(|hosts|);
    states := seq(limit + 1, k requires 0 <= k <= limit => FirstRun(n, k));
    assert FirstRun(n, 0).pcs == Init(n).pcs;
    forall k: nat | k < limit ensures Next(hosts, run, states[k], states[k + 1]) {
      CountRunning(n, k);
      assert FirstRun(n, k + 1).pcs == FirstRun(n, k).pcs[k := Running];
      assert Step(hosts, run, FirstRun(n, k), k, FirstRun(n, k + 1));
    }
    CountRunning(n, limit);
  }

  /* ---- Progress ---- */

  /** Steps that are left to take. */
  function Work(pcs: seq<Pc>): nat {
    if pcs == [] then 0
    else
      (match pcs[0]
       case Waiting => 3
       case Running => 2
       case Released => 1
       case Recorded => 0) + Work(pcs[1..])
  }

  lemma {:induction false} WorkUpdate(pcs: seq<Pc>, i: nat, pc: Pc)
    requires i < |pcs|
    ensures Work(pcs[i := pc]) + Work([pcs[i]]) == Work(pcs) + Work([pc])
  {
    if i > 0 {
      WorkUpdate(pcs[1..], i - 1, pc);
      assert pcs[i := pc][1..] == pcs[1..][i - 1 := pc];
    } else {
      assert pcs[i := pc][1..] == pcs[1..];
    }
  }

  lemma {:induction false} WorkBound(pcs: seq<Pc>)
    ensures Work(pcs) <= 3 * |pcs|
  {
    if pcs != [] {
      WorkBound(pcs[1..]);
    }
  }

  /** Until all goroutines are done one of them can move: no schedule gets stuck. */
  lemma SomeoneCanMove(hosts: seq<Host>, run: nat -> Outcome, states: seq<State>, k: nat)
    requires IsSchedule(hosts, run, states) && k < |states|
    ensures Done(states[k]) <==> !exists t :: Next(hosts, run, states[k], t)
  {
    ScheduleKeeps(hosts, run, states, k);
    if !Done(states[k]) {
      var j := Movable(hosts, run, states[k]);
      var t := Moves(hosts, run, states[k], j);
      assert Next(hosts, run, states[k], t);
    }
  }

  /** Someone runs or is finished, or all wait and a slot is free. */
  lemma Movable(hosts: seq<Host>, run: nat -> Outcome, s: State) returns (j: nat)
    requires SlotsOk(hosts, run, s) && !Done(s)
    ensures j < |s.pcs| && s.pcs[j] != Recorded
    ensures s.pcs[j] == Waiting ==> InFlight(s.pcs) < ParallelLimit(|hosts|)
  {
    j :| 0 <= j < |s.pcs| && s.pcs[j] != Recorded;
    NoneInFlight(s.pcs);
    if Running in s.pcs {
      j :| 0 <= j < |s.pcs| && s.pcs[j] == Running;
    }
  }

  lemma Moves(hosts: seq<Host>, run: nat -> Outcome, s: State, j: nat) returns (t: State)
    requires |s.pcs| == |s.results| == |hosts| && j < |s.pcs| && s.pcs[j] != Recorded
    requires s.pcs[j] == Waiting ==> InFlight(s.pcs) < ParallelLimit(|hosts|)
    ensures Step(hosts, run, s, j, t)
  {
    match s.pcs[j]
    case Waiting => t := s.(pcs := s.pcs[j := Running]);
    case Running => t := s.(pcs := s.pcs[j := Released]);
    case Released =>
      var e := Written(hosts[j], run(j));
      t := State(s.pcs[j := Recorded], s.results[j := e], s.appended + [e]);
  }

  /** Every schedule ends: it has at most three steps per host. */
  lemma SchedulesEnd(hosts: seq<Host>, run: nat -> Outcome, states: seq<State>)
    requires IsSchedule(hosts, run, states)
    ensures |states| <= 3 * |hosts| + 1
  {
    ScheduleKeeps(hosts, run, states, |states| - 1);
  }

  /** Whatever the schedule, when all are done RunParallel returns what running the
      command on one host after the other gives, also when hosts repeat, and
      RunParallelFunc returns the same entries in some order. */
  lemma ResultsAreSequential(hosts: seq<Host>, run: nat -> Outcome, states: seq<State>)
    requires IsSchedule(hosts, run, states) && Done(states[|states| - 1])
    ensures states[|states| - 1].results == SequentialMap(hosts, run)
    ensures multiset(states[|states| - 1].appended) == multiset(SequentialMap(hosts, run))
  {
    ScheduleKeeps(hosts, run, states, |states| - 1);
    CollectAll(states[|states| - 1].results);
    assert states[|states| - 1].results == SequentialMap(hosts, run);
  }
}
