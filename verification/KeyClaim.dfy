/** Any number of processes that run ensureAgeKeyPair at the same time while no
    project-local private.key exists (internal/config/secrets.go). The processes
    share age.key and age.pub; age.key is claimed with an exclusive create. */
module KeyClaim {
  import opened Wrappers
  import KeyFiles

  type Identity = KeyFiles.Identity

  type Recipient = KeyFiles.Recipient

  function RecipientOf(id: Identity): Recipient {
    KeyFiles.RecipientOf(id)
  }

  /** age.key: absent, present with text that does not parse, or a whole identity.
      A file that was created but not (fully) written is Torn. */
  datatype KeyFile = Absent | Torn | Holds(identity: Identity)

  datatype PubFile = NoPub | TornPub | Pub(recipient: Recipient)

  datatype Pc =
    | Start
    | Generate                       // age.key and private.key were both absent
    | Claim(identity: Identity)      // about to create age.key exclusively
    | Fill(identity: Identity)       // owns the empty file
    | Adopt                          // lost the race: reads what exists now
    | CheckPub(identity: Identity)   // writes age.pub only if it is missing
    | OpenPub(identity: Identity)
    | FillPub(identity: Identity)
    | Returned(recipient: Recipient)
    | Refused
    | Crashed

  datatype State = State(key: KeyFile, pub: PubFile, procs: seq<Pc>)

  ghost predicate Init(s: State) {
    && (s.pub.Pub? ==> s.key.Holds? && s.pub.recipient == RecipientOf(s.key.identity))
    && forall p :: 0 <= p < |s.procs| ==> s.procs[p] == Start
  }

  ghost predicate Goes(s: State, t: State, p: nat, key: KeyFile, pub: PubFile, pc: Pc)
    requires p < |s.procs|
  {
    t == State(key, pub, s.procs[p := pc])
  }

  predicate Stopped(pc: Pc) {
    pc.Returned? || pc.Refused? || pc.Crashed?
  }

  /** One file operation of process p, a failure of that operation, or a crash. */
  ghost predicate Step(s: State, t: State, p: nat) {
    p < |s.procs| && !Stopped(s.procs[p]) &&
    (Goes(s, t, p, s.key, s.pub, Refused) || Goes(s, t, p, s.key, s.pub, Crashed) ||
     match s.procs[p]
     case Start =>
       if s.key.Holds? then Goes(s, t, p, s.key, s.pub, CheckPub(s.key.identity))
       else s.key.Absent? && Goes(s, t, p, s.key, s.pub, Generate)
     case Generate => exists id :: Goes(s, t, p, s.key, s.pub, Claim(id))
     case Claim(id) =>
       if s.key.Absent? then Goes(s, t, p, Torn, s.pub, Fill(id)) else Goes(s, t, p, s.key, s.pub, Adopt)
     case Fill(id) =>
       // The whole key may be on disk although the write or the close reports an error.
       Goes(s, t, p, Holds(id), s.pub, OpenPub(id)) || Goes(s, t, p, Holds(id), s.pub, Refused)
     case Adopt => s.key.Holds? && Goes(s, t, p, s.key, s.pub, OpenPub(s.key.identity))
     case CheckPub(id) =>
       Goes(s, t, p, s.key, s.pub, if s.pub.NoPub? then OpenPub(id) else Returned(RecipientOf(id)))
     case OpenPub(id) => Goes(s, t, p, s.key, TornPub, FillPub(id))
     case FillPub(id) => Goes(s, t, p, s.key, Pub(RecipientOf(id)), Returned(RecipientOf(id)))
     case Returned(_) => false
     case Refused => false
     case Crashed => false)
  }

  ghost predicate Next(s: State, t: State) {
    exists p: nat :: Step(s, t, p)
  }

  /** Every schedule: who moves next is arbitrary, and processes may crash. */
  ghost predicate IsRun(run: seq<State>) {
    && run != []
    && Init(run[0])
    && forall i :: 0 <= i < |run| - 1 ==> Next(run[i], run[i + 1])
  }

  predicate Owner(pc: Pc) {
    pc.Fill?
  }

  /** The process trusts identity id to be the one on disk. */
  predicate Trusts(pc: Pc, id: Identity) {
    match pc
    case CheckPub(i) => i == id
    case OpenPub(i) => i == id
    case FillPub(i) => i == id
    case Returned(r) => r == RecipientOf(id)
    case _ => true
  }

  predicate HasKey(pc: Pc) {
    pc.CheckPub? || pc.OpenPub? || pc.FillPub? || pc.Returned?
  }

  ghost predicate Inv(s: State) {
    && (s.pub.Pub? ==> s.key.Holds? && s.pub.recipient == RecipientOf(s.key.identity))
    && (forall p, q :: 0 <= p < |s.procs| && 0 <= q < |s.procs| && Owner(s.procs[p]) && Owner(s.procs[q]) ==> p == q)
    && (forall p :: 0 <= p < |s.procs| && Owner(s.procs[p]) ==> s.key.Torn?)
    && (forall p :: 0 <= p < |s.procs| && HasKey(s.procs[p]) ==> s.key.Holds? && Trusts(s.procs[p], s.key.identity))
    && (forall p :: 0 <= p < |s.procs| && s.procs[p].Adopt? ==> !s.key.Absent?)
  }

  lemma InvStep(s: State, t: State)
    requires Inv(s) && Next(s, t)
    ensures Inv(t) && |t.procs| == |s.procs|
    ensures s.key.Holds? ==> t.key == s.key
    ensures !s.key.Absent? ==> !t.key.Absent?
  {
    var p: nat :| Step(s, t, p);
    StepMovesOne(s, t, p);
    StepKeepsKey(s, t, p);
  }

  lemma StepMovesOne(s: State, t: State, p: nat)
    requires Step(s, t, p)
    ensures |t.procs| == |s.procs| && forall q :: 0 <= q < |s.procs| && q != p ==> t.procs[q] == s.procs[q]
    ensures Owner(t.procs[p]) ==> s.key.Absent?
  {
  }

  lemma StepKeepsKey(s: State, t: State, p: nat)
    requires Inv(s) && Step(s, t, p)
    ensures s.key.Holds? ==> t.key == s.key
    ensures !s.key.Absent? ==> !t.key.Absent?
    ensures t.pub.Pub? ==> t.key.Holds? && t.pub.recipient == RecipientOf(t.key.identity)
    ensures t.key.Torn? || t.key == s.key || Owner(s.procs[p])
    ensures Owner(t.procs[p]) ==> t.key.Torn?
    ensures HasKey(t.procs[p]) ==> t.key.Holds? && Trusts(t.procs[p], t.key.identity)
    ensures t.procs[p].Adopt? ==> !t.key.Absent?
  {
  }

  lemma {:induction false} InvHolds(run: seq<State>, i: nat)
    requires IsRun(run) && i < |run|
    ensures Inv(run[i]) && |run[i].procs| == |run[0].procs|
  {
    if i > 0 {
      InvHolds(run, i - 1);
      InvStep(run[i - 1], run[i]);
    }
  }

  /** Whatever the interleaving and wherever processes crash: all that return return
      the same recipient, and it belongs to the identity age.key holds. */
  lemma AllAgree(run: seq<State>, i: nat, j: nat, p: nat, q: nat)
    requires IsRun(run) && i < |run| && j < |run|
    requires p < |run[i].procs| && q < |run[j].procs|
    requires run[i].procs[p].Returned? && run[j].procs[q].Returned?
    ensures run[i].procs[p].recipient == run[j].procs[q].recipient
    ensures run[j].key.Holds? && RecipientOf(run[j].key.identity) == run[j].procs[q].recipient
  {
    InvHolds(run, i);
    InvHolds(run, j);
    if i <= j { WrittenStays(run, i, j); } else { WrittenStays(run, j, i); }
  }

  lemma NextKeepsKey(run: seq<State>, i: nat)
    requires IsRun(run) && i + 1 < |run|
    ensures run[i].key.Holds? ==> run[i + 1].key == run[i].key
    ensures !run[i].key.Absent? ==> !run[i + 1].key.Absent?
  {
    InvHolds(run, i);
    InvStep(run[i], run[i + 1]);
  }

  /** Once age.key holds an identity it never changes; and it never disappears. */
  lemma {:induction false} WrittenStays(run: seq<State>, i: nat, j: nat)
    requires IsRun(run) && i <= j < |run|
    ensures run[i].key.Holds? ==> run[j].key == run[i].key
    ensures !run[i].key.Absent? ==> !run[j].key.Absent?
    decreases j
  {
    if i < j {
      WrittenStays(run, i, j - 1);
      NextKeepsKey(run, j - 1);
    }
  }

  /** age.pub is only ever the recipient of the identity in age.key. */
  lemma PublishedMatches(run: seq<State>, i: nat)
    requires IsRun(run) && i < |run| && run[i].pub.Pub?
    ensures run[i].key.Holds? && run[i].pub.recipient == RecipientOf(run[i].key.identity)
  {
    InvHolds(run, i);
  }

  /** No process is left that could still fill age.key. */
  ghost predicate Abandoned(s: State) {
    s.key.Torn? && forall p :: 0 <= p < |s.procs| ==> !Owner(s.procs[p])
  }

  lemma AbandonedStep(s: State, t: State)
    requires Abandoned(s) && Next(s, t)
    requires Inv(s)
    ensures Abandoned(t)
  {
  }

  /** The price of the claim: if its owner crashes or fails between create and write,
      the file stays unusable and no process ever returns again. */
  lemma {:induction false} AbandonedClaimBlocksEveryone(run: seq<State>, i: nat, j: nat, p: nat)
    requires IsRun(run) && i <= j < |run| && Abandoned(run[i])
    requires p < |run[j].procs|
    ensures Abandoned(run[j]) && !run[j].procs[p].Returned?
    decreases j
  {
    InvHolds(run, i);
    InvHolds(run, j);
    if i < j {
      AbandonedClaimBlocksEveryone(run, i, j - 1, p);
      InvHolds(run, j - 1);
      AbandonedStep(run[j - 1], run[j]);
    }
  }

  /** A run in which only process p moves. */
  ghost predicate IsSolo(run: seq<State>, p: nat) {
    && run != [] && p < |run[0].procs|
    && forall i :: 0 <= i < |run| - 1 ==> Step(run[i], run[i + 1], p)
  }

  /** A process that starts while age.key does not parse cannot return on its own. */
  lemma {:induction false} NewcomerFailsWhileTorn(run: seq<State>, p: nat, i: nat)
    requires IsSolo(run, p) && i < |run|
    requires run[0].procs[p] == Start && run[0].key.Torn?
    ensures run[i].key.Torn? && |run[i].procs| == |run[0].procs|
    ensures run[i].procs[p] in {Start, Refused, Crashed}
  {
    if i > 0 {
      NewcomerFailsWhileTorn(run, p, i - 1);
      assert Step(run[i - 1], run[i], p);
    }
  }

  /** In every other reachable state it can. */
  lemma NewcomerReturnsUnlessTorn(s: State, p: nat, newKey: Identity) returns (run: seq<State>)
    requires Inv(s) && p < |s.procs| && s.procs[p] == Start
    requires !s.key.Torn?
    ensures IsSolo(run, p) && run[0] == s
    ensures p < |run[|run| - 1].procs| && run[|run| - 1].procs[p].Returned?
  {
    if s.key.Holds? {
      run := ReturnExisting(s, p);
    } else {
      run := ReturnGenerated(s, p, newKey);
    }
  }

  lemma ReturnExisting(s: State, p: nat) returns (run: seq<State>)
    requires p < |s.procs| && s.procs[p] == Start && s.key.Holds?
    ensures IsSolo(run, p) && run[0] == s
    ensures p < |run[|run| - 1].procs| && run[|run| - 1].procs[p].Returned?
  {
    var id := s.key.identity;
    var s1 := s.(procs := s.procs[p := CheckPub(id)]);
    if s.pub.NoPub? {
      var s2 := s1.(procs := s1.procs[p := OpenPub(id)]);
      var rest := Publish(s2, p, id);
      run := [s, s1, s2] + rest;
    } else {
      run := [s, s1, s1.(procs := s1.procs[p := Returned(RecipientOf(id))])];
    }
  }

  lemma ReturnGenerated(s: State, p: nat, newKey: Identity) returns (run: seq<State>)
    requires p < |s.procs| && s.procs[p] == Start && s.key.Absent?
    ensures IsSolo(run, p) && run[0] == s
    ensures p < |run[|run| - 1].procs| && run[|run| - 1].procs[p].Returned?
  {
    var s1 := s.(procs := s.procs[p := Generate]);
    var s2 := s.(procs := s1.procs[p := Claim(newKey)]);
    assert Goes(s1, s2, p, s1.key, s1.pub, Claim(newKey));
    var s3 := s.(key := Torn, procs := s2.procs[p := Fill(newKey)]);
    var s4 := s.(key := Holds(newKey), procs := s3.procs[p := OpenPub(newKey)]);
    var rest := Publish(s4, p, newKey);
    run := [s, s1, s2, s3, s4] + rest;
  }

  /** The last two steps of a process that writes age.pub. */
  lemma Publish(s: State, p: nat, id: Identity) returns (rest: seq<State>)
    requires p < |s.procs| && s.procs[p] == OpenPub(id)
    ensures |rest| == 2 && |rest[1].procs| == |s.procs| && rest[1].procs[p].Returned?
    ensures Step(s, rest[0], p) && Step(rest[0], rest[1], p)
  {
    var s1 := State(s.key, TornPub, s.procs[p := FillPub(id)]);
    var s2 := State(s.key, Pub(RecipientOf(id)), s1.procs[p := Returned(RecipientOf(id))]);
    rest := [s1, s2];
  }

  /* ---- The code of one process among the others ---- */

  ghost predicate IsPath(path: seq<State>, s: State, t: State) {
    && path != [] && path[0] == s && path[|path| - 1] == t
    && forall i :: 0 <= i < |path| - 1 ==> Next(path[i], path[i + 1])
  }

  ghost predicate Reach(s: State, t: State) {
    exists path :: IsPath(path, s, t)
  }

  lemma ReachNext(s: State, t: State, u: State)
    requires Reach(s, t) && Next(t, u)
    ensures Reach(s, u)
  {
    var path: seq<State> :| IsPath(path, s, t);
    assert IsPath(path + [u], s, u);
  }

  lemma {:induction false} PathKeeps(path: seq<State>, s: State, t: State)
    requires IsPath(path, s, t) && Inv(s)
    ensures Inv(t) && |t.procs| == |s.procs| && (s.key.Holds? ==> t.key == s.key)
    decreases |path|
  {
    if |path| > 1 {
      InvStep(s, path[1]);
      PathKeeps(path[1..], path[1], t);
    }
  }

  lemma ReachKeeps(s: State, t: State)
    requires Reach(s, t) && Inv(s)
    ensures Inv(t) && |t.procs| == |s.procs| && (s.key.Holds? ==> t.key == s.key)
  {
    var path: seq<State> :| IsPath(path, s, t);
    PathKeeps(path, s, t);
  }

  /** The two files and the other processes, as process `self` meets them. */
  class SharedKey {
    var world: State
    const self: nat
    ghost var origin: State  // where the call began

    constructor (world: State, self: nat)
      ensures this.world == world && this.self == self
    {
      this.world, this.self, origin := world, self, world;
    }

    /** The process is at pc, and got there by steps of the protocol. */
    ghost predicate IsAt(pc: Pc)
      reads this
    {
      Inv(world) && self < |world.procs| && world.procs[self] == pc && Reach(origin, world)
    }

    /** The outcome the caller sees is the one the process stops in. */
    ghost predicate Stops(r: Option<Recipient>)
      reads this
    {
      IsAt(if r.Some? then Returned(r.value) else Refused)
    }

    predicate Alone()
      reads this
    {
      |world.procs| == 1
    }

    /** Between two of its own file operations any schedule of the others may run. */
    method OthersRun(ghost pc: Pc)
      requires IsAt(pc)
      modifies this`world
      ensures IsAt(pc) && (old(Alone()) ==> world == old(world))
    {
    }

    /** One file operation: what it does to the files, and where the code goes on. */
    method Move(key: KeyFile, pub: PubFile, pc: Pc, ghost from: Pc)
      requires IsAt(from) && Step(world, State(key, pub, world.procs[self := pc]), self)
      modifies this`world
      ensures IsAt(pc) && world.key == key && world.pub == pub && Alone() == old(Alone())
    {
      ghost var before := world;
      world := State(key, pub, world.procs[self := pc]);
      assert Next(before, world);
      ReachNext(origin, before, world);
      InvStep(before, world);
    }

    /** The call begins; others may have run when it looks at the files. */
    method Begin()
      requires Inv(world) && self < |world.procs| && world.procs[self] == Start
      modifies this
      ensures origin == old(world) && IsAt(Start)
      ensures old(world).key.Holds? ==> world.key == old(world).key
      ensures old(Alone()) ==> world == old(world)
    {
      origin := world;
      assert IsPath([world], world, world);
      OthersRun(Start);
      ReachKeeps(origin, world);
    }

    /** ensureAgeKeyPair without a project-local key. Each process that returns gives the
        recipient of the identity in age.key; a key that was there stays. When no file
        operation fails, it refuses only an age.key that does not parse. */
    method EnsureAgeKeyPair(newKey: Identity, works: bool) returns (r: Option<Recipient>)
      requires Inv(world) && self < |world.procs| && world.procs[self] == Start
      modifies this
      ensures origin == old(world) && Stops(r)
      ensures r.Some? ==> world.key.Holds? && r.value == RecipientOf(world.key.identity)
      ensures old(world).key.Holds? ==> world.key == old(world).key && (works ==> r.Some?)
      ensures works && r.None? ==> world.key.Torn?
      ensures works && old(Alone()) && old(world).key.Absent? ==>
                world.key == Holds(newKey) && world.pub == Pub(RecipientOf(newKey))
    {
      Begin();
      var ioFails: bool := *;
      if (!works && ioFails) || world.key.Torn? {
        Move(world.key, world.pub, Refused, Start);
        r := None;
      } else if world.key.Holds? {
        var id := world.key.identity;
        Move(world.key, world.pub, CheckPub(id), Start);
        r := UseExisting(id, works);
      } else {
        Move(world.key, world.pub, Generate, Start);
        r := CreateNew(newKey, works);
      }
      ReachKeeps(origin, world);
    }

    /** age.key parses: age.pub is written only when it is missing. */
    method UseExisting(id: Identity, works: bool) returns (r: Option<Recipient>)
      requires IsAt(CheckPub(id))
      modifies this`world
      ensures Stops(r) && (works ==> r.Some?)
      ensures old(Alone()) ==> world.key == old(world).key && (!old(world).pub.NoPub? ==> world.pub == old(world).pub)
    {
      OthersRun(CheckPub(id));
      var ioFails: bool := *;
      if !works && ioFails {
        Move(world.key, world.pub, Refused, CheckPub(id));
        r := None;
      } else if world.pub.NoPub? {
        Move(world.key, world.pub, OpenPub(id), CheckPub(id));
        r := WritePub(id, works);
      } else {
        Move(world.key, world.pub, Returned(RecipientOf(id)), CheckPub(id));
        r := Some(RecipientOf(id));
      }
    }

    /** age.key was absent: claim it exclusively, or adopt what another process wrote. */
    method CreateNew(newKey: Identity, works: bool) returns (r: Option<Recipient>)
      requires IsAt(Generate)
      modifies this`world
      ensures Stops(r) && (works && r.None? ==> world.key.Torn?)
      ensures works && old(Alone()) && old(world).key.Absent? ==>
                world.key == Holds(newKey) && world.pub == Pub(RecipientOf(newKey))
    {
      OthersRun(Generate);
      Move(world.key, world.pub, Claim(newKey), Generate);
      OthersRun(Claim(newKey));
      if world.key.Absent? {
        Move(Torn, world.pub, Fill(newKey), Claim(newKey));
        r := FillKey(newKey, works);
      } else {
        Move(world.key, world.pub, Adopt, Claim(newKey));
        OthersRun(Adopt);
        if world.key.Holds? {
          var id := world.key.identity;
          Move(world.key, world.pub, OpenPub(id), Adopt);
          r := WritePub(id, works);
        } else {
          Move(world.key, world.pub, Refused, Adopt);
          r := None;
        }
      }
    }

    /** A write that fails leaves the file torn, or whole when only the close failed. */
    method FillKey(newKey: Identity, works: bool) returns (r: Option<Recipient>)
      requires IsAt(Fill(newKey))
      modifies this`world
      ensures Stops(r) && (works ==> r.Some?)
      ensures works && old(Alone()) ==> world.key == Holds(newKey) && world.pub == Pub(RecipientOf(newKey))
    {
      OthersRun(Fill(newKey));
      var writeFails, closeFails: bool := *, *;
      if !works && writeFails {
        Move(world.key, world.pub, Refused, Fill(newKey));
        r := None;
      } else if !works && closeFails {
        Move(Holds(newKey), world.pub, Refused, Fill(newKey));
        r := None;
      } else {
        Move(Holds(newKey), world.pub, OpenPub(newKey), Fill(newKey));
        r := WritePub(newKey, works);
      }
    }

    method WritePub(id: Identity, works: bool) returns (r: Option<Recipient>)
      requires IsAt(OpenPub(id))
      modifies this`world
      ensures Stops(r) && (works ==> r.Some?)
      ensures r.Some? ==> world.pub == Pub(RecipientOf(id)) && r.value == RecipientOf(id)
      ensures old(Alone()) ==> world.key == old(world).key
    {
      OthersRun(OpenPub(id));
      var openFails, writeFails: bool := *, *;
      if !works && openFails {
        Move(world.key, world.pub, Refused, OpenPub(id));
        return None;
      }
      Move(world.key, TornPub, FillPub(id), OpenPub(id));
      OthersRun(FillPub(id));
      if !works && writeFails {
        Move(world.key, world.pub, Refused, FillPub(id));
        return None;
      }
      Move(world.key, Pub(RecipientOf(id)), Returned(RecipientOf(id)), FillPub(id));
      r := Some(RecipientOf(id));
    }
  }
}
