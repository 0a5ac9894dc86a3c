/** Trust on first use of SSH host keys: the known_hosts store and the verifier a Pool
    keeps in memory (internal/ssh/client.go). The store is the list of pins whose text is
    KnownHosts.Render; a pin matches its own address and no other. */
module HostKeys {
  import opened Wrappers
  import opened KnownHosts

  datatype Verdict = Accepted | Unknown | Mismatch

  predicate Knows(pins: seq<Pin>, a: Addr) {
    exists i | 0 <= i < |pins| :: pins[i].addr == a
  }

  /** The knownhosts callback: any pin of the address may carry the key. */
  function Check(pins: seq<Pin>, a: Addr, key: string): Verdict {
    if Pin(a, key) in pins then Accepted else if Knows(pins, a) then Mismatch else Unknown
  }

  /** How appending a line to the store ends. */
  datatype Append = Written | WrittenThenFailed | NotWritten

  /** What the file system does during one call. */
  datatype Disk = Disk(loads: bool, append: Append, reloads: bool)

  /** The store file (absent is None), and the verifier loaded from it, if any. */
  datatype Trust = Trust(store: bool, file: Option<seq<Pin>>, verifier: Option<seq<Pin>>)

  datatype Call = Call(hostname: Addr, remote: Addr, key: string, disk: Disk)

  function Pins(file: Option<seq<Pin>>): seq<Pin> {
    if file.Some? then file.value else []
  }

  /** The verifier the call consults, loaded now if there is none; None is a failed load. */
  function Consulted(st: Trust, disk: Disk): Option<seq<Pin>> {
    if st.verifier.Some? then st.verifier
    else if !st.store then Some([])
    else if disk.loads then Some(Pins(st.file))
    else None
  }

  /** The state after one verifyHostKey, and whether the key was accepted. */
  function Verify(st: Trust, c: Call): (Trust, bool) {
    match Consulted(st, c.disk)
    case None => (st, false)
    case Some(pins) =>
      var loaded := st.(verifier := Some(pins));
      match Check(pins, c.hostname, c.key)
      case Accepted => (loaded, true)
      case Mismatch => (loaded, false)
      case Unknown =>
        if !st.store then (loaded, true) else Remember(loaded, Pin(c.remote, c.key), c.disk)
  }

  /** trustHostKey with a store: append a pin, then reload; a failed reload is ignored. */
  function Remember(st: Trust, pin: Pin, disk: Disk): (Trust, bool) {
    var file := Pins(st.file) + [pin];
    match disk.append
    case NotWritten => (st, false)
    case WrittenThenFailed => (st.(file := Some(file)), false)
    case Written =>
      (Trust(st.store, Some(file), if disk.reloads then Some(file) else st.verifier), true)
  }

  class HostTrust {
    const store: bool
    var file: Option<seq<Pin>>
    var verifier: Option<seq<Pin>>

    constructor (store: bool, file: Option<seq<Pin>>)
      ensures View() == Trust(store, file, None)
    {
      this.store, this.file, this.verifier := store, file, None;
    }

    function View(): Trust
      reads this
    {
      Trust(store, file, verifier)
    }

    method VerifyHostKey(c: Call) returns (ok: bool)
      modifies this
      ensures (View(), ok) == Verify(old(View()), c)
    {
      if verifier.None? {
        var loaded := LoadKnownHosts(c.disk);
        if loaded.None? {
          return false;
        }
        verifier := loaded;
      }
      var known := false;
      for i := 0 to |verifier.value|
        invariant View() == old(View()).(verifier := Consulted(old(View()), c.disk)) && verifier.Some?
        invariant known <==> exists j | 0 <= j < i :: verifier.value[j].addr == c.hostname
        invariant forall j :: 0 <= j < i ==> verifier.value[j] != Pin(c.hostname, c.key)
      {
        if verifier.value[i].addr == c.hostname {
          if verifier.value[i].key == c.key {
            return true;
          }
          known := true;
        }
      }
      if known {
        return false;
      }
      ok := TrustHostKey(Pin(c.remote, c.key), c.disk);
    }

    method LoadKnownHosts(disk: Disk) returns (loaded: Option<seq<Pin>>)
      requires verifier.None?
      ensures loaded == Consulted(View(), disk)
    {
      if !store {
        return Some([]);
      }
      if !disk.loads {
        return None;
      }
      loaded := Some(if file.Some? then file.value else []);
    }

    method TrustHostKey(pin: Pin, disk: Disk) returns (ok: bool)
      modifies this
      ensures (View(), ok) == if store then Remember(old(View()), pin, disk) else (old(View()), true)
    {
      if store {
        if disk.append.NotWritten? {
          return false;
        }
        file := Some((if file.Some? then file.value else []) + [pin]);
        if disk.append.WrittenThenFailed? {
          return false;
        }
        if disk.reloads {
          verifier := file;
        }
      }
      ok := true;
    }
  }

  /* ---- Runs of calls on one Pool ---- */

  function After(st: Trust, calls: seq<Call>): Trust
    decreases |calls|
  {
    if calls == [] then st else Verify(After(st, calls[..|calls| - 1]), calls[|calls| - 1]).0
  }

  /** Whether the i-th call of a run is answered with acceptance. */
  predicate Accepts(st: Trust, calls: seq<Call>, i: nat)
    requires i < |calls|
  {
    Verify(After(st, calls[..i]), calls[i]).1
  }

  lemma AfterNext(st: Trust, calls: seq<Call>, i: nat)
    requires i < |calls|
    ensures After(st, calls[..i + 1]) == Verify(After(st, calls[..i]), calls[i]).0
  {
    assert calls[..i + 1][..i] == calls[..i];
  }

  /** The pins of st still stand first in t, and a loaded verifier is still loaded. */
  predicate Grew(st: Trust, t: Trust) {
    Pins(st.file) <= Pins(t.file) && (st.verifier.Some? ==> t.verifier.Some?)
  }

  lemma VerifyGrows(st: Trust, c: Call)
    ensures Grew(st, Verify(st, c).0)
    ensures Verify(st, c).1 ==> Verify(st, c).0.verifier.Some?
  {
  }

  lemma GrewOnce(a: Trust, st: Trust, c: Call)
    requires Grew(a, st)
    ensures Grew(a, Verify(st, c).0)
  {
    VerifyGrows(st, c);
  }

  /** Whatever the disk does and whoever is dialed, pins are appended and never lost,
      changed or reordered. */
  lemma {:induction false} PinsOnlyGrow(st: Trust, calls: seq<Call>, i: nat, j: nat)
    requires i <= j <= |calls|
    ensures Grew(After(st, calls[..i]), After(st, calls[..j]))
    decreases j
  {
    if i < j {
      PinsOnlyGrow(st, calls, i, j - 1);
      GrewOnce(After(st, calls[..i]), After(st, calls[..j - 1]), calls[j - 1]);
      AfterNext(st, calls, j - 1);
    }
  }

  /** As far as host a is concerned: dialed by address, its line is reloaded once it is
      written, and no write of a line fails after the line is in the file. */
  predicate Steady(a: Addr, c: Call) {
    c.hostname == a || c.remote == a ==>
      && c.hostname == c.remote
      && !c.disk.append.WrittenThenFailed?
      && (c.disk.append.Written? ==> c.disk.reloads)
  }

  ghost predicate AllSteady(a: Addr, calls: seq<Call>) {
    forall k :: 0 <= k < |calls| ==> Steady(a, calls[k])
  }

  /** For host a the verifier holds the pins that the file holds. */
  ghost predicate InSync(st: Trust, a: Addr) {
    st.store && (st.verifier.Some? ==> forall key :: Pin(a, key) in st.verifier.value <==> Pin(a, key) in Pins(st.file))
  }

  predicate OneKey(pins: seq<Pin>, a: Addr) {
    forall i, j | 0 <= i < |pins| && 0 <= j < |pins| && pins[i].addr == a && pins[j].addr == a ::
      pins[i].key == pins[j].key
  }

  /** Verdicts on a host depend on its own pins only. */
  lemma SameVerdict(x: seq<Pin>, y: seq<Pin>, a: Addr, key: string)
    requires forall k :: Pin(a, k) in x <==> Pin(a, k) in y
    ensures Check(x, a, key) == Check(y, a, key)
  {
    SameKnown(x, y, a);
    SameKnown(y, x, a);
  }

  lemma SameKnown(x: seq<Pin>, y: seq<Pin>, a: Addr)
    requires forall k :: Pin(a, k) in x <==> Pin(a, k) in y
    ensures Knows(x, a) ==> Knows(y, a)
  {
    if Knows(x, a) {
      var i :| 0 <= i < |x| && x[i].addr == a;
      assert x[i] == Pin(a, x[i].key);
      assert Pin(a, x[i].key) in y;
    }
  }

  /** A host's verdicts stay in step with the file, and a host with at most one key keeps
      at most one. */
  lemma {:induction false} StaysInSync(st: Trust, calls: seq<Call>, a: Addr, i: nat)
    requires InSync(st, a) && OneKey(Pins(st.file), a) && i <= |calls| && AllSteady(a, calls)
    ensures InSync(After(st, calls[..i]), a) && OneKey(Pins(After(st, calls[..i]).file), a)
  {
    if i == 0 {
      assert calls[..0] == [];
    } else {
      var last := After(st, calls[..i - 1]);
      StaysInSync(st, calls, a, i - 1);
      SteadyStep(last, calls[i - 1], a);
      AfterNext(st, calls, i - 1);
      assert After(st, calls[..i]) == Verify(last, calls[i - 1]).0;
    }
  }

  lemma SteadyStep(st: Trust, c: Call, a: Addr)
    requires InSync(st, a) && OneKey(Pins(st.file), a) && Steady(a, c)
    ensures InSync(Verify(st, c).0, a) && OneKey(Pins(Verify(st, c).0.file), a)
    ensures Verify(st, c).1 && c.hostname == a ==> Pin(a, c.key) in Pins(Verify(st, c).0.file)
  {
    var consulted := Consulted(st, c.disk);
    if consulted.Some? {
      SameVerdict(consulted.value, Pins(st.file), a, c.key);
      var pin := Pin(c.remote, c.key);
      assert forall p :: p in Pins(st.file) + [pin] <==> p in Pins(st.file) || p == pin;
      if pin.addr != a || !Knows(Pins(st.file), a) {
        OneKeyAppend(Pins(st.file), pin, a);
      }
    }
  }

  lemma OneKeyAppend(pins: seq<Pin>, pin: Pin, a: Addr)
    requires OneKey(pins, a) && (pin.addr != a || !Knows(pins, a))
    ensures OneKey(pins + [pin], a)
  {
    var longer := pins + [pin];
    assert forall i :: 0 <= i < |pins| ==> longer[i] == pins[i];
  }

  /** Over any run, every key accepted for a host with at most one pinned key is the same. */
  lemma AcceptedKeysAgree(st: Trust, calls: seq<Call>, i: nat, j: nat)
    requires i < |calls| && j < |calls| && calls[i].hostname == calls[j].hostname
    requires InSync(st, calls[i].hostname) && OneKey(Pins(st.file), calls[i].hostname)
    requires AllSteady(calls[i].hostname, calls)
    requires Accepts(st, calls, i) && Accepts(st, calls, j)
    ensures calls[i].key == calls[j].key
  {
    PinnedWhenAccepted(st, calls, i);
    PinnedWhenAccepted(st, calls, j);
    StaysInSync(st, calls, calls[i].hostname, |calls|);
  }

  lemma PinnedWhenAccepted(st: Trust, calls: seq<Call>, i: nat)
    requires i < |calls| && InSync(st, calls[i].hostname) && OneKey(Pins(st.file), calls[i].hostname)
    requires AllSteady(calls[i].hostname, calls) && Accepts(st, calls, i)
    ensures Pin(calls[i].hostname, calls[i].key) in Pins(After(st, calls[..|calls|]).file)
    ensures After(st, calls[..|calls|]).verifier.Some?
  {
    StaysInSync(st, calls, calls[i].hostname, i);
    SteadyStep(After(st, calls[..i]), calls[i], calls[i].hostname);
    AfterNext(st, calls, i);
    VerifyGrows(After(st, calls[..i]), calls[i]);
    PinsOnlyGrow(st, calls, i + 1, |calls|);
  }

  /** Once a key was accepted for a host, exactly that key is accepted for it. */
  lemma FirstContactDecides(st: Trust, calls: seq<Call>, i: nat, c: Call)
    requires i < |calls| && InSync(st, calls[i].hostname) && OneKey(Pins(st.file), calls[i].hostname)
    requires AllSteady(calls[i].hostname, calls) && Accepts(st, calls, i)
    requires c.hostname == calls[i].hostname
    ensures Verify(After(st, calls[..|calls|]), c).1 <==> c.key == calls[i].key
  {
    var end := After(st, calls[..|calls|]);
    PinnedWhenAccepted(st, calls, i);
    StaysInSync(st, calls, c.hostname, |calls|);
    SameVerdict(end.verifier.value, Pins(end.file), c.hostname, c.key);
    KnowsPinned(Pins(end.file), c.hostname, calls[i].key);
  }

  lemma KnowsPinned(pins: seq<Pin>, a: Addr, key: string)
    requires Pin(a, key) in pins
    ensures Knows(pins, a)
  {
  }

  /** Without a store every key is first contact: all calls of a run are accepted, whatever
      came before, and nothing is remembered. */
  lemma {:induction false} NoStoreTrustsAll(st: Trust, calls: seq<Call>, i: nat)
    requires !st.store && (st.verifier.Some? ==> st.verifier.value == []) && i < |calls|
    ensures Accepts(st, calls, i)
    ensures var end := After(st, calls[..i + 1]);
            !end.store && end.file == st.file && end.verifier == Some([])
  {
    AfterNext(st, calls, i);
    if i > 0 {
      NoStoreTrustsAll(st, calls, i - 1);
    } else {
      assert calls[..0] == [];
    }
  }

  /** The keys a host has in a list of pins. */
  predicate Pinned(pins: seq<Pin>, a: Addr, key: string) {
    exists i | 0 <= i < |pins| :: pins[i].addr == a && pins[i].key == key
  }

  /** With a store, a call is accepted exactly when the verifier can be loaded and either
      knows the key for the host, or knows no key for it and the pin is written. The file
      changes only at first contact, by one pin under the remote address; and after the
      call the verifier holds what it consulted, or the file if that was reloaded. */
  lemma StoreDecides(st: Trust, c: Call)
    requires st.store
    ensures var pins := if st.verifier.Some? then st.verifier.value else Pins(st.file);
            var loads := st.verifier.Some? || c.disk.loads;
            var first := loads && !exists key :: Pinned(pins, c.hostname, key);
            var (after, ok) := Verify(st, c);
            && (ok <==> loads && (Pinned(pins, c.hostname, c.key) || (first && c.disk.append.Written?)))
            && after.file == (if first && !c.disk.append.NotWritten? then Some(Pins(st.file) + [Pin(c.remote, c.key)]) else st.file)
            && after.verifier == (if !loads then None
                                  else if first && c.disk.append.Written? && c.disk.reloads then after.file
                                  else Some(pins))
  {
    var pins := if st.verifier.Some? then st.verifier.value else Pins(st.file);
    PinnedIsListed(pins, c.hostname, c.key);
    if Knows(pins, c.hostname) {
      var i :| 0 <= i < |pins| && pins[i].addr == c.hostname;
      assert Pinned(pins, c.hostname, pins[i].key);
    }
  }

  lemma PinnedIsListed(pins: seq<Pin>, a: Addr, key: string)
    ensures Pinned(pins, a, key) <==> Pin(a, key) in pins
    ensures Pinned(pins, a, key) ==> Knows(pins, a)
  {
    if Pinned(pins, a, key) {
      var i :| 0 <= i < |pins| && pins[i].addr == a && pins[i].key == key;
      assert pins[i] == Pin(a, key);
    }
  }

  /* ---- When first contact does not pin ---- */

  /** After a first contact was accepted, another key offered for that host is refused
      exactly when the pin was stored under the dialed name and the reload succeeded:
      a pin goes under the remote address, and a failed reload is ignored. */
  lemma FirstContactPins(st: Trust, first: Call, second: Call)
    requires InSync(st, first.hostname) && Check(Pins(st.file), first.hostname, first.key) == Unknown
    requires Verify(st, first).1
    requires second.hostname == first.hostname && second.key != first.key && second.disk.append.Written?
    ensures !Verify(Verify(st, first).0, second).1 <==> first.remote == first.hostname && first.disk.reloads
  {
    var pins := Pins(st.file);
    var next := pins + [Pin(first.remote, first.key)];
    assert next[|pins|] == Pin(first.remote, first.key);
    assert forall i :: 0 <= i < |pins| ==> next[i] == pins[i];
    if first.remote != first.hostname {
      assert !Knows(next, first.hostname);
    }
  }

  /* ---- A write that fails after the line is in the file ---- */

  /** A first contact was refused and the host then accepted with another key. The refused
      key is accepted from now on exactly when its line had reached the file, because the
      call failed only afterwards. */
  lemma RefusedKeyReturns(st: Trust, first: Call, second: Call, third: Call)
    requires InSync(st, first.hostname) && Check(Pins(st.file), first.hostname, first.key) == Unknown
    requires first.remote == first.hostname && !Verify(st, first).1
    requires second.hostname == second.remote == first.hostname && second.key != first.key && second.disk.reloads
    requires Verify(Verify(st, first).0, second).1
    requires third.hostname == first.hostname && third.key == first.key
    ensures Verify(Verify(Verify(st, first).0, second).0, third).1
            <==> Consulted(st, first.disk).Some? && first.disk.append.WrittenThenFailed?
  {
    var a, pins := first.hostname, Pins(st.file);
    var one := Verify(st, first).0;
    var two := Verify(one, second).0;
    if Consulted(st, first.disk).Some? {
      SameVerdict(Consulted(st, first.disk).value, pins, a, first.key);
    }
    RefusedFirst(st, first);
    AcceptedSecond(st, first, second);
    KnowsPinned(Pins(two.file), a, second.key);
  }

  /** What a refused first contact leaves. */
  lemma RefusedFirst(st: Trust, c: Call)
    requires st.store && !Verify(st, c).1
    requires Consulted(st, c.disk).Some? ==> Check(Consulted(st, c.disk).value, c.hostname, c.key) == Unknown
    ensures var next := Verify(st, c).0;
            var written := Consulted(st, c.disk).Some? && c.disk.append.WrittenThenFailed?;
            && next.store && next.verifier == Consulted(st, c.disk)
            && Pins(next.file) == if written then Pins(st.file) + [Pin(c.remote, c.key)] else Pins(st.file)
  {
  }

  lemma AcceptedSecond(st: Trust, first: Call, second: Call)
    requires InSync(st, first.hostname) && Check(Pins(st.file), first.hostname, first.key) == Unknown
    requires first.remote == first.hostname && !Verify(st, first).1
    requires second.hostname == second.remote == first.hostname && second.key != first.key && second.disk.reloads
    requires Verify(Verify(st, first).0, second).1
    ensures var one := Verify(st, first).0; var two := Verify(one, second).0;
            two.verifier.Some? && two.verifier.value == Pins(two.file) == Pins(one.file) + [Pin(second.remote, second.key)]
  {
    var a := first.hostname;
    if Consulted(st, first.disk).Some? {
      SameVerdict(Consulted(st, first.disk).value, Pins(st.file), a, first.key);
      SameVerdict(Consulted(st, first.disk).value, Pins(st.file), a, second.key);
    }
    RefusedFirst(st, first);
    var one := Verify(st, first).0;
    if one.verifier.None? {
      assert Check(Pins(one.file), a, second.key) == Unknown;
    }
  }

  /** Three calls on an empty store: k1 is written and refused, then k2, then k1 again. */
  function TwoKeys(a: Addr, k1: string, k2: string): seq<Call> {
    [Call(a, a, k1, Disk(true, WrittenThenFailed, true)),
     Call(a, a, k2, Disk(true, Written, true)),
     Call(a, a, k1, Disk(true, Written, true))]
  }

  /** So without that hypothesis two keys are accepted for a host with no earlier pin, though
      it is dialed by address and every reload succeeds. */
  lemma TwoKeysAreAccepted(a: Addr, k1: string, k2: string)
    requires k1 != k2
    ensures var st, calls := Trust(true, None, None), TwoKeys(a, k1, k2);
            !Accepts(st, calls, 0) && Accepts(st, calls, 1) && Accepts(st, calls, 2)
  {
    var st, calls := Trust(true, None, None), TwoKeys(a, k1, k2);
    var one := Trust(true, Some([Pin(a, k1)]), Some([]));
    var two := Trust(true, Some([Pin(a, k1), Pin(a, k2)]), Some([Pin(a, k1), Pin(a, k2)]));
    assert [] + [Pin(a, k1)] == [Pin(a, k1)] && [Pin(a, k1)] + [Pin(a, k2)] == [Pin(a, k1), Pin(a, k2)];
    assert calls[..0] == [];
    AfterNext(st, calls, 0);
    assert After(st, calls[..1]) == one;
    AfterNext(st, calls, 1);
    assert After(st, calls[..2]) == two;
    assert Pin(a, k1) in two.verifier.value;
  }

  /* ---- Pruning, then reconnecting ---- */

  /** Pruning the store text makes a verifier loaded from it report exactly the removed
      addresses, and those unknown before, as first contact; every other verdict stays. */
  lemma PrunedStore(pins: seq<Pin>, ips: seq<string>, a: Addr, key: string)
    requires ValidPins(pins) && forall ip :: ip in ips ==> ValidHost(ip)
    ensures Prune(Render(pins), ips) == Render(Without(pins, ips))
    ensures Check(Without(pins, ips), a, key) == if RemovedBy(ips, a) then Unknown else Check(pins, a, key)
  {
    PruneRemovesPins(pins, ips);
    PrunedCheck(pins, ips, a, key);
  }

  lemma PrunedCheck(pins: seq<Pin>, ips: seq<string>, a: Addr, key: string)
    ensures Check(Without(pins, ips), a, key) == if RemovedBy(ips, a) then Unknown else Check(pins, a, key)
  {
    var left := Without(pins, ips);
    WithoutMembers(pins, ips, Pin(a, key));
    if Knows(left, a) {
      var i :| 0 <= i < |left| && left[i].addr == a;
      WithoutMembers(pins, ips, left[i]);
      assert left[i] in pins;
    }
    if Knows(pins, a) {
      var i :| 0 <= i < |pins| && pins[i].addr == a;
      WithoutMembers(pins, ips, pins[i]);
      assert pins[i] in pins;
    }
  }

  /** After its address was pruned, a host that changed its key is accepted exactly when
      the Pool had not loaded its verifier yet. */
  lemma PruneNeedsAFreshVerifier(st: Trust, ips: seq<string>, c: Call)
    requires InSync(st, c.hostname) && st.file.Some? && RemovedBy(ips, c.hostname)
    requires Check(st.file.value, c.hostname, c.key) == Mismatch
    requires c.disk.loads && c.disk.append.Written?
    ensures Verify(st.(file := Some(Without(st.file.value, ips))), c).1 <==> st.verifier.None?
  {
    PrunedCheck(st.file.value, ips, c.hostname, c.key);
  }
}
