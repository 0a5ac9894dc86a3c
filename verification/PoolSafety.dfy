/** What every interleaving of pool operations keeps. */
module PoolSafety {
  import opened Wrappers
  import opened PoolSpec

  lemma DialFails(s: State, w: map<Conn, Place>, t: nat, s': State)
    requires Placed(s, w) && t < |s.threads| && s.threads[t].Dialing? && s' == s.(threads := s.threads[t := Idle])
    ensures Placed(s', w)
  {
  }

  lemma DialSucceedsThread(s: State, w: map<Conn, Place>, t: nat, host: Host, c: Conn, u: nat)
    requires Placed(s, w) && t < |s.threads| && s.threads[t] == Dialing(host) && c !in s.dialed && u < |s.threads|
    ensures ThreadOk(s.dialed[c := host], s.handed, w[c := HeldBy(t)], u, s.threads[t := Dialed(host, c)][u])
  {
    assert ThreadOk(s.dialed, s.handed, w, u, s.threads[u]);
  }

  lemma DialSucceedsHeld(s: State, w: map<Conn, Place>, t: nat, host: Host, c: Conn, d: Conn)
    requires Placed(s, w) && t < |s.threads| && s.threads[t] == Dialing(host) && c !in s.dialed && d in w && w[d].HeldBy?
    ensures w[d].thread < |s.threads| && InFlight(s.threads[t := Dialed(host, c)][w[d].thread], d)
  {
  }

  lemma DialSucceeds(s: State, w: map<Conn, Place>, t: nat, host: Host, c: Conn, s': State)
    requires Placed(s, w) && t < |s.threads| && s.threads[t] == Dialing(host) && c !in s.dialed
    requires s' == s.(dialed := s.dialed[c := host], threads := s.threads[t := Dialed(host, c)])
    ensures ThreadsPlaced(s', w[c := HeldBy(t)])
  {
    var w' := w[c := HeldBy(t)];
    forall u | 0 <= u < |s.threads| ensures ThreadOk(s'.dialed, s'.handed, w', u, s'.threads[u]) {
      DialSucceedsThread(s, w, t, host, c, u);
    }
    forall d | d in w' && w'[d].HeldBy?
      ensures w'[d].thread < |s'.threads| && InFlight(s'.threads[w'[d].thread], d)
    {
      if d != c {
        DialSucceedsHeld(s, w, t, host, c, d);
      }
    }
  }

  lemma DialSucceedsShared(s: State, w: map<Conn, Place>, t: nat, host: Host, c: Conn, s': State)
    requires Placed(s, w) && t < |s.threads| && c !in s.dialed
    requires s' == s.(dialed := s.dialed[c := host], threads := s.threads[t := Dialed(host, c)])
    ensures SharedPlaced(s', w[c := HeldBy(t)])
  {
    assert c !in s.shared.evicted && c !in s.shared.closes;
  }

  lemma DialingStep(s: State, w: map<Conn, Place>, t: nat, s': State) returns (w': map<Conn, Place>)
    requires Placed(s, w) && ThreadStep(s, t, s') && s.threads[t].Dialing?
    ensures Placed(s', w')
  {
    var host := s.threads[t].host;
    if s' == s.(threads := s.threads[t := Idle]) {
      w' := w;
      DialFails(s, w, t, s');
    } else {
      var c :| c !in s.dialed && s' == s.(dialed := s.dialed[c := host], threads := s.threads[t := Dialed(host, c)]);
      w' := w[c := HeldBy(t)];
      DialSucceeds(s, w, t, host, c, s');
      DialSucceedsShared(s, w, t, host, c, s');
    }
  }

  lemma InstallThreads(s: State, w: map<Conn, Place>, t: nat, host: Host, c: Conn, s': State)
    requires Placed(s, w) && t < |s.threads| && s.threads[t] == Dialed(host, c) && host !in s.shared.clients
    requires s' == s.(shared := Install(s.shared, host, c), threads := s.threads[t := Got(host, c)], handed := s.handed + {c})
    ensures ThreadsPlaced(s', w[c := InPool(host)])
  {
    assert ThreadOk(s.dialed, s.handed, w, t, s.threads[t]);
  }

  lemma InstallShared(s: State, w: map<Conn, Place>, t: nat, host: Host, c: Conn, s': State)
    requires Placed(s, w) && t < |s.threads| && s.threads[t] == Dialed(host, c) && host !in s.shared.clients
    requires s' == s.(shared := Install(s.shared, host, c), threads := s.threads[t := Got(host, c)], handed := s.handed + {c})
    ensures SharedPlaced(s', w[c := InPool(host)])
  {
    assert ThreadOk(s.dialed, s.handed, w, t, s.threads[t]);
    InstallPooled(s, w, host, c, s');
    InstallOthers(s, w, host, c, s');
  }

  lemma InstallOthers(s: State, w: map<Conn, Place>, host: Host, c: Conn, s': State)
    requires SharedPlaced(s, w) && c in w && w[c].HeldBy?
    requires s'.shared.evicted == s.shared.evicted && s'.shared.closes == s.shared.closes
    ensures EvictedPlaced(s', w[c := InPool(host)]) && ClosedPlaced(s', w[c := InPool(host)])
  {
  }

  lemma InstallPooled(s: State, w: map<Conn, Place>, host: Host, c: Conn, s': State)
    requires SharedPlaced(s, w) && LeadsTo(s.dialed, c, host) && c in w && !w[c].InPool? && host !in s.shared.clients
    requires s'.dialed == s.dialed && s'.shared.clients == s.shared.clients[host := c] && s'.handed == s.handed + {c}
    ensures PooledPlaced(s', w[c := InPool(host)])
  {
  }

  lemma DialedStep(s: State, w: map<Conn, Place>, t: nat, s': State) returns (w': map<Conn, Place>)
    requires Placed(s, w) && ThreadStep(s, t, s') && s.threads[t].Dialed?
    ensures Placed(s', w')
  {
    var host, c := s.threads[t].host, s.threads[t].conn;
    assert ThreadOk(s.dialed, s.handed, w, t, s.threads[t]);
    if host in s.shared.clients {
      w' := w;
      InstallLoses(s, w, t, s');
    } else {
      w' := w[c := InPool(host)];
      InstallThreads(s, w, t, host, c, s');
      InstallShared(s, w, t, host, c, s');
    }
  }

  lemma InstallLoses(s: State, w: map<Conn, Place>, t: nat, s': State)
    requires Placed(s, w) && ThreadStep(s, t, s') && s.threads[t].Dialed? && s.threads[t].host in s.shared.clients
    ensures Placed(s', w)
  {
    assert ThreadOk(s.dialed, s.handed, w, t, s.threads[t]);
  }

  lemma LosingThreads(s: State, w: map<Conn, Place>, t: nat, s': State)
    requires Placed(s, w) && ThreadStep(s, t, s') && s.threads[t].Losing?
    ensures ThreadsPlaced(s', w[s.threads[t].conn := IsClosed])
  {
    var c := s.threads[t].conn;
    assert ThreadOk(s.dialed, s.handed, w, t, s.threads[t]);
    forall u | 0 <= u < |s.threads| ensures ThreadOk(s'.dialed, s'.handed, w[c := IsClosed], u, s'.threads[u]) {
      assert ThreadOk(s.dialed, s.handed, w, u, s.threads[u]);
    }
  }

  lemma LosingShared(s: State, w: map<Conn, Place>, t: nat, s': State)
    requires Placed(s, w) && ThreadStep(s, t, s') && s.threads[t].Losing?
    ensures SharedPlaced(s', w[s.threads[t].conn := IsClosed])
  {
    assert ThreadOk(s.dialed, s.handed, w, t, s.threads[t]);
    assert PooledPlaced(s', w[s.threads[t].conn := IsClosed]);
  }

  lemma LosingStep(s: State, w: map<Conn, Place>, t: nat, s': State) returns (w': map<Conn, Place>)
    requires Placed(s, w) && ThreadStep(s, t, s') && s.threads[t].Losing?
    ensures Placed(s', w')
  {
    assert ThreadOk(s.dialed, s.handed, w, t, s.threads[t]);
    w' := w[s.threads[t].conn := IsClosed];
    LosingThreads(s, w, t, s');
    LosingShared(s, w, t, s');
  }

  lemma LookupThreads(s: State, w: map<Conn, Place>, t: nat, host: Host, s': State)
    requires Placed(s, w) && t < |s.threads| && Lookup(s, t, host, s') && (s.threads[t].Idle? || s.threads[t].Got?)
    ensures ThreadsPlaced(s', w)
  {
    forall u | 0 <= u < |s.threads| ensures ThreadOk(s'.dialed, s'.handed, w, u, s'.threads[u]) {
      assert ThreadOk(s.dialed, s.handed, w, u, s.threads[u]);
    }
  }

  lemma LookupShared(s: State, w: map<Conn, Place>, t: nat, host: Host, s': State)
    requires Placed(s, w) && t < |s.threads| && Lookup(s, t, host, s')
    ensures SharedPlaced(s', w)
  {
  }

  lemma LookupStep(s: State, w: map<Conn, Place>, t: nat, host: Host, s': State)
    requires Placed(s, w) && t < |s.threads| && Lookup(s, t, host, s') && (s.threads[t].Idle? || s.threads[t].Got?)
    ensures Placed(s', w)
  {
    LookupThreads(s, w, t, host, s');
    LookupShared(s, w, t, host, s');
  }

  lemma InvalidateThreads(s: State, w: map<Conn, Place>, host: Host, s': State)
    requires Placed(s, w) && host in s.shared.clients && s' == s.(shared := Invalidate(s.shared, host))
    ensures ThreadsPlaced(s', w[s.shared.clients[host] := InEvicted])
  {
    var w' := w[s.shared.clients[host] := InEvicted];
    forall u | 0 <= u < |s.threads| ensures ThreadOk(s'.dialed, s'.handed, w', u, s'.threads[u]) {
      assert ThreadOk(s.dialed, s.handed, w, u, s.threads[u]);
    }
  }

  lemma InvalidateShared(s: State, w: map<Conn, Place>, host: Host, s': State)
    requires Placed(s, w) && host in s.shared.clients && s' == s.(shared := Invalidate(s.shared, host))
    ensures SharedPlaced(s', w[s.shared.clients[host] := InEvicted])
  {
    InvalidatePooled(s, w, host, s');
    assert multiset(s'.shared.evicted) == multiset(s.shared.evicted) + multiset{s.shared.clients[host]};
  }

  lemma InvalidatePooled(s: State, w: map<Conn, Place>, host: Host, s': State)
    requires Placed(s, w) && host in s.shared.clients && s' == s.(shared := Invalidate(s.shared, host))
    ensures PooledPlaced(s', w[s.shared.clients[host] := InEvicted])
  {
  }

  lemma InvalidateKeeps(s: State, w: map<Conn, Place>, host: Host, s': State) returns (w': map<Conn, Place>)
    requires Placed(s, w) && s' == s.(shared := Invalidate(s.shared, host))
    ensures Placed(s', w')
  {
    if host in s.shared.clients {
      w' := w[s.shared.clients[host] := InEvicted];
      InvalidateThreads(s, w, host, s');
      InvalidateShared(s, w, host, s');
    } else {
      w' := w;
    }
  }

  function PlacesAfterClose(w: map<Conn, Place>): map<Conn, Place> {
    map c | c in w :: if w[c].HeldBy? then w[c] else IsClosed
  }

  /** How often a connection is closed after Close. */
  lemma ClosedOnce(s: State, w: map<Conn, Place>, c: Conn)
    requires Placed(s, w)
    ensures CloseAll(s.shared).closes[c] == if c in w && !w[c].HeldBy? then 1 else 0
  {
    if c in w {
      assert multiset(s.shared.clients.Values)[c] == if w[c].InPool? then 1 else 0;
    } else {
      assert c !in s.shared.closes && c !in s.shared.evicted && c !in s.shared.clients.Values;
    }
  }

  lemma CloseShared(s: State, w: map<Conn, Place>, s': State)
    requires Placed(s, w) && CloseStep(s, s')
    ensures SharedPlaced(s', PlacesAfterClose(w))
  {
    forall c ensures s'.shared.closes[c] == if c in w && !w[c].HeldBy? then 1 else 0 {
      ClosedOnce(s, w, c);
    }
  }

  lemma CloseThreads(s: State, w: map<Conn, Place>, s': State)
    requires Placed(s, w) && CloseStep(s, s')
    ensures ThreadsPlaced(s', PlacesAfterClose(w))
  {
    forall t | 0 <= t < |s.threads|
      ensures ThreadOk(s.dialed, s.handed, PlacesAfterClose(w), t, s.threads[t])
    {
      assert ThreadOk(s.dialed, s.handed, w, t, s.threads[t]);
    }
  }

  lemma CloseKeeps(s: State, w: map<Conn, Place>, s': State)
    requires Placed(s, w) && CloseStep(s, s')
    ensures Placed(s', PlacesAfterClose(w))
    ensures forall c :: c in s.dialed ==> (s'.shared.closes[c] == 1 <==> !w[c].HeldBy?)
  {
    CloseThreads(s, w, s');
    CloseShared(s, w, s');
  }

  lemma ThreadKeepsInv(s: State, t: nat, s': State)
    requires Inv(s) && ThreadStep(s, t, s')
    ensures Inv(s') && |s'.threads| == |s.threads|
  {
    var w: map<Conn, Place> :| Placed(s, w);
    match s.threads[t] {
      case Dialing(_) => var _ := DialingStep(s, w, t, s');
      case Dialed(_, _) => var _ := DialedStep(s, w, t, s');
      case Losing(_, _, _) => var _ := LosingStep(s, w, t, s');
      case Idle =>
        var host :| Lookup(s, t, host, s');
        LookupStep(s, w, t, host, s');
      case Got(_, _) =>
        var host :| Lookup(s, t, host, s');
        LookupStep(s, w, t, host, s');
    }
  }

  lemma NextKeepsInv(s: State, s': State)
    requires Inv(s) && Next(s, s')
    ensures Inv(s') && |s'.threads| == |s.threads|
  {
    if t: nat :| ThreadStep(s, t, s') {
      ThreadKeepsInv(s, t, s');
    } else {
      var w: map<Conn, Place> :| Placed(s, w);
      if CloseStep(s, s') {
        CloseKeeps(s, w, s');
      } else {
        var host :| s' == s.(shared := Invalidate(s.shared, host));
        var _ := InvalidateKeeps(s, w, host, s');
      }
    }
  }

  lemma {:induction false} InvHolds(run: seq<State>, i: nat)
    requires IsRun(run) && i < |run|
    ensures Inv(run[i]) && |run[i].threads| == |run[0].threads|
  {
    if i == 0 {
      assert Placed(run[0], map[]);
    } else {
      InvHolds(run, i - 1);
      NextKeepsInv(run[i - 1], run[i]);
    }
  }

  lemma HeldMeansHeld(s: State, w: map<Conn, Place>, c: Conn)
    requires Placed(s, w) && c in s.dialed
    ensures SomeoneHolds(s, c) <==> w[c].HeldBy?
    ensures Pooled(s, c) <==> w[c].InPool?
  {
    if t :| 0 <= t < |s.threads| && InFlight(s.threads[t], c) {
      assert ThreadOk(s.dialed, s.handed, w, t, s.threads[t]);
    }
  }

  lemma HolderIsPlaced(s: State, w: map<Conn, Place>, c: Conn, t: nat)
    requires Placed(s, w) && t < |s.threads| && InFlight(s.threads[t], c)
    ensures c in w && w[c] == HeldBy(t)
  {
    assert ThreadOk(s.dialed, s.handed, w, t, s.threads[t]);
  }

  lemma PlacedOnce(s: State, w: map<Conn, Place>, c: Conn)
    requires Placed(s, w) && c in s.dialed
    ensures Places(s, c) == 1
  {
    HeldMeansHeld(s, w, c);
  }

  /** Under every interleaving each dialed connection is in exactly one place: held by
      one goroutine inside getClient, pooled, evicted, or closed once. A pooled one is
      filed under the host it leads to. */
  lemma ExactlyOnePlace(run: seq<State>, i: nat, c: Conn)
    requires IsRun(run) && i < |run|
    ensures c in run[i].dialed ==> Places(run[i], c) == 1
    ensures forall h :: h in run[i].shared.clients && run[i].shared.clients[h] == c ==>
              c in run[i].dialed && run[i].dialed[c] == h
    ensures forall t, u | 0 <= t < |run[i].threads| && 0 <= u < |run[i].threads| ::
              InFlight(run[i].threads[t], c) && InFlight(run[i].threads[u], c) ==> t == u
  {
    InvHolds(run, i);
    var w: map<Conn, Place> :| Placed(run[i], w);
    if c in run[i].dialed {
      PlacedOnce(run[i], w, c);
    }
    forall t, u | 0 <= t < |run[i].threads| && 0 <= u < |run[i].threads|
                  && InFlight(run[i].threads[t], c) && InFlight(run[i].threads[u], c)
      ensures t == u
    {
      HolderIsPlaced(run[i], w, c, t);
      HolderIsPlaced(run[i], w, c, u);
    }
  }

  /** No caller's connection is closed before Close, and a caller gets a connection
      to the host it asked for. */
  lemma HandedStayOpen(run: seq<State>, i: nat, c: Conn)
    requires IsRun(run) && i < |run| && !run[i].closed && c in run[i].handed
    ensures c in run[i].dialed && run[i].shared.closes[c] == 0
    ensures forall t :: 0 <= t < |run[i].threads| && run[i].threads[t].Got? && run[i].threads[t].conn == c ==>
              run[i].threads[t].host == run[i].dialed[c]
  {
    InvHolds(run, i);
    var w: map<Conn, Place> :| Placed(run[i], w);
    forall t | 0 <= t < |run[i].threads| && run[i].threads[t].Got? && run[i].threads[t].conn == c
      ensures run[i].threads[t].host == run[i].dialed[c]
    {
      assert ThreadOk(run[i].dialed, run[i].handed, w, t, run[i].threads[t]);
    }
  }

  lemma CloseClosesAllButHeld(s: State, s': State)
    requires Inv(s) && CloseStep(s, s')
    ensures forall c :: c in s.dialed ==> (s'.shared.closes[c] == 1 <==> !SomeoneHolds(s, c))
  {
    var w: map<Conn, Place> :| Placed(s, w);
    CloseKeeps(s, w, s');
    forall c | c in s.dialed ensures SomeoneHolds(s, c) <==> w[c].HeldBy? {
      HeldMeansHeld(s, w, c);
    }
  }

  /** A Close closes every connection made so far exactly once if and only if no
      goroutine holds one that it has dialed but not yet filed. */
  lemma CloseIsCompleteIffQuiet(run: seq<State>, i: nat, after: State)
    requires IsRun(run) && i < |run| && CloseStep(run[i], after)
    ensures (forall c :: c in after.dialed ==> after.shared.closes[c] == 1)
            <==> (forall t :: 0 <= t < |run[i].threads| ==> !run[i].threads[t].Dialed? && !run[i].threads[t].Losing?)
  {
    InvHolds(run, i);
    var s := run[i];
    CloseClosesAllButHeld(s, after);
    if t :| 0 <= t < |s.threads| && (s.threads[t].Dialed? || s.threads[t].Losing?) {
      var w: map<Conn, Place> :| Placed(s, w);
      assert ThreadOk(s.dialed, s.handed, w, t, s.threads[t]);
      assert InFlight(s.threads[t], s.threads[t].conn);
      assert SomeoneHolds(s, s.threads[t].conn);
    } else {
      assert forall c :: !SomeoneHolds(s, c);
    }
  }

  /** What Close misses later: a connection that is open after a Close was being
      filed at that moment or was dialed afterwards. */
  lemma OnlyLateDialsSurvive(run: seq<State>, i: nat, j: nat, c: Conn)
    requires IsRun(run) && i + 1 <= j < |run| && CloseStep(run[i], run[i + 1])
    requires c in run[j].dialed && run[j].shared.closes[c] == 0
    ensures c !in run[i].dialed || SomeoneHolds(run[i], c)
  {
    InvHolds(run, i);
    CloseClosesAllButHeld(run[i], run[i + 1]);
    ClosesGrow(run, i + 1, j, c);
  }

  lemma InvalidateOrThreadCloses(s: State, s': State, c: Conn)
    requires Next(s, s')
    ensures s.shared.closes[c] <= s'.shared.closes[c]
  {
  }

  lemma {:induction false} ClosesGrow(run: seq<State>, i: nat, j: nat, c: Conn)
    requires IsRun(run) && i <= j < |run|
    ensures run[i].shared.closes[c] <= run[j].shared.closes[c]
    decreases j
  {
    if i < j {
      ClosesGrow(run, i, j - 1, c);
      InvalidateOrThreadCloses(run[j - 1], run[j], c);
    }
  }

  /** A goroutine begins to dial only a host that has no pooled client; a pooled one is
      handed out as it is. */
  lemma PooledIsNotDialed(s: State, t: nat, s': State, host: Host)
    requires ThreadStep(s, t, s') && host in s.shared.clients
    ensures s'.threads[t] == Dialing(host) ==> s.threads[t] == Dialing(host)
    ensures (s.threads[t].Idle? || s.threads[t].Got?) && s'.threads[t].Got? && s'.threads[t].host == host ==>
              s'.threads[t].conn == s.shared.clients[host] && s'.dialed == s.dialed && s'.shared == s.shared
  {
  }

  lemma DialStarts(s: State, host: Host)
    requires s.threads == [Idle] && host !in s.shared.clients
    ensures Next(s, s.(threads := [Dialing(host)]))
  {
    var s' := s.(threads := [Dialing(host)]);
    assert Lookup(s, 0, host, s');
    assert ThreadStep(s, 0, s');
  }

  lemma DialConnects(s: State, host: Host, c: Conn)
    requires s.threads == [Dialing(host)] && c !in s.dialed
    ensures Next(s, s.(dialed := s.dialed[c := host], threads := [Dialed(host, c)]))
  {
    var s' := s.(dialed := s.dialed[c := host], threads := [Dialed(host, c)]);
    assert s'.threads == s.threads[0 := Dialed(host, c)];
    assert ThreadStep(s, 0, s');
  }

  lemma DialFiles(s: State, host: Host, c: Conn)
    requires s.threads == [Dialed(host, c)] && host !in s.shared.clients
    ensures Next(s, s.(shared := Install(s.shared, host, c), threads := [Got(host, c)], handed := s.handed + {c}))
  {
    var s' := s.(shared := Install(s.shared, host, c), threads := [Got(host, c)], handed := s.handed + {c});
    assert s'.threads == s.threads[0 := Got(host, c)];
    assert ThreadStep(s, 0, s');
  }

  /** Such survivors exist: a dial that finishes after Close is filed in the closed
      pool and stays open. */
  lemma DialAfterCloseLeaks(host: Host) returns (run: seq<State>)
    ensures IsRun(run) && |run| == 5
    ensures run[2].closed && run[2].dialed == map[]
    ensures run[4].dialed == map[0 := host] && run[4].shared.clients == map[host := 0]
    ensures run[4].shared.closes[0] == 0
  {
    var s0 := State(EMPTY, map[], [Idle], {}, false);
    var s1 := s0.(threads := [Dialing(host)]);
    var s2 := s1.(shared := CloseAll(EMPTY), closed := true);
    var s3 := s2.(dialed := map[0 := host], threads := [Dialed(host, 0)]);
    var s4 := s3.(shared := Install(s3.shared, host, 0), threads := [Got(host, 0)], handed := {0});
    DialStarts(s0, host);
    assert Next(s1, s2) by { assert CloseStep(s1, s2); }
    DialConnects(s2, host, 0);
    DialFiles(s3, host, 0);
    run := [s0, s1, s2, s3, s4];
  }
}
