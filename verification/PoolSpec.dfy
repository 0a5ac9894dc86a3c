/** Who owns an SSH connection while any number of goroutines get, invalidate and
    close clients of one pool (internal/ssh/client.go). The pool's lock makes each
    critical section one step; dialing happens between two of them, unlocked. */
module PoolSpec {
  import opened Wrappers

  type Host = string
  type Conn = nat

  /** The fields under the lock, and how often each connection has been closed. */
  datatype Shared = Shared(clients: map<Host, Conn>, evicted: seq<Conn>, closes: multiset<Conn>)

  const EMPTY := Shared(map[], [], multiset{})

  function Install(s: Shared, host: Host, conn: Conn): Shared {
    if host in s.clients then s else s.(clients := s.clients[host := conn])
  }

  function Invalidate(s: Shared, host: Host): Shared {
    if host in s.clients then s.(clients := s.clients - {host}, evicted := s.evicted + [s.clients[host]]) else s
  }

  function CloseAll(s: Shared): Shared {
    Shared(map[], [], s.closes + multiset(s.clients.Values) + multiset(s.evicted))
  }

  /** Where a goroutine is inside getClient. */
  datatype Pc =
    | Idle
    | Dialing(host: Host)
    | Dialed(host: Host, conn: Conn)               // connected, about to take the lock again
    | Losing(host: Host, conn: Conn, winner: Conn) // another client was there: closes its own
    | Got(host: Host, conn: Conn)

  datatype State = State(
    shared: Shared,
    dialed: map<Conn, Host>,  // every connection ever made, with the host it leads to
    threads: seq<Pc>,
    handed: set<Conn>,        // connections returned to callers
    closed: bool)             // Close has been called

  predicate InFlight(pc: Pc, c: Conn) {
    (pc.Dialed? || pc.Losing?) && pc.conn == c
  }

  ghost predicate Init(s: State) {
    && s.shared == EMPTY && s.dialed == map[] && s.handed == {} && !s.closed
    && forall t :: 0 <= t < |s.threads| ==> s.threads[t] == Idle
  }

  ghost predicate ThreadStep(s: State, t: nat, s': State) {
    t < |s.threads| &&
    match s.threads[t]
    case Dialing(host) =>
      || s' == s.(threads := s.threads[t := Idle])
      || exists c ::
           c !in s.dialed && s' == s.(dialed := s.dialed[c := host], threads := s.threads[t := Dialed(host, c)])
    case Dialed(host, c) =>
      if host in s.shared.clients then
        s' == s.(threads := s.threads[t := Losing(host, c, s.shared.clients[host])])
      else
        s' == s.(shared := Install(s.shared, host, c), threads := s.threads[t := Got(host, c)],
                 handed := s.handed + {c})
    case Losing(host, c, winner) =>
      s' == s.(shared := s.shared.(closes := s.shared.closes + multiset{c}),
               threads := s.threads[t := Got(host, winner)], handed := s.handed + {winner})
    case _ => exists host :: Lookup(s, t, host, s')  // idle, or done with an earlier call
  }

  /** The first critical section of getClient. */
  ghost predicate Lookup(s: State, t: nat, host: Host, s': State)
    requires t < |s.threads|
  {
    if host in s.shared.clients then
      s' == s.(threads := s.threads[t := Got(host, s.shared.clients[host])],
               handed := s.handed + {s.shared.clients[host]})
    else s' == s.(threads := s.threads[t := Dialing(host)])
  }

  ghost predicate InvalidateStep(s: State, s': State) {
    exists host :: s' == s.(shared := Invalidate(s.shared, host))
  }

  ghost predicate CloseStep(s: State, s': State) {
    s' == s.(shared := CloseAll(s.shared), closed := true)
  }

  ghost predicate Next(s: State, s': State) {
    (exists t: nat :: ThreadStep(s, t, s')) || InvalidateStep(s, s') || CloseStep(s, s')
  }

  ghost predicate IsRun(run: seq<State>) {
    run != [] && Init(run[0]) && forall i :: 0 <= i < |run| - 1 ==> Next(run[i], run[i + 1])
  }

  /* ---- One place for every connection ---- */

  ghost predicate SomeoneHolds(s: State, c: Conn) {
    exists t :: 0 <= t < |s.threads| && InFlight(s.threads[t], c)
  }

  ghost predicate Pooled(s: State, c: Conn) {
    c in s.shared.clients.Values
  }

  ghost function Places(s: State, c: Conn): nat {
    (if SomeoneHolds(s, c) then 1 else 0) + (if Pooled(s, c) then 1 else 0)
    + multiset(s.shared.evicted)[c] + s.shared.closes[c]
  }

  /** The one place a connection is in. */
  datatype Place = HeldBy(thread: nat) | InPool(host: Host) | InEvicted | IsClosed

  ghost predicate LeadsTo(dialed: map<Conn, Host>, c: Conn, host: Host) {
    c in dialed && dialed[c] == host
  }

  ghost predicate ThreadOk(dialed: map<Conn, Host>, handed: set<Conn>, w: map<Conn, Place>, t: nat, pc: Pc) {
    match pc
    case Idle => true
    case Dialing(_) => true
    case Dialed(host, c) => LeadsTo(dialed, c, host) && c in w && w[c] == HeldBy(t)
    case Losing(host, c, winner) =>
      LeadsTo(dialed, c, host) && c in w && w[c] == HeldBy(t) && LeadsTo(dialed, winner, host) && winner in handed
    case Got(host, c) => LeadsTo(dialed, c, host) && c in handed
  }

  ghost predicate ThreadsPlaced(s: State, w: map<Conn, Place>) {
    && (forall t :: 0 <= t < |s.threads| ==> ThreadOk(s.dialed, s.handed, w, t, s.threads[t]))
    && (forall c :: c in w && w[c].HeldBy? ==>
          w[c].thread < |s.threads| && InFlight(s.threads[w[c].thread], c))
    && (forall c :: c in s.handed ==> c in w && !w[c].HeldBy? && (!s.closed ==> !w[c].IsClosed?))
  }

  ghost predicate SharedPlaced(s: State, w: map<Conn, Place>) {
    PooledPlaced(s, w) && EvictedPlaced(s, w) && ClosedPlaced(s, w)
  }

  ghost predicate PooledPlaced(s: State, w: map<Conn, Place>) {
    && (forall h :: h in s.shared.clients ==>
          var c := s.shared.clients[h];
          LeadsTo(s.dialed, c, h) && c in w && w[c] == InPool(h) && c in s.handed)
    && (forall c :: c in w && w[c].InPool? ==> w[c].host in s.shared.clients && s.shared.clients[w[c].host] == c)
  }

  ghost predicate EvictedPlaced(s: State, w: map<Conn, Place>) {
    && (forall c :: c in w ==> multiset(s.shared.evicted)[c] == if w[c].InEvicted? then 1 else 0)
    && (forall c :: c in s.shared.evicted ==> c in w)
  }

  ghost predicate ClosedPlaced(s: State, w: map<Conn, Place>) {
    && (forall c :: c in w ==> s.shared.closes[c] == if w[c].IsClosed? then 1 else 0)
    && (forall c :: c in s.shared.closes ==> c in w)
  }

  /** The state agrees with an assignment of one place to each dialed connection. */
  ghost predicate Placed(s: State, w: map<Conn, Place>) {
    w.Keys == s.dialed.Keys && ThreadsPlaced(s, w) && SharedPlaced(s, w)
  }

  ghost predicate Inv(s: State) {
    exists w :: Placed(s, w)
  }
}
