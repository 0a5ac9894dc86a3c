/** The pool object: the critical sections of getClient, invalidateClient and Close
    change exactly what the steps of PoolSpec say (internal/ssh/client.go). */
module SshPool {
  import opened Wrappers
  import opened PoolSpec

  class Pool {
    var configured: bool
    var clients: map<Host, Conn>
    var evicted: seq<Conn>
    var closes: multiset<Conn>  // how often each connection has been closed

    constructor ()
      ensures View() == EMPTY
    {
      configured, clients, evicted, closes := false, map[], [], multiset{};
    }

    function View(): Shared
      reads this
    {
      Shared(clients, evicted, closes)
    }

    /** The first critical section of getClient. The key is read on first use. */
    method FindClient(host: Host, keyReadable: bool) returns (r: Result<Option<Conn>, string>)
      modifies this`configured
      ensures r.Err? <==> !old(configured) && !keyReadable
      ensures r.Ok? ==> configured && r.value == if host in clients then Some(clients[host]) else None
    {
      if !configured {
        if !keyReadable {
          return Err("failed to read private key");
        }
        configured := true;
      }
      r := Ok(if host in clients then Some(clients[host]) else None);
    }

    /** The second critical section: file the new connection unless another one is there. */
    method AddClient(host: Host, conn: Conn) returns (winner: Conn, filed: bool)
      modifies this`clients
      ensures View() == Install(old(View()), host, conn)
      ensures host in clients && winner == clients[host]
      ensures filed <==> host !in old(clients)
    {
      if host in clients {
        return clients[host], false;
      }
      clients := clients[host := conn];
      return conn, true;
    }

    method CloseConn(conn: Conn)
      modifies this`closes
      ensures closes == old(closes) + multiset{conn}
    {
      closes := closes + multiset{conn};
    }

    /** Whatever other goroutines do while this one holds no lock. */
    method OthersRun()
      modifies this
    {
    }

    /** getClient as a whole. While it dials, the others leave the pool as met. The
        connection met there wins over the caller's own, which is filed only if there is
        none, and the loser is closed once. */
    method GetClient(host: Host, keyReadable: bool, dial: Option<Conn>)
      returns (r: Result<Conn, string>, dialed: bool, ghost met: Shared)
      modifies this
      ensures !dialed ==> met == old(View()) == View()
      ensures !dialed && r.Ok? ==> host in met.clients && r.value == met.clients[host]
      ensures old(host in clients && (configured || keyReadable)) ==> !dialed && r.Ok?
      ensures dialed ==> (r.Ok? <==> dial.Some?)
      ensures dialed && r.Ok? ==> r.value == if host in met.clients then met.clients[host] else dial.value
      ensures dialed ==>
                View() == if r.Err? then met
                          else Install(met, host, dial.value).(closes := met.closes + Losers(met, host, dial.value))
      ensures r.Err? && !dialed ==> !keyReadable
    {
      var found := FindClient(host, keyReadable);
      met := View();
      if found.Err? {
        return Err(found.error), false, met;
      }
      if found.value.Some? {
        return Ok(found.value.value), false, met;
      }
      OthersRun();
      met := View();
      if dial.None? {
        return Err("failed to dial"), true, met;
      }
      var winner, filed := AddClient(host, dial.value);
      if !filed {
        CloseConn(dial.value);
      }
      return Ok(winner), true, met;
    }

    /** The caller's own connection, if another one was there first. */
    function Losers(met: Shared, host: Host, own: Conn): multiset<Conn> {
      if host in met.clients then multiset{own} else multiset{}
    }

    method InvalidateClient(host: Host)
      modifies this`clients, this`evicted
      ensures View() == Invalidate(old(View()), host)
    {
      if host in clients {
        evicted := evicted + [clients[host]];
        clients := clients - {host};
      }
    }

    /** No two hosts share a connection (ExactlyOnePlace shows that they never do). */
    ghost predicate OwnConnections()
      reads this`clients
    {
      forall h, k :: h in clients && k in clients && clients[h] == clients[k] ==> h == k
    }

    method Close()
      requires OwnConnections()
      modifies this`clients, this`evicted, this`closes
      ensures View() == CloseAll(old(View()))
    {
      CloseClients();
      clients := map[];
      CloseEvicted();
      evicted := [];
    }

    method CloseClients()
      requires OwnConnections()
      modifies this`closes
      ensures closes == old(closes) + multiset(clients.Values)
    {
      var todo := clients.Keys;
      ghost var closed: set<Conn> := {};
      while todo != {}
        invariant todo <= clients.Keys
        invariant forall h :: h in clients ==> (clients[h] in closed <==> h !in todo)
        invariant closed <= clients.Values
        invariant closes == old(closes) + multiset(closed)
        decreases todo
      {
        var host :| host in todo;
        CloseConn(clients[host]);
        MultisetAdd(closed, clients[host]);
        closed := closed + {clients[host]};
        todo := todo - {host};
      }
      assert closed == clients.Values;
    }

    method CloseEvicted()
      modifies this`closes
      ensures closes == old(closes) + multiset(evicted)
    {
      for i := 0 to |evicted|
        invariant closes == old(closes) + multiset(evicted[..i])
      {
        CloseConn(evicted[i]);
        assert evicted[..i + 1] == evicted[..i] + [evicted[i]];
      }
      assert evicted[..|evicted|] == evicted;
    }
  }

  lemma MultisetAdd(s: set<Conn>, x: Conn)
    requires x !in s
    ensures multiset(s + {x}) == multiset(s) + multiset{x}
  {
  }
}
