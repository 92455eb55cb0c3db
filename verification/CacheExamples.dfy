/** Two short uses of the connection cache in which it does what its callers do not expect. */
module CacheExamples {
  import opened Wrappers
  import opened Sequences
  import opened OrderedMap
  import opened CacheBooks
  import opened Cache

  /** The caller opens a connection for an entry and gives it back for reuse, and there is room for it. */
  method Use(c: ConnectionCache, e: SocketEntry, fd: int, limit: nat)
    requires c.Inv() && e in c.held && e.fd == -1 && fd >= 0 && fd !in c.issued
    requires e.dns.Some? && e.dns.value.cachePriority > 0 && e.hostname != "" && e.port > 0 && |c.fifo| < limit
    modifies c, c.cache`dns, c.cache`fd, e
    ensures c.Inv() && c.held == old(c.held) - {e} && c.Stored() == old(c.Stored()) + {e}
    ensures e.fd == fd && e.dns == old(e.dns) && !e.tls && c.issued == old(c.issued) + {fd}
    ensures |c.fifo| == |old(c.fifo)| + 1 && c.counter == old(c.counter) + 1 && c.fifo == old(c.fifo[c.counter := e])
    ensures forall x | x in old(c.Stored()) :: x.dns == old(x.dns) && x.fd == old(x.fd)
  {
    hide Balanced, Ordered, ConnectionCache.Books, ConnectionCache.Traced, MadeRoom, Stopped, Open, Keep;
    UseIssued(c, fd);
    c.BooksAre();
    ghost var first := c.Books();
    c.OpenSocket(e, fd, false);
    c.BooksAre();
    ghost var before := c.Books();
    OpenIs(first, e, fd);
    var crashed;
    ghost var room;
    crashed, room := c.StopSocket(e, limit, true);
    c.BooksAre();
    KeepIs(before, e);
    forall x | x in old(c.Stored()) ensures x.dns == old(x.dns) && x.fd == old(x.fd) {
      assert c.Books().cards[x] == first.cards[x] && x in c.Stored();
    }
  }

  lemma OpenIs(b: Books<SocketEntry>, e: SocketEntry, fd: int)
    requires Balanced(b) && e in b.held
    ensures e in b.cards && e !in b.stored
    ensures var c := Open(b, e, fd);
            && c.stored == b.stored && c.held == b.held && c.fifo == b.fifo && c.counter == b.counter
            && c.issued == b.issued + {fd} && c.cards.Keys == b.cards.Keys
            && forall x | x in b.stored :: x in c.cards && x in b.cards && c.cards[x] == b.cards[x]
  {
  }

  lemma KeepIs(b: Books<SocketEntry>, e: SocketEntry)
    requires Balanced(b) && e in b.held
    ensures e in b.cards && e !in b.stored
    ensures var c := Keep(b, e);
            && c.stored == b.stored + {e} && c.held == b.held - {e} && c.fifo == b.fifo[b.counter := e]
            && c.counter == b.counter + 1 && c.issued == b.issued && c.cards.Keys == b.cards.Keys
            && c.cards[e].fd == b.cards[e].fd
            && forall x | x in b.stored :: x in c.cards && x in b.cards && c.cards[x] == b.cards[x]
  {
  }

  lemma UseIssued(c: ConnectionCache, fd: int)
    requires c.Inv() && fd !in c.issued
    ensures fd !in c.owner && fd !in c.closed
  {
    c.BooksAre();
  }

  lemma {:induction false} DistinctSize(s: seq<SocketEntry>)
    requires Distinct(s)
    ensures |set x | x in s| == |s|
  {
    if s != [] {
      var init, last := s[..|s| - 1], s[|s| - 1];
      DistinctSize(init);
      assert s == init + [last];
      assert (set x | x in s) == (set x | x in init) + {last};
    }
  }

  lemma SeqOfOne(s: seq<SocketEntry>, a: SocketEntry)
    requires Distinct(s) && (set x | x in s) == {a}
    ensures s == [a]
  {
    var all := set x | x in s;
    assert all == {a} && a in all;
    forall i | 0 <= i < |s| ensures s[i] == a {
      assert s[i] in all;
    }
    DistinctSize(s);
  }

  lemma SeqOfTwo(s: seq<SocketEntry>, a: SocketEntry, b: SocketEntry)
    requires Ordered(s) && (set x | x in s) == {a, b} && Less(a.hostname, b.hostname)
    ensures s == [a, b]
  {
    hide Less;
    LessTotal(a.hostname, b.hostname);
    var all := set x | x in s;
    assert all == {a, b} && a in all && b in all;
    forall i | 0 <= i < |s| ensures s[i] == a || s[i] == b {
      assert s[i] in all;
    }
    var i, j :| 0 <= i < |s| && 0 <= j < |s| && s[i] == a && s[j] == b;
    assert i < j;
    DistinctSize(s);
  }

  lemma NoneOfHost(c: ConnectionCache, hostname: string)
    requires forall x | x in c.cache :: x.hostname != hostname
    ensures c.First(hostname) == |c.cache|
  {
  }

  /** The first use of a host; its connection is kept. */
  method FirstUse(c: ConnectionCache, hostname: string, port: nat, fd: int, address: int) returns (e: SocketEntry)
    requires c.Inv() && (forall x | x in c.cache :: x.hostname != hostname)
    requires fd >= 0 && fd !in c.issued && hostname != "" && port > 0
    modifies c, c.cache`dns, c.cache`fd
    ensures c.Inv() && fresh(e) && e.hostname == hostname && e.port == port && e.dns.Some? && !e.tls
    ensures c.Stored() == old(c.Stored()) + {e} && c.issued == old(c.issued) + {fd}
    ensures forall x | x in old(c.cache) :: x.dns == old(x.dns)
  {
    hide Balanced, Ordered, ConnectionCache.Books, ConnectionCache.Traced, Usable;
    NoneOfHost(c, hostname);
    var r;
    ghost var at;
    r, at := c.Resolve(hostname, port, false, Some(address));
    e := r.value;
    assert c.cache == old(c.cache) by {
      assert old(c.cache)[|old(c.cache)|..] == [];
    }
    Use(c, e, fd, |c.fifo| + 1);
  }

  /** Two hosts have been talked to, and both connections are kept. */
  method TwoHosts() returns (c: ConnectionCache, a: SocketEntry, b: SocketEntry)
    ensures c.Inv() && c.cache == [a, b] && a.hostname == "a" && a.port == 80 && b.hostname == "b" && b.port == 443
    ensures a.dns.Some? && b.dns.Some? && !a.tls && !b.tls
  {
    hide Balanced, ConnectionCache.Books, ConnectionCache.Traced, Less;
    c := new ConnectionCache();
    a := FirstUse(c, "a", 80, 3, 1);
    assert c.Stored() == {a};
    SeqOfOne(c.cache, a);
    b := FirstUse(c, "b", 443, 4, 2);
    assert c.Stored() == {a, b};
    ALess();
    SeqOfTwo(c.cache, a, b);
  }

  lemma ALess()
    ensures Less("a", "b")
  {
  }

  /** A request for port 443 of host "a" is answered with the connection to host "b". */
  method WrongHostAnswered(c: ConnectionCache, a: SocketEntry, b: SocketEntry, address: Option<int>)
    returns (r: Result<SocketEntry>)
    requires c.Inv() && c.cache == [a, b] && a.hostname == "a" && a.port == 80 && b.hostname == "b" && b.port == 443
    requires a.dns.Some? && b.dns.Some? && !a.tls && !b.tls
    modifies c, c.cache`dns
    ensures r == Ok(b)
  {
    hide Balanced, Ordered, ConnectionCache.Books, ConnectionCache.Traced, Usable, Without, ConnectionCache.Inv;
    ghost var at;
    assert !c.cache[0].Serves(443, false) && c.cache[1].Serves(443, false);
    r, at := c.Resolve("a", 443, false, address);
  }

  lemma NoneBefore(m: map<nat, SocketEntry>, k: nat, e: SocketEntry)
    requires |m[k := e]| == 1 && k !in m
    ensures m == map[]
  {
    assert m[k := e].Keys == m.Keys + {k};
    assert |m.Keys| == 0;
  }

  /** When the only cached connection had to make room, its entry has no address any more. */
  lemma OldestLost(b: Books<SocketEntry>, room: Books<SocketEntry>, k: nat, x: SocketEntry, e: SocketEntry)
    requires Balanced(b) && b.fifo == map[k := x] && MadeRoom(b, room) && Balanced(room) && e in room.held
    requires |Keep(room, e).fifo| == 1
    ensures Keep(room, e).stored == b.stored + {e}
    ensures x in Keep(room, e).stored && x in Keep(room, e).cards && Keep(room, e).cards[x].dns == None
  {
    FifoEntry(b, k);
    CounterIsNew(room);
    KeepIs(room, e);
    hide Balanced, Keep;
    NoneBefore(room.fifo, room.counter, e);
    assert k in b.fifo && k !in room.fifo && b.fifo[k] == x;
  }

  /** A caller asks the empty cache. */
  method Ask(c: ConnectionCache, port: nat) returns (e: SocketEntry)
    requires c.Inv() && c.cache == []
    modifies c
    ensures c.Inv() && c.cache == [] && c.fifo == old(c.fifo) && c.issued == old(c.issued)
    ensures fresh(e) && c.held == old(c.held) + {e} && e.IsNew("a", port, 1)
  {
    hide Balanced, Ordered, ConnectionCache.Books, ConnectionCache.Traced, Usable;
    var r;
    ghost var at;
    r, at := c.Resolve("a", port, false, Some(1));
    e := r.value;
  }

  /** With one connection cached, a second one is given back for reuse where only one may be cached. */
  method UseInstead(c: ConnectionCache, ghost x: SocketEntry, ghost k: nat, e: SocketEntry, fd: int)
    requires c.Inv() && e in c.held && e.IsNew("a", 2, 1) && fd >= 0 && fd !in c.issued
    requires c.fifo == map[k := x] && c.cache == [x]
    modifies c, c.cache`dns, c.cache`fd, e
    ensures c.Inv() && c.held == old(c.held) - {e} && c.Stored() == {x, e} && x.dns == None
  {
    hide Balanced, Ordered, ConnectionCache.Books, ConnectionCache.Traced, MadeRoom, Stopped, Open, Keep;
    UseIssued(c, fd);
    c.OpenSocket(e, fd, false);
    c.BooksAre();
    ghost var before := c.Books();
    var crashed;
    ghost var room;
    crashed, room := c.StopSocket(e, 1, true);
    c.BooksAre();
    OldestLost(before, room, k, x, e);
  }

  /** Three callers asked for one host, and the first has given its connection back. */
  method ThreeAsked() returns (c: ConnectionCache, x: SocketEntry, y: SocketEntry, z: SocketEntry, ghost k: nat)
    ensures c.Inv() && c.cache == [x] && c.fifo == map[k := x] && c.issued == {3}
    ensures y in c.held && z in c.held && y != z && x != z
    ensures x.hostname == "a" && y.IsNew("a", 2, 1) && z.IsNew("a", 3, 1)
    ensures fresh(c) && fresh(x) && fresh(y) && fresh(z)
  {
    hide Balanced, Ordered, ConnectionCache.Books, ConnectionCache.Traced;
    c := new ConnectionCache();
    x := Ask(c, 1);
    y := Ask(c, 2);
    z := Ask(c, 3);
    k := c.counter;
    Use(c, x, 3, 1);
    assert c.Stored() == {x};
    OneOrdered(c, x);
  }

  lemma OneOrdered(c: ConnectionCache, x: SocketEntry)
    requires Ordered(c.cache) && c.Stored() == {x}
    ensures c.cache == [x]
  {
    SeqOfOne(c.cache, x);
  }

  /**
   Two connections given back to a cache that keeps one, and the shutdown of a third one of that host reads
   an address that is not there any more.
   */
  method ShutdownCrashes() returns (crashed: bool)
    ensures crashed
  {
    hide Balanced, Ordered, ConnectionCache.Books, ConnectionCache.Traced, ConnectionCache.First;
    var c, x, y, z;
    ghost var k;
    c, x, y, z, k := ThreeAsked();
    UseInstead(c, x, k, y, 4);
    HasEvicted(c, x);
    assert forall e | e in c.cache :: e in c.Stored();
    assert forall i | 0 <= i < |c.cache| :: c.cache[i] in c.cache;
    assert fresh(c) && fresh(z);
    assert forall i | 0 <= i < |c.cache| :: fresh(c.cache[i]);
    crashed := c.ShutdownSocket(z);
  }

  lemma HasEvicted(c: ConnectionCache, x: SocketEntry)
    requires x in c.Stored() && x.hostname == "a" && x.dns.None?
    ensures c.SeesEvicted(c.First("a"))
  {
    assert x in c.cache;
  }
}
