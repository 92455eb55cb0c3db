/**
 The connection cache (`src/network/cache.cpp`). Descriptors are handles that are never given out twice,
 and an address is an abstract value that two entries may share.
 */
module Cache {
  import opened OrderedMap
  import opened Wrappers
  import opened Sequences
  import opened CacheBooks

  const DEFAULT_PRIORITY := 8

  class SocketEntry {
    const hostname: string
    const port: nat
    var dns: Option<Dns>
    var tls: bool
    /** Uninitialised in a new entry; `None` stands for a value that is no key of the fifo. */
    var timestamp: Option<nat>
    var fd: int

    constructor (hostname: string, port: nat, dns: Dns)
      ensures this.hostname == hostname && this.port == port && this.dns == Some(dns)
      ensures !tls && timestamp.None? && fd == -1
    {
      this.hostname, this.port, this.dns := hostname, port, Some(dns);
      tls, timestamp, fd := false, None, -1;
    }

    ghost function Entry(): Card
      reads this`dns, this`timestamp, this`fd
    {
      Card(dns, timestamp, fd)
    }

    predicate IsNew(hostname: string, port: nat, address: int)
      reads this`dns, this`fd
    {
      fd == -1 && dns == Some(Dns(address, DEFAULT_PRIORITY)) && this.hostname == hostname && this.port == port
    }

    /** What `resolve` looks for. */
    predicate Serves(port: nat, tls: bool)
      reads this`dns, this`tls
    {
      dns.Some? && this.port == port && this.tls == tls
    }
  }

  /** Entries of the same host are adjacent, in the order of insertion, and no entry is there twice. */
  ghost predicate Ordered(cache: seq<SocketEntry>) {
    Distinct(cache) && forall i, j | 0 <= i < j < |cache| :: !Less(cache[j].hostname, cache[i].hostname)
  }

  /** The entry is behind all of its own and of lesser hosts, and the others are as they were. */
  ghost predicate Inserted(before: seq<SocketEntry>, after: seq<SocketEntry>, e: SocketEntry) {
    exists i :: 0 <= i <= |before| && InsertedAt(before, after, e, i)
  }

  ghost predicate InsertedAt(before: seq<SocketEntry>, after: seq<SocketEntry>, e: SocketEntry, i: nat)
    requires i <= |before|
  {
    && after == before[..i] + [e] + before[i..]
    && (forall j | 0 <= j < i :: !Less(e.hostname, before[j].hostname))
    && forall j | i <= j < |before| :: Less(e.hostname, before[j].hostname)
  }

  /** The entries that are not gone, in order. */
  function Without(s: seq<SocketEntry>, gone: set<SocketEntry>): seq<SocketEntry> {
    if s == [] then []
    else
      var last := s[|s| - 1];
      Without(s[..|s| - 1], gone) + if last in gone then [] else [last]
  }

  /**
   The multimap once a scan that removes the `gone` from `start` on has reached the entry that was at
   `at`, and where that entry is now.
   */
  ghost function Swept(all: seq<SocketEntry>, start: nat, at: nat, gone: set<SocketEntry>): seq<SocketEntry>
    requires start <= at <= |all|
  {
    all[..start] + Without(all[start..at], gone) + all[at..]
  }

  ghost function Cursor(all: seq<SocketEntry>, start: nat, at: nat, gone: set<SocketEntry>): nat
    requires start <= at <= |all|
  {
    start + |Without(all[start..at], gone)|
  }

  lemma SweptStart(all: seq<SocketEntry>, start: nat, gone: set<SocketEntry>)
    requires start <= |all|
    ensures Swept(all, start, start, gone) == all && Cursor(all, start, start, gone) == start
  {
    assert all[start..start] == [];
  }

  lemma SweptStep(all: seq<SocketEntry>, start: nat, at: nat, gone: set<SocketEntry>)
    requires start <= at < |all|
    ensures var now, i := Swept(all, start, at, gone), Cursor(all, start, at, gone);
            && i < |now| && now[i] == all[at]
            && Swept(all, start, at + 1, gone) == (if all[at] in gone then RemoveAt(now, i) else now)
            && Cursor(all, start, at + 1, gone) == if all[at] in gone then i else i + 1
  {
    assert all[start..at + 1][..at - start] == all[start..at];
  }

  lemma SweptBounds(all: seq<SocketEntry>, start: nat, at: nat, gone: set<SocketEntry>)
    requires start <= at <= |all|
    ensures var now, i := Swept(all, start, at, gone), Cursor(all, start, at, gone);
            i <= |now| && (at == |all| <==> i == |now|)
  {
  }

  lemma SweptEnd(all: seq<SocketEntry>, start: nat, at: nat, gone: set<SocketEntry>)
    requires start <= at <= |all|
    ensures var now, i := Swept(all, start, at, gone), Cursor(all, start, at, gone);
            && i <= |now| && (at == |all| <==> i == |now|)
            && (at < |all| ==> RemoveAt(now, i) == all[..start] + Without(all[start..at], gone) + all[at + 1..])
            && (at == |all| ==> now == all[..start] + Without(all[start..], gone))
  {
    if at == |all| {
      assert all[start..at] == all[start..];
    }
  }

  /** Those of the `gone` that lie between `start` and `at`. */
  ghost function GoneSoFar(all: seq<SocketEntry>, start: nat, at: nat, gone: set<SocketEntry>): set<SocketEntry>
    requires start <= at <= |all|
  {
    set x | x in all[start..at] && x in gone
  }

  lemma GoneStep(all: seq<SocketEntry>, start: nat, at: nat, gone: set<SocketEntry>)
    requires start <= at < |all|
    ensures var g := GoneSoFar(all, start, at, gone);
            GoneSoFar(all, start, at + 1, gone) == if all[at] in gone then g + {all[at]} else g
  {
    assert all[start..at + 1] == all[start..at] + [all[at]];
  }

  lemma GoneAll(all: seq<SocketEntry>, start: nat, gone: set<SocketEntry>)
    requires start <= |all| && forall x | x in gone :: x in all[start..]
    ensures GoneSoFar(all, start, start, gone) == {} && GoneSoFar(all, start, |all|, gone) == gone
  {
    assert all[start..|all|] == all[start..];
  }

  /** An entry from `start` on, of this host if `own` asks for it, would serve the request. */
  ghost predicate Usable(all: seq<SocketEntry>, start: nat, hostname: string, port: nat, tls: bool, own: bool)
    reads all
  {
    exists j :: start <= j < |all| && all[j].Serves(port, tls) && (own ==> all[j].hostname == hostname)
  }

  /** In the order of the multimap, the entries of a host precede all others that are scanned for it. */
  lemma OwnComesFirst(all: seq<SocketEntry>, start: nat, at: nat, hostname: string, port: nat, tls: bool)
    requires Ordered(all) && start <= at <= |all| && (start < |all| ==> all[start].hostname == hostname)
    requires forall j | start <= j < at :: !all[j].Serves(port, tls)
    requires at < |all| ==> all[at].Serves(port, tls)
    ensures Usable(all, start, hostname, port, tls, false) <==> at < |all|
    ensures at < |all| ==> (all[at].hostname == hostname <==> Usable(all, start, hostname, port, tls, true))
  {
    if at < |all| && Usable(all, start, hostname, port, tls, true) {
      LessTotal(all[at].hostname, hostname);
    }
  }

  /** A request for port 443 of host "a" can be answered with a connection to host "b". */
  lemma WrongHost(a: SocketEntry, b: SocketEntry)
    requires a.hostname == "a" && a.port == 80 && b.hostname == "b" && b.port == 443
    requires a.dns.Some? && b.dns.Some? && !a.tls && !b.tls
    ensures Ordered([a, b]) && Usable([a, b], 0, "a", 443, false, false) && !Usable([a, b], 0, "a", 443, false, true)
  {
    assert [a, b][1].Serves(443, false);
  }

  class ConnectionCache {
    /** The multimap: its entries in iteration order, each keyed by its hostname. */
    var cache: seq<SocketEntry>
    var fifo: map<nat, SocketEntry>
    var counter: nat
    ghost var held: set<SocketEntry>
    ghost var owner: map<int, SocketEntry>
    ghost var issued: set<int>
    ghost var closed: seq<int>
    /** Everything done to the cache so far, as elementary moves. */
    ghost var moves: seq<Move<SocketEntry>>

    ghost function Stored(): set<SocketEntry>
      reads this`cache
    {
      set e | e in cache
    }

    /** The entries that lost their descriptor and address to make room. */
    ghost function Evicted(): set<SocketEntry>
      reads this`cache, cache`dns
    {
      set e | e in cache && e.dns.None?
    }

    ghost function Books(): Books<SocketEntry>
      reads this`cache, this`fifo, this`counter, this`held, this`owner, this`issued, this`closed, cache, held
    {
      CacheBooks.Books(Stored(), held, map e | e in Stored() + held :: e.Entry(), fifo, counter, owner, issued,
                       closed)
    }

    /** The books are what the moves have made of those of an empty cache. */
    ghost predicate Traced()
      reads this, cache, held
    {
      After(moves) == Some(Books())
    }

    ghost predicate Inv()
      reads this, cache, held
    {
      Ordered(cache) && Balanced(Books()) && Traced()
    }

    /** One more move, from the books as they were to the books as they are. */
    ghost method Record(before: Books<SocketEntry>, m: Move<SocketEntry>)
      requires After(moves) == Some(before) && Allowed(before, m) && Books() == Make(before, m)
      modifies this`moves
      ensures Traced() && Balanced(Books()) && Books() == old(Books()) && moves == old(moves) + [m]
    {
      hide Balanced, Allowed, Make, After, ConnectionCache.Books;
      AfterMore(moves, before, m);
      MakeKeeps(before, m);
      moves := moves + [m];
    }

    constructor ()
      ensures Inv() && cache == [] && fifo == map[] && held == {} && owner == map[] && issued == {} && closed == []
      ensures moves == []
    {
      cache, fifo, counter, held, owner, issued, closed := [], map[], 0, {}, map[], {}, [];
      moves := [];
    }

    /** `close`: the descriptor must be open, so nothing is ever closed twice. */
    ghost method Close(fd: int)
      requires fd in owner && fd !in closed
      modifies this`owner, this`closed
      ensures owner == old(owner) - {fd} && closed == old(closed) + [fd]
      ensures Distinct(old(closed)) ==> Distinct(closed)
    {
      if Distinct(closed) {
        DistinctMore(closed, fd);
      }
      owner := owner - {fd};
      closed := closed + [fd];
    }

    /** Where `multimap::emplace` puts an entry: behind all that are not greater. */
    method UpperBound(hostname: string) returns (i: nat)
      requires Ordered(cache)
      ensures i <= |cache|
      ensures forall j | 0 <= j < i :: !Less(hostname, cache[j].hostname)
      ensures forall j | i <= j < |cache| :: Less(hostname, cache[j].hostname)
    {
      i := 0;
      while i < |cache| && !Less(hostname, cache[i].hostname)
        invariant i <= |cache| && forall j | 0 <= j < i :: !Less(hostname, cache[j].hostname)
      {
        i := i + 1;
      }
      forall j | i <= j < |cache| ensures Less(hostname, cache[j].hostname) {
        LessTotal(cache[i].hostname, cache[j].hostname);
        if cache[i].hostname != cache[j].hostname {
          LessTransitive(hostname, cache[i].hostname, cache[j].hostname);
        }
      }
    }

    method Emplace(e: SocketEntry)
      requires Ordered(cache) && e !in cache
      modifies this`cache
      ensures Ordered(cache) && Stored() == old(Stored()) + {e} && Inserted(old(cache), cache, e)
    {
      var i := UpperBound(e.hostname);
      InsertAtIs(cache, i, e);
      forall j | i <= j < |cache| ensures !Less(cache[j].hostname, e.hostname) {
        LessTotal(e.hostname, cache[j].hostname);
      }
      cache := InsertAt(cache, i, e);
      assert InsertedAt(old(cache), cache, e, i);
    }

    /** The first entry of the fifo. */
    method Begin() returns (it: nat)
      requires fifo != map[]
      ensures it in fifo && forall k | k in fifo :: it <= k
    {
      ghost var least := HasLeast(fifo.Keys);
      assert least in fifo && forall k | k in fifo :: least <= k;
      it :| it in fifo && forall k | k in fifo :: it <= k;
    }

    /** One turn of the loop that makes room: closes the oldest cached descriptor. */
    method EvictOldest() returns (ghost oldest: nat)
      requires Inv() && fifo != map[]
      modifies this`fifo, this`owner, this`closed, this`moves, fifo.Values`dns, fifo.Values`fd
      ensures cache == old(cache) && held == old(held) && old(moves) <= moves
      ensures Inv() && oldest in old(fifo) && Books() == Evict(old(Books()), oldest)
      ensures forall k | k in old(fifo) :: oldest <= k
    {
      hide Balanced, Ordered, ConnectionCache.Books, Evict;
      var it := Begin();
      BooksAre();
      EvictKeeps(Books(), it);
      EvictAt(it, fifo[it]);
      oldest := it;
    }

    method EvictAt(it: nat, x: SocketEntry)
      requires Inv() && it in fifo && fifo[it] == x
      modifies this`fifo, this`owner, this`closed, this`moves, x`dns, x`fd
      ensures Books() == Evict(old(Books()), it) && Traced() && old(moves) <= moves
    {
      hide Balanced, Ordered, After;
      ghost var before := Books();
      FifoEntry(before, it);
      if x.fd >= 0 {
        Close(x.fd);
      }
      x.fd := -1;
      x.dns := None;
      fifo := fifo - {it};
      assert Books() == Evict(before, it);
      assert Allowed(before, Evicting(it)) && Books() == Make(before, Evicting(it));
      hide *;
      Record(before, Evicting(it));
    }

    /**
     The loop of `stopSocket` that makes room for one more cached descriptor. If none may be cached it goes
     on to erase from the empty fifo, which the standard library does not allow.
     */
    method MakeRoom(cacheEntries: nat) returns (crashed: bool)
      requires Inv()
      modifies this`fifo, this`owner, this`closed, this`moves, cache`dns, cache`fd
      ensures Inv() && cache == old(cache) && held == old(held) && old(moves) <= moves
      ensures crashed <==> cacheEntries == 0
      ensures MadeRoom(old(Books()), Books()) && (!crashed ==> |fifo| < cacheEntries)
      ensures |old(fifo)| < cacheEntries ==> Books() == old(Books())
      ensures |old(fifo)| >= cacheEntries > 0 ==> |fifo| == cacheEntries - 1
    {
      hide Balanced, Ordered, MadeRoom, ConnectionCache.Books, ConnectionCache.Traced, ConnectionCache.Inv;
      ghost var before := Books();
      MadeRoomStart(before);
      while |fifo| >= cacheEntries
        invariant Inv() && cache == old(cache) && held == old(held) && MadeRoom(before, Books())
        invariant old(moves) <= moves
        invariant |old(fifo)| < cacheEntries ==> Books() == before && fifo == old(fifo)
        invariant |old(fifo)| >= cacheEntries > 0 ==> |fifo| >= cacheEntries - 1
        decreases |fifo|
      {
        if fifo == map[] {
          return true;
        }
        MakeMoreRoom(before);
      }
      crashed := false;
    }

    /** One turn of that loop. */
    method MakeMoreRoom(ghost before: Books<SocketEntry>)
      requires Inv() && MadeRoom(before, Books()) && fifo != map[]
      modifies this`fifo, this`owner, this`closed, this`moves, cache`dns, cache`fd
      ensures Inv() && cache == old(cache) && held == old(held) && old(moves) <= moves
      ensures MadeRoom(before, Books()) && |fifo| == |old(fifo)| - 1
    {
      hide Balanced, Ordered, MadeRoom, Evict, ConnectionCache.Books, ConnectionCache.Traced, ConnectionCache.Inv;
      ghost var now := Books();
      BooksAre();
      InvIs();
      FifoIsStored();
      ghost var oldest := EvictOldest();
      MadeMoreRoom(before, now, oldest);
      BooksAre();
      EvictFifo(now, oldest);
      assert now.fifo.Keys == fifo.Keys + {oldest};
    }

    /**
     Caches the entry; when the stamp is set makes no difference to making room. Without a descriptor it would
     get into the fifo all the same.
     */
    method KeepSocket(e: SocketEntry, cacheEntries: nat) returns (crashed: bool, ghost room: Books<SocketEntry>)
      requires Inv() && e in held && e.dns.Some? && e.dns.value.cachePriority > 0
      modifies this, cache`dns, cache`fd, e`timestamp
      ensures crashed <==> cacheEntries == 0
      ensures e.fd == old(e.fd) && e.dns == old(e.dns)
      ensures !crashed ==>
                && (Inv() <==> e.fd >= 0) && held == old(held) - {e} && MadeRoom(old(Books()), room)
                && Balanced(room) && e in room.held && Books() == Keep(room, e) && old(moves) <= moves
                && Inserted(old(cache), cache, e)
                && |fifo| == (if |old(fifo)| < cacheEntries then |old(fifo)| + 1 else cacheEntries)
                && (|old(fifo)| < cacheEntries ==> room == old(Books()))
    {
      hide Balanced, Ordered, MadeRoom, ConnectionCache.Traced, Inserted;
      ghost var before := Books();
      HeldHasCard(before, e);
      crashed := MakeRoom(cacheEntries);
      room := Books();
      HeldUntouched(before, room, e);
      if !crashed {
        Enlist(e);
      }
    }

    /** The multimap takes over an entry. */
    method Admit(e: SocketEntry)
      requires Ordered(cache) && e !in cache && e in held
      modifies this`cache, this`held
      ensures Ordered(cache) && held == old(held) - {e} && Books() == Park(old(Books()), e)
      ensures Inserted(old(cache), cache, e)
    {
      hide Ordered, Inserted;
      Emplace(e);
      held := held - {e};
      assert Stored() + held == old(Stored() + held);
    }

    method Enrol(e: SocketEntry)
      requires e in held && counter !in fifo
      modifies this`fifo, this`counter, e`timestamp
      ensures Books() == Stamp(old(Books()), e) && |fifo| == |old(fifo)| + 1
    {
      hide ConnectionCache.Books;
      ghost var before := Books();
      BooksAre();
      FifoGrows(fifo, counter, e);
      e.timestamp := Some(counter);
      counter := counter + 1;
      fifo := fifo[e.timestamp.value := e];
      BooksAre();
      assert Books().cards == Stamp(before, e).cards;
    }

    static lemma FifoGrows(fifo: map<nat, SocketEntry>, k: nat, e: SocketEntry)
      requires k !in fifo
      ensures |fifo[k := e]| == |fifo| + 1
    {
      assert fifo[k := e].Keys == fifo.Keys + {k};
    }

    /** The stamp, the fifo and the multimap. */
    method Enlist(e: SocketEntry)
      requires Inv() && e in held && e.dns.Some? && e.dns.value.cachePriority > 0
      modifies this`cache, this`fifo, this`counter, this`held, this`moves, e`timestamp
      ensures (Inv() <==> e.fd >= 0) && old(moves) <= moves && Inserted(old(cache), cache, e)
      ensures Books() == Keep(old(Books()), e) && held == old(held) - {e} && |fifo| == |old(fifo)| + 1
    {
      hide Balanced, Ordered, After, Inserted;
      ghost var room := Books();
      HeldHasCard(room, e);
      KeepKeepsIff(room, e);
      CounterIsNew(room);
      Enrol(e);
      Admit(e);
      if e.fd >= 0 {
        Record(room, Keeping(e));
      }
    }

    /** `close(socketEntry->fd)` and `fd = -1` for an entry a caller handed over. */
    method CloseSocket(e: SocketEntry)
      requires Inv() && e in held && e.fd >= 0
      modifies this`owner, this`closed, this`moves, e`fd
      ensures Inv() && e.fd == -1 && Books() == CloseHeld(old(Books()), e) && old(moves) <= moves
    {
      hide Balanced, Ordered, After;
      ghost var before := Books();
      HeldHasCard(before, e);
      CloseHeldKeeps(before, e);
      Close(e.fd);
      e.fd := -1;
      assert Books() == CloseHeld(before, e);
      Record(before, Closing(e));
    }

    /** The entry goes out of scope. */
    ghost method DestroyEntry(e: SocketEntry)
      requires Inv() && e in held && e.fd < 0
      modifies this`held, this`moves
      ensures Inv() && Books() == Drop(old(Books()), e) && old(moves) <= moves
    {
      hide Balanced, Ordered, After;
      ghost var before := Books();
      HeldHasCard(before, e);
      DropKeeps(before, e);
      held := held - {e};
      assert Books() == Drop(before, e);
      Record(before, Dropping(e));
    }

    method ParkSocket(e: SocketEntry)
      requires Inv() && e in held && e.fd < 0 && e.dns.Some? && e.dns.value.cachePriority > 0
      modifies this`held, this`cache, this`moves
      ensures Inv() && Books() == Park(old(Books()), e) && old(moves) <= moves && Inserted(old(cache), cache, e)
    {
      hide Balanced, Ordered, After, Inserted;
      ghost var before := Books();
      HeldHasCard(before, e);
      ParkKeeps(before, e);
      Admit(e);
      Record(before, Parking(e));
    }

    /** Whether `stopSocket` puts the entry back with its descriptor open. */
    predicate Keeps(e: SocketEntry, reuseSocket: bool)
      reads e`dns
      requires e.dns.Some?
    {
      reuseSocket && e.hostname != "" && e.port > 0 && e.dns.value.cachePriority > 0
    }

    /** Whether `stopSocket` puts the entry back for its address only. */
    predicate Parks(e: SocketEntry, reuseSocket: bool)
      reads e`dns, e`fd
      requires e.dns.Some?
    {
      !(reuseSocket && e.hostname != "" && e.port > 0) && e.fd >= 0 && e.dns.value.cachePriority > 0
    }

    /**
     `stopSocket`. A reused entry is cached, at the cost of the oldest ones if there are too many; otherwise
     its descriptor is closed, and the entry is kept for its address or destroyed. It runs into undefined
     behaviour exactly if an entry is to be cached and none may be, and leaves the cache in disorder exactly
     if that entry has no descriptor.
     */
    method StopSocket(e: SocketEntry, cacheEntries: nat, reuseSocket: bool)
      returns (crashed: bool, ghost room: Books<SocketEntry>)
      requires Inv() && e in held && e.dns.Some?
      modifies this, cache`dns, cache`fd, e`timestamp, e`fd
      ensures crashed <==> old(Keeps(e, reuseSocket)) && cacheEntries == 0
      ensures !crashed ==>
                && (Inv() <==> (old(Keeps(e, reuseSocket)) ==> old(e.fd) >= 0))
                && held == old(held) - {e} && e.dns == old(e.dns)
                && issued == old(issued) && old(closed) <= closed && old(moves) <= moves
      ensures !old(Keeps(e, reuseSocket)) && !old(Parks(e, reuseSocket)) ==> cache == old(cache)
      ensures !crashed ==>
                if old(Keeps(e, reuseSocket)) then
                  && MadeRoom(old(Books()), room) && Balanced(room) && e in room.held && Books() == Keep(room, e)
                  && |fifo| == (if |old(fifo)| < cacheEntries then |old(fifo)| + 1 else cacheEntries)
                  && (|old(fifo)| < cacheEntries ==> room == old(Books()))
                else
                  Books() == Stopped(old(Books()), e, old(Parks(e, reuseSocket)))
      ensures var reusable := reuseSocket && e.hostname != "" && e.port > 0;
              var fd, priority := old(e.fd), old(e.dns.value.cachePriority);
              && (crashed <==> reusable && priority > 0 && cacheEntries == 0)
              && (!crashed ==>
                    && (e in fifo.Values <==> reusable && priority > 0)
                    && (e in cache <==> priority > 0 && (reusable || fd >= 0))
                    && (if e in cache then Inserted(old(cache), cache, e) else cache == old(cache))
                    && (fd >= 0 && e in fifo.Values ==> fd in owner && owner[fd] == e && fd !in closed)
                    && (fd >= 0 && e !in fifo.Values ==> fd !in owner && fd in closed))
    {
      hide Balanced, Ordered, MadeRoom, ConnectionCache.Books, ConnectionCache.Traced, Stopped, Keep, Inserted;
      BooksAre();
      HeldHasCard(Books(), e);
      ghost var before := Books();
      room := before;
      crashed := false;
      if reuseSocket && e.hostname != "" && e.port > 0 {
        if e.dns.value.cachePriority > 0 {
          crashed, room := KeepSocket(e, cacheEntries);
          if crashed {
            return;
          }
          MadeRoomLater(before, room);
          KeepLater(room, e);
          KeptOpen(before, room, e);
        } else {
          CloseForGood(e);
          StoppedLater(before, e, false);
          StoppedClosed(before, e, false);
        }
      } else {
        StopUnused(e);
        StoppedLater(before, e, old(Parks(e, false)));
        StoppedClosed(before, e, old(Parks(e, false)));
      }
      BooksAre();
      assert e in cache <==> e in Stored();
    }

    /** Closes the entry's descriptor, which does nothing to the descriptor -1, and destroys the entry. */
    method CloseForGood(e: SocketEntry)
      requires Inv() && e in held
      modifies this`held, this`owner, this`closed, this`moves, e`fd
      ensures Inv() && held == old(held) - {e} && Books() == Stopped(old(Books()), e, false) && old(moves) <= moves
    {
      hide Balanced, Ordered, ConnectionCache.Books, ConnectionCache.Traced;
      BooksAre();
      HeldHasCard(Books(), e);
      if e.fd >= 0 {
        CloseSocket(e);
      }
      DestroyEntry(e);
      BooksAre();
    }

    /** The last branch of `stopSocket`, which is all that happens if the socket is not to be reused. */
    method StopUnused(e: SocketEntry)
      requires Inv() && e in held && e.dns.Some?
      modifies this`cache, this`held, this`owner, this`closed, this`moves, e`fd
      ensures Inv() && held == old(held) - {e} && old(moves) <= moves
      ensures if old(Parks(e, false)) then Inserted(old(cache), cache, e) else cache == old(cache)
      ensures Books() == Stopped(old(Books()), e, old(Parks(e, false)))
    {
      hide Balanced, Ordered, ConnectionCache.Traced, Inserted;
      HeldHasCard(Books(), e);
      if e.fd >= 0 {
        CloseSocket(e);
      } else {
        DestroyEntry(e);
        return;
      }
      if e.dns.value.cachePriority > 0 {
        ParkSocket(e);
      } else {
        DestroyEntry(e);
      }
    }

    /** Throws an entry of the multimap away: out of the fifo, its descriptor closed. */
    method Discard(x: SocketEntry, i: nat)
      requires Inv() && i < |cache| && cache[i] == x && x.dns.Some?
      modifies this, x`dns, x`fd
      ensures Inv() && cache == RemoveAt(old(cache), i) && Books() == Discarded(old(Books()), x)
      ensures old(moves) <= moves
    {
      hide Balanced, Ordered, ConnectionCache.Books, ConnectionCache.Traced;
      ghost var before := Books();
      TakeOut(x, i, 0);
      HeldHasCard(Books(), x);
      DiscardIs(before, x);
      StopUnused(x);
    }

    /** The entries from `start` on with this address. */
    ghost function Sharing(start: nat, address: int): set<SocketEntry>
      requires start <= |cache|
      reads this`cache, cache`dns
    {
      set x | x in cache[start..] && x.dns.Some? && x.dns.value.address == address
    }

    /** An entry from `start` on has been evicted. */
    ghost predicate SeesEvicted(start: nat)
      reads this`cache, cache`dns
    {
      exists j :: start <= j < |cache| && cache[j].dns.None?
    }

    /**
     `shutdownSocket`: besides the entry itself, all cached entries from its host on that share its address
     go, with their descriptors closed. It reads the address of an evicted entry, which has none, exactly if
     there is one among those it looks at.
     */
    method ShutdownSocket(e: SocketEntry) returns (crashed: bool)
      requires Inv() && e in held && e.dns.Some?
      modifies this, cache`dns, cache`fd, e`fd
      ensures crashed <==> e.hostname != "" && old(SeesEvicted(First(e.hostname)))
      ensures !crashed ==> Inv() && held == old(held) - {e} && old(moves) <= moves
      ensures !crashed ==>
              var gone := if e.hostname != "" then old(Sharing(First(e.hostname), e.dns.value.address)) else {};
              && Stored() == old(Stored()) - gone + (if old(Parks(e, false)) then {e} else {})
              && (forall f :: f in owner <==> f in old(owner) && old(owner[f]) !in gone + {e})
              && issued == old(issued) && old(closed) <= closed
              && (forall f :: f in closed[|old(closed)|..] <==> f in old(owner) && old(owner[f]) in gone + {e})
      ensures !crashed ==>
              var all, first := old(cache), if e.hostname == "" then |old(cache)| else old(First(e.hostname));
              && (forall j | 0 <= j < |all| ::
                    all[j] in Stored() <==> j < first || old(all[j].dns.value.address) != old(e.dns.value.address))
              && (e in Stored() <==> old(e.fd) >= 0 && old(e.dns.value.cachePriority) > 0)
    {
      hide Balanced, Ordered, ConnectionCache.Books, ConnectionCache.Traced, Thinned, ConnectionCache.Sharing, Stopped;
      hide ConnectionCache.SeesEvicted, ConnectionCache.First;
      ghost var gone, before: Books<SocketEntry> := {}, Books();
      ThinnedStart(before);
      BooksAre();
      InvIs();
      ghost var all, first := cache, if e.hostname == "" then |cache| else First(e.hostname);
      crashed := false;
      if e.hostname != "" {
        SharedFrom(first, e.dns.value.address);
        gone := Sharing(First(e.hostname), e.dns.value.address);
        crashed := DiscardSharing(e);
        if crashed {
          return;
        }
      }
      BooksAre();
      HeldHasCard(Books(), e);
      ShutdownIs(before, Books(), gone, e, Parks(e, false));
      StopUnused(e);
      BooksAre();
      ClosedAre(before, Books());
      HeldHasCard(before, e);
      Fates(all, first, gone, before.stored, Stored(), e);
    }

    /** Without evicted entries, those that share the address are told by their position and their address. */
    lemma SharedFrom(first: nat, address: int)
      requires first <= |cache| && Ordered(cache)
      ensures forall x | x in Sharing(first, address) :: x in cache[first..]
      ensures !SeesEvicted(first) ==>
                forall j | first <= j < |cache| ::
                  cache[j].dns.Some? && (cache[j] in Sharing(first, address) <==> cache[j].dns.value.address == address)
    {
      SharingIs(first, address);
    }

    /** An entry stays exactly if it lies before the first one looked at or is not among those that go. */
    static lemma Fates(all: seq<SocketEntry>, first: nat, gone: set<SocketEntry>, b: set<SocketEntry>,
                       c: set<SocketEntry>, e: SocketEntry)
      requires Ordered(all) && first <= |all| && (forall x | x in gone :: x in all[first..]) && e !in b
      requires b == (set x | x in all) && (c == b - gone || c == b - gone + {e})
      ensures forall j | 0 <= j < |all| :: all[j] in c <==> j < first || all[j] !in gone
    {
      forall j | 0 <= j < |all| ensures all[j] in b && (j < first ==> all[j] !in gone) {
        assert forall i | first <= i < |all| :: all[first..][i - first] == all[i];
      }
    }

    /** One turn of that loop. */
    method DiscardIfSharing(e: SocketEntry, it: nat, ghost before: Books<SocketEntry>, ghost done: set<SocketEntry>)
      returns (discarded: bool)
      requires Inv() && it < |cache| && e in held && e.dns.Some?
      requires Thinned(before, Books(), done) && cache[it] in before.cards && before.cards[cache[it]].dns.Some?
      modifies this, cache[it..it + 1]`dns, cache[it..it + 1]`fd
      ensures Inv() && cache == if discarded then RemoveAt(old(cache), it) else old(cache)
      ensures Thinned(before, Books(), if discarded then done + {old(cache[it])} else done)
      ensures discarded <==> before.cards[old(cache[it])].dns.value.address == old(e.dns.value.address)
      ensures held == old(held) && e.dns == old(e.dns) && e.fd == old(e.fd) && old(moves) <= moves
    {
      hide Balanced, Ordered, ConnectionCache.Books, ConnectionCache.Traced, Thinned;
      ghost var now := Books();
      BooksAre();
      var x := cache[it];
      assert x in Stored();
      SameAsBefore(before, now, done, x, e);
      discarded := x.dns.value.address == e.dns.value.address;
      if discarded {
        ThinnedMore(before, now, done, x);
        Discard(x, it);
        BooksAre();
        ThinnedHeld(before, Books(), done + {x}, e);
        ThinnedHeld(before, now, done, e);
      }
    }

    /** The loop of `shutdownSocket`. */
    method DiscardSharing(e: SocketEntry) returns (crashed: bool)
      requires Inv() && e in held && e.dns.Some?
      modifies this, cache`dns, cache`fd
      ensures crashed <==> old(SeesEvicted(First(e.hostname)))
      ensures Inv() && held == old(held) && e.dns == old(e.dns) && e.fd == old(e.fd) && old(moves) <= moves
      ensures !crashed ==> Thinned(old(Books()), Books(), old(Sharing(First(e.hostname), e.dns.value.address)))
    {
      hide Balanced, Ordered, ConnectionCache.Books, Swept, Cursor, Thinned, ConnectionCache.Sharing;
      hide GoneSoFar, ConnectionCache.First, ConnectionCache.Inv, Without, RemoveAt;
      ghost var start := First(e.hostname);
      SharingIs(start, e.dns.value.address);
      ghost var all, gone, before := cache, Sharing(start, e.dns.value.address), Books();
      ghost var at := start;
      var it := First(e.hostname);
      SweptStart(all, start, gone);
      GoneAll(all, start, gone);
      ThinnedStart(before);
      while it < |cache|
        invariant Inv() && start <= at <= |all| && old(moves) <= moves
        invariant cache == Swept(all, start, at, gone) && it == Cursor(all, start, at, gone)
        invariant held == old(held) && e.dns == old(e.dns) && e.fd == old(e.fd)
        invariant Thinned(before, Books(), GoneSoFar(all, start, at, gone))
        invariant forall j | start <= j < at :: before.cards[all[j]].dns.Some?
        decreases |all| - at
      {
        SweptBounds(all, start, at, gone);
        SweptStep(all, start, at, gone);
        GoneStep(all, start, at, gone);
        DnsAsBefore(before, GoneSoFar(all, start, at, gone), it);
        if cache[it].dns.None? {
          return true;
        }
        var discarded := DiscardIfSharing(e, it, before, GoneSoFar(all, start, at, gone));
        it := if discarded then it else it + 1;
        at := at + 1;
      }
      SweptBounds(all, start, at, gone);
      crashed := false;
    }

    lemma DnsAsBefore(before: Books<SocketEntry>, done: set<SocketEntry>, it: nat)
      requires Inv() && Thinned(before, Books(), done) && it < |cache|
      ensures cache[it] in before.cards && before.cards[cache[it]].dns == cache[it].dns
    {
      assert cache[it] in Stored() && cache[it] in Books().cards;
    }

    lemma SharingIs(start: nat, address: int)
      requires start <= |cache|
      ensures forall x :: x in Sharing(start, address) ==> x in cache[start..]
      ensures forall j | start <= j < |cache| ::
                && cache[j] in Books().cards && Books().cards[cache[j]].dns == cache[j].dns
                && (cache[j] in Sharing(start, address) <==>
                      cache[j].dns.Some? && cache[j].dns.value.address == address)
    {
      forall j | start <= j < |cache| ensures cache[j] in Stored() && cache[j] in cache[start..] {
        assert cache[start..][j - start] == cache[j];
      }
    }

    /** `_cache.find(hostname)`. */
    function First(hostname: string, i: nat := 0): (r: nat)
      requires i <= |cache|
      reads this`cache
      ensures i <= r <= |cache| && (forall j | i <= j < r :: cache[j].hostname != hostname)
      ensures r < |cache| ==> cache[r].hostname == hostname
      decreases |cache| - i
    {
      if i == |cache| || cache[i].hostname == hostname then i else First(hostname, i + 1)
    }

    /** Moves the entry at `i` out of the multimap and out of the fifo, with a new priority of its address. */
    method TakeOut(e: SocketEntry, i: nat, priority: int)
      requires Inv() && i < |cache| && cache[i] == e && e.dns.Some?
      modifies this`cache, this`fifo, this`held, this`moves, e`dns
      ensures old(moves) <= moves
      ensures && Inv() && held == old(held) + {e} && cache == RemoveAt(old(cache), i)
              && e in Books().held && e in old(Books().stored) && old(Books().cards[e].dns.Some?)
              && Books() == Take(old(Books()), e, priority)
              && e.dns == Some(old(e.dns.value).(cachePriority := priority))
    {
      hide Balanced, Ordered, After, ConnectionCache.Books, Take;
      ghost var before := Books();
      BooksAre();
      assert e in Stored();
      TakeKeeps(before, e, priority);
      MoveOut(e, i, priority);
      BooksAre();
      Record(before, Taking(e, priority));
      BooksAre();
    }

    method MoveOut(e: SocketEntry, i: nat, priority: int)
      requires Inv() && i < |cache| && cache[i] == e && e in Books().stored && e in Books().cards
      requires e.dns.Some? && Books().cards[e].dns.Some?
      modifies this`cache, this`fifo, this`held, e`dns
      ensures Ordered(cache) && held == old(held) + {e} && cache == RemoveAt(old(cache), i)
      ensures Books() == Take(old(Books()), e, priority)
      ensures e.dns == Some(old(e.dns.value).(cachePriority := priority))
    {
      hide Balanced, Ordered, After;
      ghost var before := Books();
      OrderedWithout(i);
      e.dns := Some(e.dns.value.(cachePriority := priority));
      fifo := Erased(fifo, e.timestamp);
      cache := RemoveAt(cache, i);
      held := held + {e};
      assert Books() == Take(before, e, priority);
    }

    /** Removes an evicted entry from the multimap; its timestamp is no longer in the fifo. */
    method Forget(i: nat)
      requires Inv() && i < |cache| && cache[i].dns.None?
      modifies this`cache, this`fifo, this`moves
      ensures old(moves) <= moves && fifo == old(fifo)
      ensures Inv() && cache == RemoveAt(old(cache), i) && Books() == Drop(old(Books()), old(cache[i]))
    {
      hide Balanced, Ordered, After;
      var e := cache[i];
      ghost var before := Books();
      assert e in Stored();
      EvictedHasNothing(before, e);
      DropKeeps(before, e);
      OrderedWithout(i);
      fifo := Erased(fifo, e.timestamp);
      cache := RemoveAt(cache, i);
      assert Books() == Drop(before, e);
      Record(before, Dropping(e));
    }

    lemma OrderedWithout(i: nat)
      requires Ordered(cache) && i < |cache|
      ensures var r := RemoveAt(cache, i); Ordered(r) && (set e | e in r) == Stored() - {cache[i]}
    {
      RemoveAtIs(cache, i);
    }

    /**
     `resolve`; `address` is what the name service answers. It hands out the first entry that serves, from
     the first entry of this host to the end of the cache, drops the evicted ones it passes, and touches
     no descriptor. The entry is one of the requested host exactly if the cache has a usable one of that
     host, or no usable one behind it either.
     */
    method Resolve(hostname: string, port: nat, tls: bool, address: Option<int>)
      returns (r: Result<SocketEntry>, ghost at: nat)
      requires Inv()
      modifies this`cache, this`fifo, this`held, this`moves, cache`dns
      ensures old(moves) <= moves
      ensures Inv() && counter == old(counter) && owner == old(owner)
      ensures issued == old(issued) && closed == old(closed)
      ensures var start, all, gone := old(First(hostname)), old(cache), old(Evicted());
              && start <= at <= |all|
              && (forall j | start <= j < at :: !old(all[j].Serves(port, tls)))
              && (forall x | x in all && (at < |all| ==> x != all[at]) :: x.dns == old(x.dns))
              && (forall j | start <= j < at && old(all[j].dns.Some?) :: all[j].port != port || old(all[j].tls) != tls)
              && (at < |all| ==>
                    && r == Ok(all[at]) && old(all[at].Serves(port, tls)) && all[at] !in old(held)
                    && r.value.port == port && r.value.tls == tls && r.value.dns.Some?
                    && r.value.dns.value.address == old(all[at].dns.value.address)
                    && r.value.dns.value.cachePriority == old(all[at].dns.value.cachePriority) - 1
                    && cache == all[..start] + Without(all[start..at], gone) + all[at + 1..]
                    && held == old(held) + {all[at]})
              && (at == |all| ==>
                    && fifo == old(fifo) && cache == all[..start] + Without(all[start..], gone)
                    && (address.None? ==> r.Err? && held == old(held))
                    && (address.Some? ==>
                          && r.Ok? && fresh(r.value) && held == old(held) + {r.value}
                          && r.value.IsNew(hostname, port, address.value) && !r.value.tls
                          && r.value.dns.value.address == address.value && r.value.dns.value.cachePriority == 8))
      ensures r.Ok? ==>
                (r.value.hostname == hostname <==>
                   old(Usable(cache, First(hostname), hostname, port, tls, true)
                      || !Usable(cache, First(hostname), hostname, port, tls, false)))
    {
      hide Balanced, Ordered, ConnectionCache.Books, ConnectionCache.Traced, ConnectionCache.First;
      hide Usable, Swept, Cursor;
      HeldIsApart();
      ghost var start := First(hostname);
      ghost var all, gone := cache, Evicted();
      assert Ordered(all);
      var it: nat;
      it, at := Lookup(hostname, port, tls);
      SweptEnd(all, start, at, gone);
      OwnComesFirst(all, start, at, hostname, port, tls);
      if it < |cache| {
        var e := cache[it];
        SweptStep(all, start, at, gone);
        TakeOut(e, it, e.dns.value.cachePriority - 1);
        return Ok(e), at;
      }
      if address.None? {
        return Err("hostname getaddrinfo error"), at;
      }
      var e := NewEntry(hostname, port, address.value);
      r := Ok(e);
    }

    lemma HeldIsApart()
      requires Inv()
      ensures forall e | e in cache :: e !in held
    {
      assert forall e | e in cache :: e in Stored();
    }

    /** The loop of `resolve`: cleans up and stops at the first entry that serves. */
    method Lookup(hostname: string, port: nat, tls: bool) returns (it: nat, ghost at: nat)
      requires Inv()
      modifies this`cache, this`fifo, this`moves
      ensures old(moves) <= moves && fifo == old(fifo)
      ensures Inv() && old(First(hostname)) <= at <= |old(cache)|
      ensures forall j | old(First(hostname)) <= j < at :: !old(cache[j].Serves(port, tls))
      ensures at < |old(cache)| ==> old(cache[at].Serves(port, tls))
      ensures cache == old(Swept(cache, First(hostname), at, Evicted()))
          && it == old(Cursor(cache, First(hostname), at, Evicted()))
    {
      hide Balanced, Ordered, ConnectionCache.Books, Swept, Cursor, ConnectionCache.First, ConnectionCache.Inv;
      ghost var start := First(hostname);
      ghost var all, gone := cache, Evicted();
      it := First(hostname);
      at := it;
      SweptStart(all, start, gone);
      while it < |cache|
        invariant Inv() && start <= at <= |all| && old(moves) <= moves && fifo == old(fifo)
        invariant cache == Swept(all, start, at, gone) && it == Cursor(all, start, at, gone)
        invariant forall j | start <= j < at :: !all[j].Serves(port, tls)
        decreases |all| - at
      {
        SweptEnd(all, start, at, gone);
        SweptStep(all, start, at, gone);
        var e := cache[it];
        if e.dns.None? {
          Forget(it);
        } else if e.port == port && ((tls && e.tls) || (!tls && !e.tls)) {
          return;
        } else {
          it := it + 1;
        }
        at := at + 1;
      }
      SweptEnd(all, start, at, gone);
    }

    method NewEntry(hostname: string, port: nat, address: int) returns (e: SocketEntry)
      requires Inv()
      modifies this`held, this`moves
      ensures old(moves) <= moves
      ensures Inv() && fresh(e) && held == old(held) + {e} && e.fd == -1 && !e.tls
      ensures e.dns == Some(Dns(address, DEFAULT_PRIORITY)) && e.hostname == hostname && e.port == port
    {
      hide Balanced, Ordered, After;
      ghost var before := Books();
      e := new SocketEntry(hostname, port, Dns(address, DEFAULT_PRIORITY));
      AddKeeps(before, e, e.Entry());
      held := held + {e};
      assert Books() == Add(before, e, e.Entry());
      Record(before, Adding(e, e.Entry()));
    }

    /** The caller opens a socket for an entry without one. */
    method OpenSocket(e: SocketEntry, fd: int, tls: bool)
      requires Inv() && e in held && e.fd < 0 && fd >= 0 && fd !in owner && fd !in closed
      modifies this`owner, this`issued, this`moves, e`fd, e`tls
      ensures Inv() && e.fd == fd && e.tls == tls && Books() == Open(old(Books()), e, fd)
      ensures issued == old(issued) + {fd} && closed == old(closed) && moves == old(moves) + [Opening(e, fd)]
    {
      hide Balanced, Ordered, After;
      ghost var before := Books();
      HeldHasCard(before, e);
      OpenKeeps(before, e, fd);
      NotIssued(before, fd);
      owner, issued := owner[fd := e], issued + {fd};
      e.fd := fd;
      e.tls := tls;
      assert Books() == Open(before, e, fd);
      assert Allowed(before, Opening(e, fd)) && Books() == Make(before, Opening(e, fd));
      hide *;
      Record(before, Opening(e, fd));
    }

    /** The destructor: afterwards every descriptor that no caller owns is closed. */
    method Destroy()
      requires Inv()
      modifies this`owner, this`closed
      ensures Distinct(closed) && forall f | f in owner :: f !in closed && owner[f] in held
      ensures old(closed) <= closed && issued == old(issued)
      ensures forall f :: f in issued <==> f in owner || f in closed
      ensures forall f :: f in owner <==> f in old(owner) && old(owner[f]) in held
    {
      CachedOwn();
      hide *;
      CloseCached();
    }

    /** Every descriptor is open or closed, and an open one belongs to the entry that has it, cached or held. */
    ghost predicate Owned()
      reads this`cache, this`held, this`owner, this`issued, this`closed, cache`fd, owner.Values`fd
    {
      && (forall f :: f in issued <==> f in owner || f in closed)
      && Distinct(closed) && (forall i, j | 0 <= i < j < |cache| :: cache[i] != cache[j])
      && (forall f | f in owner ::
            f !in closed && f >= 0 && owner[f].fd == f && (owner[f] in cache || owner[f] in held))
      && (forall i | 0 <= i < |cache| && cache[i].fd >= 0 :: cache[i].fd in owner && owner[cache[i].fd] == cache[i])
      && forall i | 0 <= i < |cache| :: cache[i] !in held
    }

    /** The loop of the destructor. */
    method CloseCached()
      requires Owned()
      modifies this`owner, this`closed
      ensures Distinct(closed) && forall f | f in owner :: f !in closed && owner[f] in held
      ensures old(closed) <= closed && issued == old(issued)
      ensures forall f :: f in issued <==> f in owner || f in closed
      ensures forall f :: f in owner <==> f in old(owner) && old(owner[f]) in held
    {
      hide Distinct;
      var i := 0;
      while i < |cache|
        invariant i <= |cache| && old(closed) <= closed && Distinct(closed)
        invariant forall f | f in owner :: f !in closed && f in old(owner) && owner[f] == old(owner[f])
        invariant forall f | f in old(owner) :: if old(owner[f]) in cache[..i] then f in closed else f in owner
        invariant forall f :: f in issued <==> f in owner || f in closed
        invariant forall f | f in closed :: f in old(closed) || (f in old(owner) && old(owner[f]) in cache[..i])
      {
        assert cache[..i + 1] == cache[..i] + [cache[i]];
        if cache[i].fd >= 0 {
          Close(cache[i].fd);
        }
        i := i + 1;
      }
      assert cache[..i] == cache;
    }

    lemma CachedOwn()
      requires Inv()
      ensures Owned()
    {
      hide After;
      forall i | 0 <= i < |cache| ensures cache[i] in Stored() && Books().cards[cache[i]] == cache[i].Entry() {
      }
    }

    lemma InvIs()
      requires Inv()
      ensures Ordered(cache) && Balanced(Books())
    {
    }

    lemma BooksAre()
      ensures Books().fifo == fifo && Books().held == held && Books().stored == Stored()
      ensures Books().counter == counter && Books().owner == owner
      ensures Books().issued == issued && Books().closed == closed
      ensures Books().cards.Keys == Stored() + held
      ensures forall e | e in Stored() + held :: Books().cards[e] == e.Entry()
    {
    }

    lemma FifoIsStored()
      requires Inv()
      ensures forall e | e in fifo.Values :: e in cache
    {
      forall k | k in fifo ensures fifo[k] in cache {
        FifoEntry(Books(), k);
      }
    }
  }

  /** The books after an entry that is not reused was stopped. */
  ghost function Stopped<E>(b: Books<E>, e: E, parked: bool): Books<E>
    requires Balanced(b) && e in b.held
  {
    HeldHasCard(b, e);
    var c := if b.cards[e].fd >= 0 then CloseHeld(b, e) else b;
    if parked then Park(c, e) else Drop(c, e)
  }

  /** An entry that is not to be reused leaves the fifo alone, and its descriptor is closed. */
  lemma StoppedClosed<E>(b: Books<E>, e: E, parked: bool)
    requires Balanced(b) && e in b.held
    ensures var c := Stopped(b, e, parked);
            && e !in c.fifo.Values && (e in c.stored <==> parked)
            && (e in b.cards && b.cards[e].fd >= 0 ==> b.cards[e].fd in c.closed && b.cards[e].fd !in c.owner)
  {
    HeldHasCard(b, e);
    forall k | k in b.fifo ensures b.fifo[k] != e {
      FifoEntry(b, k);
    }
  }

  /** An entry that is reused gets into the fifo, and its descriptor stays open. */
  lemma KeptOpen<E>(b: Books<E>, room: Books<E>, e: E)
    requires MadeRoom(b, room) && Balanced(b) && Balanced(room) && e in b.held && e in room.held
    ensures var c := Keep(room, e);
            && e in c.fifo.Values && e in c.stored
            && (e in b.cards && b.cards[e].fd >= 0 ==>
                  var fd := b.cards[e].fd; fd in c.owner && c.owner[fd] == e && fd !in c.closed)
  {
    HeldUntouched(b, room, e);
    HeldHasCard(room, e);
    HeldOwns(room, e);
    hide Balanced, MadeRoom;
    assert Keep(room, e).fifo[room.counter] == e;
  }

  lemma HeldOwns<E>(b: Books<E>, e: E)
    requires Balanced(b) && e in b.held
    ensures e in b.cards && (b.cards[e].fd >= 0 ==> b.cards[e].fd in b.owner && b.owner[b.cards[e].fd] == e)
  {
  }

  lemma StoppedLater<E>(b: Books<E>, e: E, parked: bool)
    requires Balanced(b) && e in b.held
    ensures Stopped(b, e, parked).issued == b.issued && b.closed <= Stopped(b, e, parked).closed
  {
  }

  /** From `b` to `c` the entries in `d` went, their descriptors were closed, and nothing else changed. */
  ghost predicate Thinned<E>(b: Books<E>, c: Books<E>, d: set<E>) {
    && c.stored == b.stored - d && c.held == b.held && c.cards.Keys == b.cards.Keys - d
    && (forall x | x in c.cards :: c.cards[x] == b.cards[x])
    && (forall f :: f in c.owner <==> f in b.owner && b.owner[f] !in d)
    && (forall f | f in c.owner :: c.owner[f] == b.owner[f])
    && c.issued == b.issued && b.closed <= c.closed
  }

  lemma ThinnedStart<E>(b: Books<E>)
    ensures Thinned(b, b, {})
  {
  }

  lemma ThinnedMore<E>(b: Books<E>, c: Books<E>, d: set<E>, x: E)
    requires Thinned(b, c, d) && Balanced(c) && x in c.stored && c.cards[x].dns.Some?
    ensures Thinned(b, Discarded(c, x), d + {x})
  {
    hide Balanced, Stopped, Take;
    DiscardIs(c, x);
  }

  lemma SameAsBefore<E>(b: Books<E>, c: Books<E>, d: set<E>, x: E, e: E)
    requires Thinned(b, c, d) && Balanced(c) && x in c.stored + c.held && e in c.held
    ensures x in b.cards && x in c.cards && c.cards[x] == b.cards[x]
    ensures e in b.cards && e in c.cards && c.cards[e] == b.cards[e]
  {
  }

  lemma ThinnedHeld<E>(b: Books<E>, c: Books<E>, d: set<E>, e: E)
    requires Thinned(b, c, d) && Balanced(c) && e in c.held
    ensures c.held == b.held && e in b.cards && e in c.cards && c.cards[e] == b.cards[e]
  {
  }

  /** The books after a stored entry was thrown away. */
  ghost function Discarded<E>(b: Books<E>, x: E): Books<E>
    requires Balanced(b) && x in b.stored && x in b.cards
  {
    var fd := b.cards[x].fd;
    b.(stored := b.stored - {x}, cards := b.cards - {x}, fifo := Erased(b.fifo, b.cards[x].timestamp),
       owner := b.owner - {fd}, closed := if fd >= 0 then b.closed + [fd] else b.closed)
  }

  lemma DiscardOwners<E>(b: Books<E>, x: E)
    requires Balanced(b) && x in b.stored && b.cards[x].dns.Some?
    ensures forall f :: f in Discarded(b, x).owner <==> f in b.owner && b.owner[f] != x
  {
    hide FifoAgrees, Addresses;
  }

  lemma TakenCard<E>(b: Books<E>, x: E)
    requires Balanced(b) && x in b.stored && b.cards[x].dns.Some?
    ensures x in b.cards && x !in b.held && -1 <= b.cards[x].fd && (b.cards[x].fd < 0 ==> b.cards[x].fd !in b.owner)
  {
    hide FifoAgrees, Addresses;
  }

  lemma DiscardIs<E>(b: Books<E>, x: E)
    requires Balanced(b) && x in b.stored && b.cards[x].dns.Some?
    ensures Balanced(Take(b, x, 0)) && x in Take(b, x, 0).held
    ensures Stopped(Take(b, x, 0), x, false) == Discarded(b, x)
    ensures forall f :: f in Discarded(b, x).owner <==> f in b.owner && b.owner[f] != x
  {
    hide Places, FifoAgrees, Ownership, Addresses, Discarded, Stopped;
    TakeKeeps(b, x, 0);
    DiscardOwners(b, x);
    TakenCard(b, x);
    StoppedIsDiscarded(b, x);
  }

  lemma StoppedIsDiscarded<E>(b: Books<E>, x: E)
    requires Balanced(b) && x in b.stored && x in b.cards && b.cards[x].dns.Some? && Balanced(Take(b, x, 0))
    requires x !in b.held && (b.cards[x].fd < 0 ==> b.cards[x].fd !in b.owner)
    ensures Stopped(Take(b, x, 0), x, false) == Discarded(b, x)
  {
    hide Places, FifoAgrees, Ownership, Addresses, Balanced;
    var c := Stopped(Take(b, x, 0), x, false);
    assert c.held == b.held;
    assert c.cards == b.cards - {x};
    assert c.owner == b.owner - {b.cards[x].fd};
  }

  lemma ShutdownIs<E>(b: Books<E>, c: Books<E>, gone: set<E>, e: E, parked: bool)
    requires Thinned(b, c, gone) && Balanced(c) && e in c.held
    ensures Stopped(c, e, parked).stored == b.stored - gone + if parked then {e} else {}
    ensures forall f :: f in Stopped(c, e, parked).owner <==> f in b.owner && b.owner[f] !in gone + {e}
    ensures Stopped(c, e, parked).issued == b.issued && b.closed <= Stopped(c, e, parked).closed
  {
    HeldHasCard(c, e);
  }

  lemma EvictedHasNothing<E>(b: Books<E>, e: E)
    requires Balanced(b) && e in b.stored && b.cards[e].dns.None?
    ensures b.cards[e].fd < 0 && e !in b.held && Erased(b.fifo, b.cards[e].timestamp) == b.fifo
  {
  }

  lemma NotIssued<E>(b: Books<E>, fd: int)
    requires Balanced(b) && fd !in b.owner && fd !in b.closed
    ensures fd !in b.issued
  {
  }

  lemma HeldHasCard<E>(b: Books<E>, e: E)
    requires Balanced(b) && e in b.held
    ensures e in b.cards && b.cards[e].dns.Some? && b.cards[e].fd >= -1
    ensures b.cards[e].fd >= 0 ==> b.cards[e].fd in b.owner && b.cards[e].fd !in b.closed
    ensures e !in b.stored
  {
  }

  lemma HeldUntouched<E>(b: Books<E>, c: Books<E>, e: E)
    requires MadeRoom(b, c) && Balanced(b) && e in b.held
    ensures e in b.cards && e in c.cards && c.cards[e] == b.cards[e] && e in c.held
  {
  }

  lemma CounterIsNew<E>(b: Books<E>)
    requires Balanced(b)
    ensures b.counter !in b.fifo
  {
  }

  ghost predicate ClosedSince<E>(b: Books<E>, c: Books<E>, f: int) {
    |b.closed| <= |c.closed| && f in c.closed[|b.closed|..]
  }

  /** From `b` to `c` only the oldest entries of the fifo went. */
  ghost predicate OldestOnly<E>(b: Books<E>, c: Books<E>) {
    && c.fifo.Keys <= b.fifo.Keys && (forall k | k in c.fifo :: c.fifo[k] == b.fifo[k])
    && forall j, k | j in b.fifo && j !in c.fifo && k in c.fifo :: j < k
  }

  /** The descriptors of those that went were closed, and no other. */
  ghost predicate TheirsClosed<E>(b: Books<E>, c: Books<E>) {
    && b.closed <= c.closed && |c.closed| - |b.closed| == |b.fifo| - |c.fifo| && c.issued == b.issued
    && forall k | k in b.fifo && k !in c.fifo :: b.fifo[k] in b.cards && ClosedSince(b, c, b.cards[b.fifo[k]].fd)
  }

  ghost predicate OldestGone<E>(b: Books<E>, c: Books<E>) {
    OldestOnly(b, c) && TheirsClosed(b, c)
  }

  /** Entries either stay as they were or lose descriptor and address, and only open cached ones do. */
  ghost predicate OthersKept<E>(b: Books<E>, c: Books<E>) {
    && c.stored == b.stored && c.held == b.held && c.counter == b.counter && c.cards.Keys == b.cards.Keys
    && (forall e | e in b.cards :: c.cards[e] == b.cards[e] || Lost(b, c, e))
    && (forall k | k in b.fifo && b.fifo[k] in c.cards && k !in c.fifo :: c.cards[b.fifo[k]].fd == -1)
  }

  ghost predicate Lost<E>(b: Books<E>, c: Books<E>, e: E)
    requires e in b.cards && e in c.cards
  {
    e in b.stored && b.cards[e].fd >= 0 && c.cards[e].fd == -1 && c.cards[e].dns.None?
  }

  ghost predicate MadeRoom<E>(b: Books<E>, c: Books<E>) {
    OldestGone(b, c) && OthersKept(b, c)
  }

  lemma MadeRoomStart<E>(b: Books<E>)
    ensures MadeRoom(b, b)
  {
  }

  lemma EvictFifo<E>(b: Books<E>, k: nat)
    requires Balanced(b) && k in b.fifo
    ensures Evict(b, k).fifo == b.fifo - {k}
  {
  }

  lemma MoreGone<E>(b: Books<E>, c: Books<E>, d: Books<E>, oldest: nat)
    requires OldestOnly(b, c) && oldest in c.fifo && forall k | k in c.fifo :: oldest <= k
    requires d.fifo == c.fifo - {oldest}
    ensures OldestOnly(b, d)
  {
  }

  lemma MoreClosed<E>(b: Books<E>, c: Books<E>, d: Books<E>, oldest: nat)
    requires TheirsClosed(b, c) && oldest in c.fifo && oldest in b.fifo && b.fifo[oldest] in b.cards
    requires d.fifo == c.fifo - {oldest} && d.issued == c.issued
    requires d.closed == c.closed + [b.cards[b.fifo[oldest]].fd]
    ensures TheirsClosed(b, d)
  {
    assert c.fifo.Keys == d.fifo.Keys + {oldest};
    assert d.closed[|b.closed|..] == c.closed[|b.closed|..] + [b.cards[b.fifo[oldest]].fd];
    forall k | k in b.fifo && k !in d.fifo ensures b.fifo[k] in b.cards && ClosedSince(b, d, b.cards[b.fifo[k]].fd) {
      assert k == oldest || ClosedSince(b, c, b.cards[b.fifo[k]].fd);
    }
  }

  /** An entry that still has its descriptor has lost nothing. */
  lemma StillHas<E>(b: Books<E>, c: Books<E>, e: E)
    requires OthersKept(b, c) && e in c.cards && c.cards[e].fd >= 0
    ensures e in b.cards && b.cards[e] == c.cards[e]
  {
  }

  lemma MadeRoomLater<E>(b: Books<E>, c: Books<E>)
    requires MadeRoom(b, c)
    ensures c.issued == b.issued && b.closed <= c.closed
  {
  }

  lemma MoreKept<E>(b: Books<E>, c: Books<E>, d: Books<E>, oldest: nat)
    requires OthersKept(b, c) && oldest in b.fifo && oldest in c.fifo && b.fifo[oldest] == c.fifo[oldest]
    requires d.fifo == c.fifo - {oldest} && d.stored == c.stored && d.held == c.held && d.counter == c.counter
    requires c.fifo[oldest] in c.stored && c.fifo[oldest] in c.cards && c.cards[c.fifo[oldest]].fd >= 0
    requires d.cards == c.cards[c.fifo[oldest] := c.cards[c.fifo[oldest]].(fd := -1, dns := None)]
    ensures OthersKept(b, d)
  {
  }

  lemma MadeMoreRoom<E>(b: Books<E>, c: Books<E>, oldest: nat)
    requires MadeRoom(b, c) && Balanced(c) && oldest in c.fifo && forall k | k in c.fifo :: oldest <= k
    ensures MadeRoom(b, Evict(c, oldest))
  {
    hide Balanced, OthersKept;
    FifoEntry(c, oldest);
    StillHas(b, c, c.fifo[oldest]);
    var d := Evict(c, oldest);
    MoreGone(b, c, d, oldest);
    MoreClosed(b, c, d, oldest);
    hide OldestOnly, TheirsClosed;
    MoreKept(b, c, d, oldest);
  }

  /** What the books say about an entry of the fifo. */
  lemma FifoEntry<E>(b: Books<E>, k: nat)
    requires Balanced(b) && k in b.fifo
    ensures b.fifo[k] in b.stored && b.fifo[k] in b.cards
    ensures var card := b.cards[b.fifo[k]]; card.fd >= 0 && card.fd in b.owner && card.fd !in b.closed
  {
  }

  lemma {:induction false} HasLeast(s: set<nat>) returns (least: nat)
    requires s != {}
    ensures least in s && forall j | j in s :: least <= j
    decreases |s|
  {
    least :| least in s;
    var rest := s - {least};
    assert s == rest + {least};
    if rest != {} {
      var l := HasLeast(rest);
      least := if l < least then l else least;
    }
  }
}
