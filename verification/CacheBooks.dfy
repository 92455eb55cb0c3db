/**
 The books of the connection cache: which entry is where, who owns which descriptor, and how each
 elementary move changes that. `E` is the type of the entries.
 */
module CacheBooks {
  import opened Wrappers
  import opened Sequences

  datatype Dns = Dns(address: int, cachePriority: int)

  /** The fields of an entry that change. */
  datatype Card = Card(dns: Option<Dns>, timestamp: Option<nat>, fd: int)

  /**
   `stored` are the entries in the multimap and `held` those the callers own; `issued` are all descriptors
   there ever were, `owner` maps those that are open to their entries, and `closed` lists the closed ones
   in the order of `close`.
   */
  datatype Books<!E> = Books(
    stored: set<E>, held: set<E>, cards: map<E, Card>, fifo: map<nat, E>, counter: nat,
    owner: map<int, E>, issued: set<int>, closed: seq<int>)

  ghost predicate Places<E>(b: Books<E>) {
    b.stored !! b.held && b.cards.Keys == b.stored + b.held
  }

  ghost predicate StampIsOld<E>(b: Books<E>, e: E)
    requires e in b.cards
  {
    var t := b.cards[e].timestamp;
    t.Some? ==> t.value < b.counter && t.value !in b.fifo
  }

  /** The fifo holds exactly the stored entries with an open descriptor, each under its timestamp. */
  ghost predicate FifoAgrees<E>(b: Books<E>)
    requires Places(b)
  {
    && (forall k | k in b.fifo :: k < b.counter && b.fifo[k] in b.stored && b.cards[b.fifo[k]].timestamp == Some(k))
    && (forall k | k in b.fifo :: b.cards[b.fifo[k]].fd >= 0)
    && (forall e | e in b.stored && b.cards[e].fd >= 0 :: Stamped(b, e))
    && (forall e | e in b.stored && b.cards[e].fd < 0 :: StampIsOld(b, e))
    && (forall e | e in b.held :: StampIsOld(b, e))
  }

  ghost predicate Stamped<E>(b: Books<E>, e: E)
    requires e in b.cards
  {
    var t := b.cards[e].timestamp;
    t.Some? && t.value in b.fifo && b.fifo[t.value] == e
  }

  /** Every descriptor ever issued is either open, with one owner that knows it, or was closed exactly once. */
  ghost predicate Ownership<E>(b: Books<E>)
    requires Places(b)
  {
    && Distinct(b.closed)
    && (forall f | f in b.issued :: f in b.owner || f in b.closed)
    && (forall f | f in b.owner :: f in b.issued)
    && (forall f | f in b.closed :: f in b.issued)
    && (forall f | f in b.owner :: f >= 0 && f !in b.closed && b.owner[f] in b.cards && b.cards[b.owner[f]].fd == f)
    && (forall e | e in b.cards && b.cards[e].fd >= 0 :: b.cards[e].fd in b.owner && b.owner[b.cards[e].fd] == e)
    && (forall e | e in b.cards :: b.cards[e].fd >= -1)
  }

  ghost predicate Addresses<E>(b: Books<E>)
    requires Places(b)
  {
    && (forall e | e in b.stored && b.cards[e].fd >= 0 :: b.cards[e].dns.Some?)
    && (forall e | e in b.stored && b.cards[e].dns.Some? :: b.cards[e].dns.value.cachePriority > 0)
    && (forall e | e in b.held :: b.cards[e].dns.Some?)
  }

  ghost predicate Balanced<E>(b: Books<E>) {
    Places(b) && FifoAgrees(b) && Ownership(b) && Addresses(b)
  }

  /** What no operation undoes: a descriptor stays known, and a recorded close stays recorded. */
  ghost predicate Later<E>(b: Books<E>, c: Books<E>) {
    b.issued <= c.issued && b.closed <= c.closed
  }

  /** Between two states in which none was issued, exactly the descriptors that lost their owner were closed. */
  lemma ClosedAre<E>(b: Books<E>, c: Books<E>)
    requires Balanced(b) && Balanced(c) && Later(b, c) && b.issued == c.issued
    ensures forall f :: f in c.closed[|b.closed|..] <==> f in b.owner && f !in c.owner
    ensures forall f | f in c.owner :: f in b.owner
  {
    forall f ensures f in c.closed[|b.closed|..] <==> f in b.owner && f !in c.owner {
      assert c.closed == b.closed + c.closed[|b.closed|..];
      if f in c.closed[|b.closed|..] {
        var k :| |b.closed| <= k < |c.closed| && c.closed[k] == f;
        assert f !in b.closed;
      }
    }
  }

  lemma {:induction false} DistinctCount(s: seq<int>, f: int)
    requires Distinct(s)
    ensures multiset(s)[f] == One(f in s)
  {
    if s != [] {
      var last := |s| - 1;
      assert s == s[..last] + [s[last]];
      DistinctCount(s[..last], f);
    }
  }

  /** A stored descriptor is closed to make room; the entry stays without an address. */
  ghost function Evict<E>(b: Books<E>, k: nat): Books<E>
    requires Balanced(b) && k in b.fifo
  {
    var e := b.fifo[k];
    var fd := b.cards[e].fd;
    b.(cards := b.cards[e := b.cards[e].(fd := -1, dns := None)], fifo := b.fifo - {k},
       owner := b.owner - {fd}, closed := b.closed + [fd])
  }

  lemma EvictKeeps<E>(b: Books<E>, k: nat)
    requires Balanced(b) && k in b.fifo
    ensures Balanced(Evict(b, k))
  {
    EvictFifoAgrees(b, k);
    EvictOwners(b, k);
    hide Places, FifoAgrees, Ownership, Addresses;
  }

  lemma EvictFifoAgrees<E>(b: Books<E>, k: nat)
    requires Balanced(b) && k in b.fifo
    ensures Places(Evict(b, k)) && FifoAgrees(Evict(b, k))
  {
    hide Ownership, Addresses;
  }

  lemma EvictOwners<E>(b: Books<E>, k: nat)
    requires Balanced(b) && k in b.fifo
    ensures Places(Evict(b, k)) && Ownership(Evict(b, k)) && Addresses(Evict(b, k))
  {
  }

  /** An entry is stamped and entered in the fifo. */
  ghost function Stamp<E>(b: Books<E>, e: E): Books<E>
    requires e in b.cards
  {
    b.(counter := b.counter + 1, cards := b.cards[e := b.cards[e].(timestamp := Some(b.counter))],
       fifo := b.fifo[b.counter := e])
  }

  /** An entry moves from its caller to the multimap. */
  ghost function Park<E>(b: Books<E>, e: E): Books<E> {
    b.(stored := b.stored + {e}, held := b.held - {e})
  }

  /** A held entry goes back into the cache with its descriptor open. */
  ghost function Keep<E>(b: Books<E>, e: E): Books<E>
    requires Balanced(b) && e in b.held
  {
    Park(Stamp(b, e), e)
  }

  lemma KeepLater<E>(b: Books<E>, e: E)
    requires Balanced(b) && e in b.held
    ensures Keep(b, e).issued == b.issued && Keep(b, e).closed == b.closed
  {
  }

  lemma KeepFifo<E>(b: Books<E>, e: E)
    requires Balanced(b) && e in b.held && b.cards[e].fd >= 0 && b.cards[e].dns.value.cachePriority > 0
    ensures Places(Keep(b, e)) && FifoAgrees(Keep(b, e))
  {
    hide Ownership, Addresses;
  }

  lemma KeepOwners<E>(b: Books<E>, e: E)
    requires Balanced(b) && e in b.held && b.cards[e].fd >= 0 && b.cards[e].dns.value.cachePriority > 0
    ensures Places(Keep(b, e)) && Ownership(Keep(b, e)) && Addresses(Keep(b, e))
  {
    hide FifoAgrees;
  }

  /** An entry without a descriptor must not be kept for one: it would get into the fifo. */
  lemma KeepKeepsIff<E>(b: Books<E>, e: E)
    requires Balanced(b) && e in b.held && b.cards[e].dns.value.cachePriority > 0
    ensures Balanced(Keep(b, e)) <==> b.cards[e].fd >= 0
  {
    if b.cards[e].fd >= 0 {
      KeepKeeps(b, e);
    } else {
      assert Keep(b, e).fifo[b.counter] == e && Keep(b, e).cards[e].fd < 0;
    }
  }

  lemma KeepKeeps<E>(b: Books<E>, e: E)
    requires Balanced(b) && e in b.held && b.cards[e].fd >= 0 && b.cards[e].dns.value.cachePriority > 0
    ensures Balanced(Keep(b, e))
  {
    KeepFifo(b, e);
    KeepOwners(b, e);
    hide Places, FifoAgrees, Ownership, Addresses;
  }

  /** The descriptor of a held entry is closed. */
  ghost function CloseHeld<E>(b: Books<E>, e: E): Books<E>
    requires Balanced(b) && e in b.held
  {
    var fd := b.cards[e].fd;
    b.(cards := b.cards[e := b.cards[e].(fd := -1)], owner := b.owner - {fd}, closed := b.closed + [fd])
  }

  lemma CloseHeldKeeps<E>(b: Books<E>, e: E)
    requires Balanced(b) && e in b.held && b.cards[e].fd >= 0
    ensures Balanced(CloseHeld(b, e))
  {
  }

  /** A held entry without descriptor may go back for its address. */
  lemma ParkKeeps<E>(b: Books<E>, e: E)
    requires Balanced(b) && e in b.held && b.cards[e].fd < 0 && b.cards[e].dns.value.cachePriority > 0
    ensures Balanced(Park(b, e))
  {
  }

  /** An entry without descriptor is destroyed. */
  ghost function Drop<E>(b: Books<E>, e: E): Books<E> {
    b.(stored := b.stored - {e}, held := b.held - {e}, cards := b.cards - {e})
  }

  lemma DropKeeps<E>(b: Books<E>, e: E)
    requires Balanced(b) && e in b.cards && b.cards[e].fd < 0
    ensures Balanced(Drop(b, e))
  {
  }

  /** `_fifo.erase(timestamp)`. */
  function Erased<E>(fifo: map<nat, E>, timestamp: Option<nat>): map<nat, E> {
    if timestamp.Some? then fifo - {timestamp.value} else fifo
  }

  /** A stored entry is handed out, with a new address priority. */
  ghost function Take<E>(b: Books<E>, e: E, priority: int): Books<E>
    requires Balanced(b) && e in b.stored && b.cards[e].dns.Some?
  {
    b.(stored := b.stored - {e}, held := b.held + {e}, fifo := Erased(b.fifo, b.cards[e].timestamp),
       cards := b.cards[e := b.cards[e].(dns := Some(b.cards[e].dns.value.(cachePriority := priority)))])
  }

  lemma TakeFifo<E>(b: Books<E>, e: E, priority: int)
    requires Balanced(b) && e in b.stored && b.cards[e].dns.Some?
    ensures Places(Take(b, e, priority)) && FifoAgrees(Take(b, e, priority))
  {
    hide Ownership, Addresses;
  }

  lemma TakeOwners<E>(b: Books<E>, e: E, priority: int)
    requires Balanced(b) && e in b.stored && b.cards[e].dns.Some?
    ensures Places(Take(b, e, priority)) && Ownership(Take(b, e, priority)) && Addresses(Take(b, e, priority))
  {
    hide FifoAgrees;
  }

  lemma TakeKeeps<E>(b: Books<E>, e: E, priority: int)
    requires Balanced(b) && e in b.stored && b.cards[e].dns.Some?
    ensures Balanced(Take(b, e, priority))
  {
    TakeFifo(b, e, priority);
    TakeOwners(b, e, priority);
    hide Places, FifoAgrees, Ownership, Addresses;
  }

  /** A new entry is handed out. */
  ghost function Add<E>(b: Books<E>, e: E, card: Card): Books<E> {
    b.(held := b.held + {e}, cards := b.cards[e := card])
  }

  lemma AddKeeps<E>(b: Books<E>, e: E, card: Card)
    requires Balanced(b) && e !in b.cards && card.dns.Some? && card.timestamp.None? && card.fd == -1
    ensures Balanced(Add(b, e, card))
  {
  }

  /** A held entry gets a descriptor that nobody had before. */
  ghost function Open<E>(b: Books<E>, e: E, fd: int): Books<E>
    requires e in b.cards
  {
    b.(cards := b.cards[e := b.cards[e].(fd := fd)], owner := b.owner[fd := e], issued := b.issued + {fd})
  }

  lemma OpenKeeps<E>(b: Books<E>, e: E, fd: int)
    requires Balanced(b) && e in b.held && b.cards[e].fd < 0 && fd >= 0 && fd !in b.owner && fd !in b.closed
    ensures Balanced(Open(b, e, fd))
  {
  }

  // ---------------------------------------------------------------- runs of the elementary moves

  datatype Move<!E> =
    | Evicting(k: nat) | Keeping(e: E) | Closing(e: E) | Parking(e: E) | Dropping(e: E)
    | Taking(e: E, priority: int) | Adding(e: E, card: Card) | Opening(e: E, fd: int)

  /** The move may be made. */
  ghost predicate Allowed<E>(b: Books<E>, m: Move<E>)
    requires Balanced(b)
  {
    match m
    case Evicting(k) => k in b.fifo
    case Keeping(e) => e in b.held && b.cards[e].fd >= 0 && b.cards[e].dns.value.cachePriority > 0
    case Closing(e) => e in b.held && b.cards[e].fd >= 0
    case Parking(e) => e in b.held && b.cards[e].fd < 0 && b.cards[e].dns.value.cachePriority > 0
    case Dropping(e) => e in b.cards && b.cards[e].fd < 0
    case Taking(e, _) => e in b.stored && b.cards[e].dns.Some?
    case Adding(e, card) => e !in b.cards && card.dns.Some? && card.timestamp.None? && card.fd == -1
    case Opening(e, fd) => e in b.held && b.cards[e].fd < 0 && fd >= 0 && fd !in b.issued
  }

  ghost function Make<E>(b: Books<E>, m: Move<E>): Books<E>
    requires Balanced(b) && Allowed(b, m)
  {
    match m
    case Evicting(k) => Evict(b, k)
    case Keeping(e) => Keep(b, e)
    case Closing(e) => CloseHeld(b, e)
    case Parking(e) => Park(b, e)
    case Dropping(e) => Drop(b, e)
    case Taking(e, priority) => Take(b, e, priority)
    case Adding(e, card) => Add(b, e, card)
    case Opening(e, fd) => Open(b, e, fd)
  }

  lemma MakeKeeps<E>(b: Books<E>, m: Move<E>)
    requires Balanced(b) && Allowed(b, m)
    ensures Balanced(Make(b, m))
  {
    hide Places, FifoAgrees, Addresses, Evict, Keep, CloseHeld, Park, Drop, Take, Add, Open;
    match m {
      case Evicting(k) => EvictKeeps(b, k);
      case Keeping(e) => KeepKeeps(b, e);
      case Closing(e) => CloseHeldKeeps(b, e);
      case Parking(e) => ParkKeeps(b, e);
      case Dropping(e) => DropKeeps(b, e);
      case Taking(e, priority) => TakeKeeps(b, e, priority);
      case Adding(e, card) => AddKeeps(b, e, card);
      case Opening(e, fd) => OpenKeeps(b, e, fd);
    }
  }

  lemma MakeLater<E>(b: Books<E>, m: Move<E>)
    requires Balanced(b) && Allowed(b, m)
    ensures Later(b, Make(b, m))
  {
  }

  ghost function Empty<E>(): Books<E> {
    Books({}, {}, map[], map[], 0, map[], {}, [])
  }

  /** The books after these moves, starting with an empty cache; none if one of them may not be made. */
  ghost function After<E>(moves: seq<Move<E>>): (r: Option<Books<E>>)
    ensures r.Some? ==> Balanced(r.value)
  {
    if moves == [] then Some(Empty())
    else
      var last := moves[|moves| - 1];
      match After(moves[..|moves| - 1])
      case None => None
      case Some(b) =>
        if !Allowed(b, last) then None
        else
          MakeKeeps(b, last);
          Some(Make(b, last))
  }

  lemma AfterMore<E>(moves: seq<Move<E>>, b: Books<E>, m: Move<E>)
    requires After(moves) == Some(b) && Allowed(b, m)
    ensures After(moves + [m]) == Some(Make(b, m))
  {
    hide Balanced, Allowed, Make;
    assert (moves + [m])[..|moves|] == moves;
  }

  lemma {:induction false} AfterPrefix<E>(moves: seq<Move<E>>, i: nat)
    requires i <= |moves| && After(moves).Some?
    ensures After(moves[..i]).Some? && Later(After(moves[..i]).value, After(moves).value)
  {
    hide Balanced, Allowed, Make;
    var n := |moves| - 1;
    if i <= n {
      assert moves[..n][..i] == moves[..i];
      AfterPrefix(moves[..n], i);
      MakeLater(After(moves[..n]).value, moves[n]);
    } else {
      assert moves[..i] == moves;
    }
  }

  /**
   The life of a descriptor over any run of moves from an empty cache: once opened it is held or cached open,
   with one owner, until it is closed; it is closed once and never has an owner again.
   */
  lemma DescriptorLife<E>(moves: seq<Move<E>>, i: nat, j: nat, f: int)
    requires i <= j <= |moves| && After(moves).Some?
    ensures After(moves[..i]).Some? && After(moves[..j]).Some?
    ensures var b, c := After(moves[..i]).value, After(moves[..j]).value;
            && Later(b, c)
            && (f in b.issued && f in c.owner ==> f in b.owner && (c.owner[f] in c.stored) != (c.owner[f] in c.held))
            && (f in b.issued ==> (f in c.owner <==> multiset(c.closed)[f] == 0))
            && (f in b.issued ==> (f !in c.owner <==> multiset(c.closed)[f] == 1))
  {
    hide Allowed, Make, After;
    AfterPrefix(moves, j);
    assert moves[..j][..i] == moves[..i];
    AfterPrefix(moves[..j], i);
    if f in After(moves[..i]).value.issued {
      LaterLife(After(moves[..i]).value, After(moves[..j]).value, f);
    }
  }

  lemma LaterLife<E>(b: Books<E>, c: Books<E>, f: int)
    requires Balanced(b) && Balanced(c) && Later(b, c) && f in b.issued
    ensures f in c.owner ==> f in b.owner && (c.owner[f] in c.stored) != (c.owner[f] in c.held)
    ensures f in c.owner <==> multiset(c.closed)[f] == 0
    ensures f !in c.owner <==> multiset(c.closed)[f] == 1
  {
    hide FifoAgrees, Addresses;
    DistinctCount(c.closed, f);
    assert f in b.closed ==> f in c.closed;
  }
}
