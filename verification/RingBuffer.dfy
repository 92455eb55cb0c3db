/**
 The shared queue of `include/utils/ring_buffer.hpp` as an interleaved step system: any number
 of threads, one step per atomic load, store, counter update or slot access.
 Memory is sequentially consistent and the 64-bit counters do not wrap.
 */
module RingBuffer {
  import opened Wrappers

  type Tid = nat

  /** The argument of `insert` and of `insertAll`. */
  datatype Call<T> = One(x: T) | All(xs: seq<T>) {
    function Items(): seq<T> {
      match this case One(x) => [x] case All(xs) => xs
    }

    /** The guard each of the two operations evaluates on the values it loaded. */
    predicate Room(size: nat, cur: int, seenHead: int) {
      match this
      case One(_) => cur - seenHead < size
      case All(xs) => size >= |xs| && cur - seenHead < size + 1 - |xs|
    }
  }

  /** Where a thread stands inside an operation. `before` and `at` are recorded for the proofs only. */
  datatype Pc<T> =
    | Idle
    | InsLock(c: Call<T>, wait: bool)
    | InsLoadSeen(c: Call<T>, wait: bool)
    | InsLoadPending(c: Call<T>, wait: bool, seenHead: nat)
    | InsClaim(c: Call<T>, wait: bool, cur: nat)
    | InsWrite(c: Call<T>, wait: bool, cur: nat, off: nat)
    | InsUnlock(c: Call<T>, wait: bool, ticket: Option<nat>)
    | InsDone(c: Call<T>, ticket: Option<nat>)
    | ConLock(wait: bool)
    | ConLoadInsert(wait: bool)
    | ConLoadSeen(wait: bool, curInsert: nat)
    | ConClaim(wait: bool, cur: nat)
    | ConRead(wait: bool, cur: nat)
    | ConCommit(wait: bool, cur: nat, val: T)
    | ConUnlock(wait: bool, result: Option<T>, at: nat)
    | ConDone(result: Option<T>, at: nat)
    | EmptyCall(before: nat)
    | EmptyHasInsert(before: nat, ins: nat)
    | EmptyHasSeen(before: nat, seen: nat)
    | EmptyDone(before: nat, empty: bool)

  /**
   The shared memory and all program counters. A spin mutex is set exactly when it has an owner;
   `log` and `taken` record what was committed and consumed and no step reads them.
   */
  datatype Sys<T> = Sys(
    size: nat, buffer: seq<T>,
    insPending: nat, insCommitted: nat, insOwner: Option<Tid>,
    seenPending: nat, seenCommitted: nat, seenOwner: Option<Tid>,
    pcs: map<Tid, Pc<T>>,
    log: seq<T>, taken: seq<T>)
  {
    function To(t: Tid, pc: Pc<T>): Sys<T> {
      this.(pcs := pcs[t := pc])
    }
  }

  ghost predicate Init<T>(s: Sys<T>) {
    && |s.buffer| == s.size
    && s.insPending == s.insCommitted == s.seenPending == s.seenCommitted == 0
    && s.insOwner == s.seenOwner == None
    && s.log == s.taken == []
    && forall t | t in s.pcs :: s.pcs[t] == Idle
  }

  // ---------------------------------------------------------------- steps

  /** A thread that is not inside an operation starts any of them. */
  ghost predicate StartStep<T>(s: Sys<T>, s': Sys<T>, t: Tid)
    requires t in s.pcs
  {
    && (s.pcs[t].Idle? || s.pcs[t].InsDone? || s.pcs[t].ConDone? || s.pcs[t].EmptyDone?)
    && t in s'.pcs
    && s' == s.To(t, s'.pcs[t])
    && match s'.pcs[t]
       case InsLock(_, _) => true
       case ConLock(_) => true
       case EmptyCall(before) => before == s.insCommitted
       case _ => false
  }

  /** `insert` and `insertAll`. */
  ghost predicate InsertStep<T>(s: Sys<T>, s': Sys<T>, t: Tid)
    requires t in s.pcs
  {
    match s.pcs[t]
    case InsLock(c, w) =>  // the compare-exchange that succeeds; a failing one changes nothing
      s.insOwner.None? && s' == s.(insOwner := Some(t)).To(t, InsLoadSeen(c, w))
    case InsLoadSeen(c, w) =>
      s' == s.To(t, InsLoadPending(c, w, s.seenCommitted))
    case InsLoadPending(c, w, seenHead) =>
      s' == s.To(t, if c.Room(s.size, s.insPending, seenHead)
                    then InsClaim(c, w, s.insPending) else InsUnlock(c, w, None))
    case InsClaim(c, w, cur) =>
      s' == s.(insPending := s.insPending + |c.Items()|).To(t, InsWrite(c, w, cur, 0))
    case InsWrite(c, w, cur, off) =>
      if off < |c.Items()| then
        && s.size > 0 && (cur + off) % s.size < |s.buffer|
        && s' == s.(buffer := s.buffer[(cur + off) % s.size := c.Items()[off]])
                  .To(t, InsWrite(c, w, cur, off + 1))
      else
        s' == s.(insCommitted := s.insCommitted + |c.Items()|, log := s.log + c.Items())
               .To(t, InsUnlock(c, w, Some(cur)))
    case InsUnlock(c, w, ticket) =>
      s' == s.(insOwner := None).To(t, if ticket.None? && w then InsLock(c, w) else InsDone(c, ticket))
    case _ => false
  }

  /** `consume`. */
  ghost predicate ConsumeStep<T>(s: Sys<T>, s': Sys<T>, t: Tid)
    requires t in s.pcs
  {
    match s.pcs[t]
    case ConLock(w) =>
      s.seenOwner.None? && s' == s.(seenOwner := Some(t)).To(t, ConLoadInsert(w))
    case ConLoadInsert(w) =>
      s' == s.To(t, ConLoadSeen(w, s.insCommitted))
    case ConLoadSeen(w, curInsert) =>
      s' == s.To(t, if curInsert > s.seenPending then ConClaim(w, s.seenPending) else ConUnlock(w, None, 0))
    case ConClaim(w, cur) =>
      s' == s.(seenPending := s.seenPending + 1).To(t, ConRead(w, cur))
    case ConRead(w, cur) =>
      && s.size > 0 && cur % s.size < |s.buffer|
      && s' == s.To(t, ConCommit(w, cur, s.buffer[cur % s.size]))
    case ConCommit(w, cur, val) =>
      s' == s.(seenCommitted := s.seenCommitted + 1, taken := s.taken + [val])
             .To(t, ConUnlock(w, Some(val), cur))
    case ConUnlock(w, r, at) =>
      s' == s.(seenOwner := None).To(t, if r.None? && w then ConLock(w) else ConDone(r, at))
    case _ => false
  }

  /** `empty`: two loads in either order, no lock. */
  ghost predicate EmptyStep<T>(s: Sys<T>, s': Sys<T>, t: Tid)
    requires t in s.pcs
  {
    match s.pcs[t]
    case EmptyCall(b) =>
      || s' == s.To(t, EmptyHasInsert(b, s.insCommitted))
      || s' == s.To(t, EmptyHasSeen(b, s.seenCommitted))
    case EmptyHasInsert(b, ins) => s' == s.To(t, EmptyDone(b, ins - s.seenCommitted == 0))
    case EmptyHasSeen(b, seen) => s' == s.To(t, EmptyDone(b, s.insCommitted - seen == 0))
    case _ => false
  }

  ghost predicate ThreadStep<T>(s: Sys<T>, s': Sys<T>, t: Tid) {
    && t in s.pcs
    && (|| StartStep(s, s', t) || InsertStep(s, s', t)
        || ConsumeStep(s, s', t) || EmptyStep(s, s', t))
  }

  ghost predicate StepAt<T>(run: seq<Sys<T>>, who: seq<Tid>, i: nat)
    requires |run| == |who| + 1 && i < |who|
  {
    ThreadStep(run[i], run[i + 1], who[i])
  }

  /** `run` starts in an initial state and `who[i]` takes the step from `run[i]` to `run[i + 1]`. */
  ghost predicate Run<T>(run: seq<Sys<T>>, who: seq<Tid>) {
    && |run| == |who| + 1
    && Init(run[0])
    && forall i {:trigger StepAt(run, who, i)} | 0 <= i < |who| :: StepAt(run, who, i)
  }

  // ---------------------------------------------------------------- invariant

  predicate HoldsInsert<T>(pc: Pc<T>) {
    pc.InsLoadSeen? || pc.InsLoadPending? || pc.InsClaim? || pc.InsWrite? || pc.InsUnlock?
  }

  predicate HoldsSeen<T>(pc: Pc<T>) {
    pc.ConLoadInsert? || pc.ConLoadSeen? || pc.ConClaim? || pc.ConRead? || pc.ConCommit? || pc.ConUnlock?
  }

  /** `xs` occupies a contiguous run of `log` that starts at position `k`. */
  ghost predicate LoggedAt<T>(log: seq<T>, k: nat, xs: seq<T>) {
    && k + |xs| <= |log|
    && forall j {:trigger xs[j]} | 0 <= j < |xs| :: log[k + j] == xs[j]
  }

  ghost predicate SlotIs<T>(buffer: seq<T>, i: nat, x: T) {
    |buffer| > 0 && buffer[i % |buffer|] == x
  }

  /** The slots of positions `base`, `base + 1`, ... hold `xs`. */
  ghost predicate Holds<T>(buffer: seq<T>, base: nat, xs: seq<T>) {
    forall k {:trigger xs[k]} | 0 <= k < |xs| :: SlotIs(buffer, base + k, xs[k])
  }

  ghost predicate PcInv<T>(s: Sys<T>, t: Tid)
    requires t in s.pcs && |s.buffer| == s.size
  {
    var pc := s.pcs[t];
    && (HoldsInsert(pc) ==> s.insOwner == Some(t))
    && (HoldsSeen(pc) ==> s.seenOwner == Some(t))
    && (HoldsInsert(pc) && !pc.InsWrite? ==> s.insPending == s.insCommitted)
    && (HoldsSeen(pc) && !pc.ConRead? && !pc.ConCommit? ==> s.seenPending == s.seenCommitted)
    && match pc
       case InsLoadPending(_, _, seenHead) => seenHead <= s.seenCommitted
       case InsClaim(c, _, cur) =>
         cur == s.insCommitted && cur + |c.Items()| <= s.seenCommitted + s.size
       case InsWrite(c, _, cur, off) =>
         && cur == s.insCommitted && s.insPending == cur + |c.Items()| && off <= |c.Items()|
         && Holds(s.buffer, cur, c.Items()[..off])
       case InsUnlock(c, _, ticket) => ticket.Some? ==> LoggedAt(s.log, ticket.value, c.Items())
       case InsDone(c, ticket) => ticket.Some? ==> LoggedAt(s.log, ticket.value, c.Items())
       case ConLoadSeen(_, curInsert) => curInsert <= s.insCommitted
       case ConClaim(_, cur) => cur == s.seenCommitted < s.insCommitted
       case ConRead(_, cur) => cur == s.seenCommitted && s.seenPending == cur + 1
       case ConCommit(_, cur, val) =>
         cur == s.seenCommitted && s.seenPending == cur + 1 && cur < |s.log| && val == s.log[cur]
       case ConUnlock(_, r, at) => r.Some? ==> at < |s.taken| && s.taken[at] == r.value
       case ConDone(r, at) => r.Some? ==> at < |s.taken| && s.taken[at] == r.value
       case EmptyCall(b) => b <= s.insCommitted
       case EmptyHasInsert(b, ins) => b <= ins <= s.insCommitted
       case EmptyHasSeen(b, seen) => b <= s.insCommitted && seen <= s.seenCommitted
       case EmptyDone(b, e) => b <= s.insCommitted && (e ==> b <= s.seenCommitted)
       case _ => true
  }

  /** The counter order and the contents of the live window. */
  ghost predicate Shared<T>(s: Sys<T>) {
    && |s.buffer| == s.size
    && s.seenCommitted <= s.seenPending <= s.insCommitted <= s.insPending <= s.seenCommitted + s.size
    && |s.log| == s.insCommitted && |s.taken| == s.seenCommitted
    && s.taken == s.log[..s.seenCommitted]
    && Holds(s.buffer, s.seenCommitted, s.log[s.seenCommitted..])
    && (s.insOwner.None? ==> s.insPending == s.insCommitted)
    && (s.seenOwner.None? ==> s.seenPending == s.seenCommitted)
  }

  ghost predicate Inv<T>(s: Sys<T>) {
    && Shared(s)
    && forall t {:trigger s.pcs[t]} | t in s.pcs :: PcInv(s, t)
  }

  /** Two different positions of one window never share a slot. */
  lemma SlotsDiffer(i: nat, j: nat, size: nat)
    requires i < j < i + size
    ensures i % size != j % size
  {
    var d := j - i;
    var q, r := i / size, i % size;
    assert j == size * q + (r + d);
    if r + d < size {
      DivModUnique(j, size, q, r + d);
    } else {
      assert j == size * (q + 1) + (r + d - size);
      DivModUnique(j, size, q + 1, r + d - size);
    }
  }

  lemma DivModUnique(n: nat, size: nat, q: nat, r: nat)
    requires r < size && n == size * q + r
    ensures n % size == r
  {
    var q' := n / size;
    if q' > q {
      MulStep(size, q, q');
    } else if q' < q {
      MulStep(size, q', q);
    }
  }

  lemma {:induction false} MulStep(size: nat, a: nat, b: nat)
    requires a < b
    ensures size * a + size <= size * b
  {
    if a + 1 < b {
      MulStep(size, a, b - 1);
    }
  }

  // ---------------------------------------------------------------- preservation

  /** What a step may do to the parts of the state other threads' facts depend on. */
  ghost predicate Grows<T>(s: Sys<T>, s': Sys<T>) {
    && s'.size == s.size && |s'.buffer| == s'.size
    && s.insCommitted <= s'.insCommitted && s.seenCommitted <= s'.seenCommitted
    && s.log <= s'.log && s.taken <= s'.taken
  }

  /** What a thread can rely on while others run: its counter, and what its own lock protects. */
  ghost predicate StableFor<T>(s: Sys<T>, s': Sys<T>, u: Tid) {
    && u in s.pcs && u in s'.pcs && s'.pcs[u] == s.pcs[u]
    && s'.size == s.size
    && (HoldsInsert(s.pcs[u]) ==>
          && s'.insOwner == s.insOwner && s'.insPending == s.insPending && s'.insCommitted == s.insCommitted
          && s'.log == s.log && s'.buffer == s.buffer)
    && (HoldsSeen(s.pcs[u]) ==>
          && s'.seenOwner == s.seenOwner && s'.seenPending == s.seenPending && s'.seenCommitted == s.seenCommitted
          && s'.taken == s.taken)
  }

  lemma OtherStepIsStable<T>(s: Sys<T>, s': Sys<T>, t: Tid, u: Tid)
    requires Inv(s) && ThreadStep(s, s', t) && t != u && u in s'.pcs
    ensures StableFor(s, s', u)
  {
    assert u in s.pcs;
    assert PcInv(s, u) && PcInv(s, t);
  }

  /** A thread keeps its facts across a step of another thread. */
  lemma StableKeeps<T>(s: Sys<T>, s': Sys<T>, u: Tid)
    requires |s.buffer| == s.size && Grows(s, s') && StableFor(s, s', u) && PcInv(s, u)
    ensures PcInv(s', u)
  {
  }

  lemma StartKeeps<T>(s: Sys<T>, s': Sys<T>, t: Tid)
    requires Inv(s) && t in s.pcs && StartStep(s, s', t)
    ensures Shared(s') && Grows(s, s') && PcInv(s', t)
  {
  }

  lemma EmptyKeeps<T>(s: Sys<T>, s': Sys<T>, t: Tid)
    requires Inv(s) && t in s.pcs && EmptyStep(s, s', t)
    ensures Shared(s') && Grows(s, s') && PcInv(s', t)
  {
    assert PcInv(s, t);
  }

  /** The store to a slot leaves the rest of a window no longer than the buffer alone. */
  lemma StoreKeeps<T>(buffer: seq<T>, base: nat, xs: seq<T>, p: nat, x: T)
    requires Holds(buffer, base, xs) && base + |xs| <= p < base + |buffer|
    ensures Holds(buffer[p % |buffer| := x], base, xs)
  {
    forall k {:trigger xs[k]} | 0 <= k < |xs|
      ensures SlotIs(buffer[p % |buffer| := x], base + k, xs[k])
    {
      SlotsDiffer(base + k, p, |buffer|);
      assert SlotIs(buffer, base + k, xs[k]);
    }
  }

  lemma JoinHolds<T>(buffer: seq<T>, base: nat, xs: seq<T>, ys: seq<T>)
    requires Holds(buffer, base, xs) && Holds(buffer, base + |xs|, ys)
    ensures Holds(buffer, base, xs + ys)
  {
    forall k {:trigger (xs + ys)[k]} | 0 <= k < |xs + ys|
      ensures SlotIs(buffer, base + k, (xs + ys)[k])
    {
      if k >= |xs| {
        assert SlotIs(buffer, base + |xs| + (k - |xs|), ys[k - |xs|]);
      }
    }
  }

  lemma InsertKeeps<T>(s: Sys<T>, s': Sys<T>, t: Tid)
    requires Inv(s) && t in s.pcs && InsertStep(s, s', t)
    ensures Shared(s') && Grows(s, s') && PcInv(s', t)
  {
    assert PcInv(s, t);
    hide Shared, Grows;
    match s.pcs[t] {
      case InsWrite(c, w, cur, off) =>
        if off < |c.Items()| {
          SlotWriteKeeps(s, s', t, c, w, cur, off);
        } else {
          CommitKeeps(s, s', t, c, w, cur);
        }
      case InsLoadPending(_, _, _) => InsertCheckKeeps(s, s', t);
      case InsClaim(_, _, _) => InsertCheckKeeps(s, s', t);
      case _ => InsertLockKeeps(s, s', t);
    }
  }

  lemma InsertCheckKeeps<T>(s: Sys<T>, s': Sys<T>, t: Tid)
    requires Inv(s) && t in s.pcs && InsertStep(s, s', t) && (s.pcs[t].InsLoadPending? || s.pcs[t].InsClaim?)
    ensures Shared(s') && Grows(s, s') && PcInv(s', t)
  {
    assert PcInv(s, t);
  }

  lemma InsertLockKeeps<T>(s: Sys<T>, s': Sys<T>, t: Tid)
    requires Inv(s) && t in s.pcs && InsertStep(s, s', t)
    requires s.pcs[t].InsLock? || s.pcs[t].InsLoadSeen? || s.pcs[t].InsUnlock?
    ensures Shared(s') && Grows(s, s') && PcInv(s', t)
  {
    assert PcInv(s, t);
  }

  lemma SlotWriteKeeps<T>(s: Sys<T>, s': Sys<T>, t: Tid, c: Call<T>, w: bool, cur: nat, off: nat)
    requires Inv(s) && t in s.pcs && InsertStep(s, s', t)
    requires s.pcs[t] == InsWrite(c, w, cur, off) && off < |c.Items()|
    ensures Shared(s') && Grows(s, s') && PcInv(s', t)
  {
    assert PcInv(s, t);
    SlotWriteFills(s, s', t, c, w, cur, off);
    SlotWriteShares(s, s', t, c, w, cur, off);
    hide Holds, Shared, Grows;
  }

  /** The slot lies outside the window that is unread. */
  lemma SlotWriteShares<T>(s: Sys<T>, s': Sys<T>, t: Tid, c: Call<T>, w: bool, cur: nat, off: nat)
    requires Inv(s) && t in s.pcs && InsertStep(s, s', t)
    requires s.pcs[t] == InsWrite(c, w, cur, off) && off < |c.Items()|
    ensures Shared(s') && Grows(s, s')
  {
    assert PcInv(s, t);
    StoreKeeps(s.buffer, s.seenCommitted, s.log[s.seenCommitted..], cur + off, c.Items()[off]);
    hide Holds, PcInv;
  }

  lemma SlotWriteFills<T>(s: Sys<T>, s': Sys<T>, t: Tid, c: Call<T>, w: bool, cur: nat, off: nat)
    requires Inv(s) && t in s.pcs && InsertStep(s, s', t)
    requires s.pcs[t] == InsWrite(c, w, cur, off) && off < |c.Items()|
    ensures Holds(s'.buffer, cur, c.Items()[..off + 1])
  {
    assert PcInv(s, t);
    hide PcInv, LoggedAt;
    var p, xs := cur + off, c.Items();
    StoreKeeps(s.buffer, cur, xs[..off], p, xs[off]);
    JoinHolds(s'.buffer, cur, xs[..off], [xs[off]]);
    assert xs[..off + 1] == xs[..off] + [xs[off]];
  }

  lemma CommitKeeps<T>(s: Sys<T>, s': Sys<T>, t: Tid, c: Call<T>, w: bool, cur: nat)
    requires Inv(s) && t in s.pcs && InsertStep(s, s', t)
    requires s.pcs[t] == InsWrite(c, w, cur, |c.Items()|)
    ensures Shared(s') && Grows(s, s') && PcInv(s', t)
  {
    assert PcInv(s, t);
    assert s'.log[..s'.seenCommitted] == s.log[..s.seenCommitted];
    assert s'.log[s.seenCommitted..] == s.log[s.seenCommitted..] + c.Items();
    assert c.Items()[..|c.Items()|] == c.Items();
    JoinHolds(s.buffer, s.seenCommitted, s.log[s.seenCommitted..], c.Items());
  }

  lemma ConsumeKeeps<T>(s: Sys<T>, s': Sys<T>, t: Tid)
    requires Inv(s) && t in s.pcs && ConsumeStep(s, s', t)
    ensures Shared(s') && Grows(s, s') && PcInv(s', t)
  {
    match s.pcs[t] {
      case ConCommit(w, cur, val) => TakeKeeps(s, s', t, w, cur, val);
      case ConRead(w, cur) => ReadKeeps(s, s', t, w, cur);
      case ConLoadSeen(_, _) => ConsumeCheckKeeps(s, s', t);
      case ConClaim(_, _) => ConsumeCheckKeeps(s, s', t);
      case _ => ConsumeLockKeeps(s, s', t);
    }
  }

  lemma TakeKeeps<T>(s: Sys<T>, s': Sys<T>, t: Tid, w: bool, cur: nat, val: T)
    requires Inv(s) && t in s.pcs && ConsumeStep(s, s', t) && s.pcs[t] == ConCommit(w, cur, val)
    ensures Shared(s') && Grows(s, s') && PcInv(s', t)
  {
    assert PcInv(s, t);
    assert s.log[..cur + 1] == s.log[..cur] + [s.log[cur]];
    var rest := s.log[cur..];
    forall k {:trigger s.log[cur + 1..][k]} | 0 <= k < |s.log[cur + 1..]|
      ensures SlotIs(s.buffer, cur + 1 + k, s.log[cur + 1..][k])
    {
      assert SlotIs(s.buffer, cur + (k + 1), rest[k + 1]);
    }
  }

  lemma ConsumeCheckKeeps<T>(s: Sys<T>, s': Sys<T>, t: Tid)
    requires Inv(s) && t in s.pcs && ConsumeStep(s, s', t) && (s.pcs[t].ConLoadSeen? || s.pcs[t].ConClaim?)
    ensures Shared(s') && Grows(s, s') && PcInv(s', t)
  {
    assert PcInv(s, t);
  }

  lemma ConsumeLockKeeps<T>(s: Sys<T>, s': Sys<T>, t: Tid)
    requires Inv(s) && t in s.pcs && ConsumeStep(s, s', t)
    requires s.pcs[t].ConLock? || s.pcs[t].ConLoadInsert? || s.pcs[t].ConUnlock?
    ensures Shared(s') && Grows(s, s') && PcInv(s', t)
  {
    assert PcInv(s, t);
  }

  /** The slot a consumer reads still holds the oldest unread element. */
  lemma ReadKeeps<T>(s: Sys<T>, s': Sys<T>, t: Tid, w: bool, cur: nat)
    requires Inv(s) && t in s.pcs && ConsumeStep(s, s', t) && s.pcs[t] == ConRead(w, cur)
    ensures Shared(s') && Grows(s, s') && PcInv(s', t)
  {
    assert PcInv(s, t);
    assert SlotIs(s.buffer, cur + 0, s.log[cur..][0]);
  }

  lemma StepKeepsInv<T>(s: Sys<T>, s': Sys<T>, t: Tid)
    requires Inv(s) && ThreadStep(s, s', t)
    ensures Inv(s')
  {
    if StartStep(s, s', t) {
      StartKeeps(s, s', t);
    } else if InsertStep(s, s', t) {
      InsertKeeps(s, s', t);
    } else if ConsumeStep(s, s', t) {
      ConsumeKeeps(s, s', t);
    } else {
      EmptyKeeps(s, s', t);
    }
    forall u {:trigger s'.pcs[u]} | u in s'.pcs && u != t
      ensures PcInv(s', u)
    {
      OtherStepIsStable(s, s', t, u);
      StableKeeps(s, s', u);
    }
  }

  lemma {:induction false} RunKeepsInv<T>(run: seq<Sys<T>>, who: seq<Tid>, n: nat)
    requires Run(run, who) && n < |run|
    ensures Inv(run[n])
  {
    if n > 0 {
      RunKeepsInv(run, who, n - 1);
      assert StepAt(run, who, n - 1);
      StepKeepsInv(run[n - 1], run[n], who[n - 1]);
    }
  }

  /**
   No step is blocked other than by a held lock: in particular the unsigned subtraction of the room
   check cannot wrap and no slot index is computed modulo zero or outside the buffer.
   */
  lemma NeverStuckInserting<T>(s: Sys<T>, t: Tid)
    requires Inv(s) && t in s.pcs && HoldsInsert(s.pcs[t])
    ensures exists s' :: InsertStep(s, s', t)
    ensures s.pcs[t].InsLoadPending? ==> s.pcs[t].seenHead <= s.insPending
  {
    assert PcInv(s, t);
    var s' := match s.pcs[t]
      case InsLoadSeen(c, w) => s.To(t, InsLoadPending(c, w, s.seenCommitted))
      case InsLoadPending(c, w, h) =>
        s.To(t, if c.Room(s.size, s.insPending, h) then InsClaim(c, w, s.insPending) else InsUnlock(c, w, None))
      case InsClaim(c, w, cur) => s.(insPending := s.insPending + |c.Items()|).To(t, InsWrite(c, w, cur, 0))
      case InsWrite(c, w, cur, off) =>
        if off < |c.Items()|
        then s.(buffer := s.buffer[(cur + off) % s.size := c.Items()[off]]).To(t, InsWrite(c, w, cur, off + 1))
        else s.(insCommitted := s.insCommitted + |c.Items()|, log := s.log + c.Items())
              .To(t, InsUnlock(c, w, Some(cur)))
      case InsUnlock(c, w, k) =>
        s.(insOwner := None).To(t, if k.None? && w then InsLock(c, w) else InsDone(c, k));
    assert InsertStep(s, s', t);
  }

  lemma NeverStuckConsuming<T>(s: Sys<T>, t: Tid)
    requires Inv(s) && t in s.pcs && HoldsSeen(s.pcs[t])
    ensures exists s' :: ConsumeStep(s, s', t)
  {
    assert PcInv(s, t);
    var s' := match s.pcs[t]
      case ConLoadInsert(w) => s.To(t, ConLoadSeen(w, s.insCommitted))
      case ConLoadSeen(w, i) =>
        s.To(t, if i > s.seenPending then ConClaim(w, s.seenPending) else ConUnlock(w, None, 0))
      case ConClaim(w, cur) => s.(seenPending := s.seenPending + 1).To(t, ConRead(w, cur))
      case ConRead(w, cur) => s.To(t, ConCommit(w, cur, s.buffer[cur % s.size]))
      case ConCommit(w, cur, v) =>
        s.(seenCommitted := s.seenCommitted + 1, taken := s.taken + [v]).To(t, ConUnlock(w, Some(v), cur))
      case ConUnlock(w, r, at) =>
        s.(seenOwner := None).To(t, if r.None? && w then ConLock(w) else ConDone(r, at));
    assert ConsumeStep(s, s', t);
  }

  /** The spin mutexes exclude: two threads are never inside the same critical section. */
  lemma MutualExclusion<T>(s: Sys<T>, t: Tid, u: Tid)
    requires Inv(s) && t in s.pcs && u in s.pcs
    requires (HoldsInsert(s.pcs[t]) && HoldsInsert(s.pcs[u])) || (HoldsSeen(s.pcs[t]) && HoldsSeen(s.pcs[u]))
    ensures t == u
  {
    assert PcInv(s, t) && PcInv(s, u);
  }

  // ---------------------------------------------------------------- refinement of an atomic bounded FIFO

  /** The specification: a log of which the first `taken` elements have been consumed. */
  datatype Fifo<T> = Fifo(capacity: nat, log: seq<T>, taken: nat) {
    ghost predicate Append(f': Fifo<T>, xs: seq<T>, ticket: nat) {
      && taken <= |log|
      && ticket == |log|
      && |log| - taken + |xs| <= capacity
      && f' == this.(log := log + xs)
    }

    ghost predicate Take(f': Fifo<T>, x: T) {
      && taken < |log|
      && x == log[taken]
      && f' == this.(taken := taken + 1)
    }

    ghost predicate NoRoom(n: nat) {
      |log| - taken + n > capacity
    }

    ghost predicate Empty() {
      taken == |log|
    }
  }

  ghost function Abs<T>(s: Sys<T>): Fifo<T> {
    Fifo(s.size, s.log, s.seenCommitted)
  }

  /** Every step is one atomic queue operation or leaves the queue as it is. */
  lemma StepRefinesFifo<T>(s: Sys<T>, s': Sys<T>, t: Tid)
    requires Inv(s) && ThreadStep(s, s', t)
    ensures match s.pcs[t]
            case InsWrite(c, w, cur, off) =>
              if off == |c.Items()|
              then Abs(s).Append(Abs(s'), c.Items(), cur) && s'.pcs[t] == InsUnlock(c, w, Some(cur))
              else Abs(s') == Abs(s)
            case ConCommit(w, cur, val) =>
              && Abs(s).Take(Abs(s'), val)
              && s'.pcs[t] == ConUnlock(w, Some(val), cur) && cur == Abs(s).taken
            case _ => Abs(s') == Abs(s)
  {
    assert PcInv(s, t);
  }

  /** What consumers have obtained is always exactly a prefix, in order, of what was committed. */
  lemma ConsumedIsPrefix<T>(run: seq<Sys<T>>, who: seq<Tid>, n: nat)
    requires Run(run, who) && n < |run|
    ensures run[n].taken <= run[n].log
    ensures |run[n].log| - |run[n].taken| <= run[n].size
  {
    RunKeepsInv(run, who, n);
  }

  /** `t` stays within one attempt of the insert call `c`, after its load of the consumers' counter. */
  ghost predicate InsertAttempt<T>(s: Sys<T>, t: Tid, c: Call<T>) {
    && t in s.pcs
    && match s.pcs[t]
       case InsLoadPending(c', _, _) => c' == c
       case InsClaim(c', _, _) => c' == c
       case InsWrite(c', _, _, _) => c' == c
       case InsUnlock(c', _, _) => c' == c
       case InsDone(c', _) => c' == c
       case _ => false
  }

  /** The call in `run[n]` has an instant `j` within its last attempt at which its result is right. */
  ghost predicate InsertExplained<T>(run: seq<Sys<T>>, who: seq<Tid>, t: Tid, c: Call<T>, ticket: Option<nat>,
      j: nat, n: nat)
    requires |run| == |who| + 1
  {
    && j < n < |run| && who[j] == t
    && (forall i {:trigger run[i]} | j < i <= n :: InsertAttempt(run[i], t, c))
    && match ticket
       case Some(k) => Abs(run[j]).Append(Abs(run[j + 1]), c.Items(), k)
       case None => Abs(run[j]).NoRoom(|c.Items()|)
  }

  /** Another thread's step changes neither this thread's counter nor what this thread's lock protects. */
  lemma OtherStepFrame<T>(run: seq<Sys<T>>, who: seq<Tid>, t: Tid, n: nat)
    requires Run(run, who) && 0 < n < |run| && who[n - 1] != t && t in run[n].pcs
    ensures t in run[n - 1].pcs && run[n].pcs[t] == run[n - 1].pcs[t] && run[n].size == run[n - 1].size
    ensures HoldsInsert(run[n].pcs[t]) ==> run[n].insPending == run[n - 1].insPending
    ensures HoldsSeen(run[n].pcs[t]) ==> run[n].seenPending == run[n - 1].seenPending
  {
    assert StepAt(run, who, n - 1);
    RunKeepsInv(run, who, n - 1);
    OtherStepIsStable(run[n - 1], run[n], who[n - 1], t);
  }

  /** The only way into the state before the room check is the load of the consumers' counter. */
  lemma LoadSeenStep<T>(run: seq<Sys<T>>, who: seq<Tid>, t: Tid, n: nat)
    requires Run(run, who) && 0 < n < |run| && who[n - 1] == t
    requires t in run[n].pcs && run[n].pcs[t].InsLoadPending?
    ensures run[n - 1].seenCommitted == run[n].pcs[t].seenHead
    ensures |run[n - 1].log| == run[n].insPending && run[n].size == run[n - 1].size
    ensures run[n - 1].seenCommitted <= |run[n - 1].log|
  {
    assert StepAt(run, who, n - 1);
    RunKeepsInv(run, who, n - 1);
    assert PcInv(run[n - 1], t);
  }

  lemma LoadInsertStep<T>(run: seq<Sys<T>>, who: seq<Tid>, t: Tid, n: nat)
    requires Run(run, who) && 0 < n < |run| && who[n - 1] == t
    requires t in run[n].pcs && run[n].pcs[t].ConLoadSeen?
    ensures |run[n - 1].log| == run[n].pcs[t].curInsert
    ensures run[n - 1].seenCommitted == run[n].seenPending && run[n - 1].seenCommitted <= |run[n - 1].log|
  {
    assert StepAt(run, who, n - 1);
    RunKeepsInv(run, who, n - 1);
    assert PcInv(run[n - 1], t);
  }

  /** Between a thread's load of the consumers' counter and its check, no element is inserted. */
  lemma {:induction false} LoadedSeenHead<T>(run: seq<Sys<T>>, who: seq<Tid>, t: Tid, n: nat) returns (j: nat)
    requires Run(run, who) && n < |run| && t in run[n].pcs && run[n].pcs[t].InsLoadPending?
    ensures j < n && who[j] == t && run[j].seenCommitted == run[n].pcs[t].seenHead
    ensures run[j].seenCommitted <= |run[j].log| == run[n].insPending && run[j].size == run[n].size
    ensures forall i {:trigger run[i]} | j < i <= n :: InsertAttempt(run[i], t, run[n].pcs[t].c)
  {
    if who[n - 1] == t {
      LoadSeenStep(run, who, t, n);
      j := n - 1;
    } else {
      OtherStepFrame(run, who, t, n);
      j := LoadedSeenHead(run, who, t, n - 1);
    }
  }

  /** What a thread's own step into the end of an insert call came from. */
  lemma InsertEndStep<T>(run: seq<Sys<T>>, who: seq<Tid>, t: Tid, n: nat)
    requires Run(run, who) && 0 < n < |run| && who[n - 1] == t
    requires t in run[n].pcs && (run[n].pcs[t].InsUnlock? || run[n].pcs[t].InsDone?)
    ensures InsertAttempt(run[n - 1], t, run[n].pcs[t].c)
    ensures var s, pc, pc' := run[n - 1], run[n - 1].pcs[t], run[n].pcs[t];
            || (pc.InsUnlock? && pc'.InsDone? && pc'.ticket == pc.ticket)
            || (pc.InsWrite? && pc'.ticket.Some? && Abs(s).Append(Abs(run[n]), pc'.c.Items(), pc'.ticket.value))
            || (pc.InsLoadPending? && pc'.ticket == None && !pc'.c.Room(s.size, s.insPending, pc.seenHead))
  {
    assert StepAt(run, who, n - 1);
    RunKeepsInv(run, who, n - 1);
    assert PcInv(run[n - 1], t);
    StepRefinesFifo(run[n - 1], run[n], t);
  }

  lemma ConsumeEndStep<T>(run: seq<Sys<T>>, who: seq<Tid>, t: Tid, n: nat)
    requires Run(run, who) && 0 < n < |run| && who[n - 1] == t
    requires t in run[n].pcs && (run[n].pcs[t].ConUnlock? || run[n].pcs[t].ConDone?)
    ensures ConsumeAttempt(run[n - 1], t)
    ensures var s, pc, pc' := run[n - 1], run[n - 1].pcs[t], run[n].pcs[t];
            || (pc.ConUnlock? && pc'.ConDone? && pc'.result == pc.result && pc'.at == pc.at)
            || (pc.ConCommit? && pc'.result.Some? && pc'.at == Abs(s).taken
               && Abs(s).Take(Abs(run[n]), pc'.result.value))
            || (pc.ConLoadSeen? && pc'.result == None && pc.curInsert <= s.seenPending)
  {
    assert StepAt(run, who, n - 1);
    RunKeepsInv(run, who, n - 1);
    assert PcInv(run[n - 1], t);
    StepRefinesFifo(run[n - 1], run[n], t);
  }

  /**
   Linearizability of `insert` and `insertAll`: a returned ticket is the position at which all
   elements were appended at once, and a refusal happened at an instant without room for them.
   */
  lemma {:induction false} InsertLinearizes<T>(run: seq<Sys<T>>, who: seq<Tid>, t: Tid, n: nat) returns (j: nat)
    requires Run(run, who) && n < |run| && t in run[n].pcs
    requires run[n].pcs[t].InsUnlock? || run[n].pcs[t].InsDone?
    ensures InsertExplained(run, who, t, run[n].pcs[t].c, run[n].pcs[t].ticket, j, n)
  {
    if who[n - 1] != t {
      OtherStepFrame(run, who, t, n);
      j := InsertLinearizes(run, who, t, n - 1);
    } else {
      InsertEndStep(run, who, t, n);
      if run[n - 1].pcs[t].InsUnlock? {
        j := InsertLinearizes(run, who, t, n - 1);
      } else if run[n - 1].pcs[t].InsWrite? {
        j := n - 1;
      } else {
        j := LoadedSeenHead(run, who, t, n - 1);
      }
    }
  }

  /** A waiting insert never reports a refusal. */
  lemma WaitingInsertSucceeds<T>(run: seq<Sys<T>>, who: seq<Tid>, t: Tid, n: nat)
    requires Run(run, who) && n + 1 < |run| && who[n] == t && t in run[n].pcs && t in run[n + 1].pcs
    requires run[n].pcs[t].InsUnlock? && run[n].pcs[t].wait && run[n + 1].pcs[t].InsDone?
    ensures run[n + 1].pcs[t].ticket.Some?
  {
    assert StepAt(run, who, n);
  }

  ghost predicate ConsumeAttempt<T>(s: Sys<T>, t: Tid) {
    && t in s.pcs
    && (s.pcs[t].ConLoadSeen? || s.pcs[t].ConClaim? || s.pcs[t].ConRead? || s.pcs[t].ConCommit?
        || s.pcs[t].ConUnlock? || s.pcs[t].ConDone?)
  }

  ghost predicate ConsumeExplained<T>(run: seq<Sys<T>>, who: seq<Tid>, t: Tid, r: Option<T>, at: nat, j: nat, n: nat)
    requires |run| == |who| + 1
  {
    && j < n < |run| && who[j] == t
    && (forall i {:trigger run[i]} | j < i <= n :: ConsumeAttempt(run[i], t))
    && match r
       case Some(v) => Abs(run[j]).Take(Abs(run[j + 1]), v) && at == Abs(run[j]).taken
       case None => Abs(run[j]).Empty()
  }

  /** Between a thread's load of the inserters' counter and its check, no other thread consumes. */
  lemma {:induction false} LoadedInsertHead<T>(run: seq<Sys<T>>, who: seq<Tid>, t: Tid, n: nat) returns (j: nat)
    requires Run(run, who) && n < |run| && t in run[n].pcs && run[n].pcs[t].ConLoadSeen?
    ensures j < n && who[j] == t && |run[j].log| == run[n].pcs[t].curInsert
    ensures run[j].seenCommitted == run[n].seenPending && run[j].seenCommitted <= |run[j].log|
    ensures forall i {:trigger run[i]} | j < i <= n :: ConsumeAttempt(run[i], t)
  {
    if who[n - 1] == t {
      LoadInsertStep(run, who, t, n);
      j := n - 1;
    } else {
      OtherStepFrame(run, who, t, n);
      j := LoadedInsertHead(run, who, t, n - 1);
    }
  }

  /**
   Linearizability of `consume`: a value is the oldest unread element, removed at one instant inside
   the call, and "nothing" is returned only if the queue was empty at an instant inside the call.
   */
  lemma {:induction false} ConsumeLinearizes<T>(run: seq<Sys<T>>, who: seq<Tid>, t: Tid, n: nat) returns (j: nat)
    requires Run(run, who) && n < |run| && t in run[n].pcs
    requires run[n].pcs[t].ConUnlock? || run[n].pcs[t].ConDone?
    ensures ConsumeExplained(run, who, t, run[n].pcs[t].result, run[n].pcs[t].at, j, n)
  {
    if who[n - 1] != t {
      OtherStepFrame(run, who, t, n);
      j := ConsumeLinearizes(run, who, t, n - 1);
    } else {
      ConsumeEndStep(run, who, t, n);
      if run[n - 1].pcs[t].ConUnlock? {
        j := ConsumeLinearizes(run, who, t, n - 1);
      } else if run[n - 1].pcs[t].ConCommit? {
        j := n - 1;
      } else {
        j := LoadedInsertHead(run, who, t, n - 1);
      }
    }
  }

  /** When `empty` reports true, all that was committed before the call has been consumed. */
  lemma EmptyMeansDrained<T>(run: seq<Sys<T>>, who: seq<Tid>, t: Tid, n: nat)
    requires Run(run, who) && n < |run| && t in run[n].pcs
    requires run[n].pcs[t].EmptyDone? && run[n].pcs[t].empty
    ensures run[n].pcs[t].before <= |run[n].taken|
  {
    RunKeepsInv(run, who, n);
    assert PcInv(run[n], t);
  }

  // ---------------------------------------------------------------- every call that does not wait comes back

  /** A thread is inside a call. */
  predicate Busy<T>(pc: Pc<T>) {
    !pc.Idle? && !pc.InsDone? && !pc.ConDone? && !pc.EmptyDone?
  }

  /** A thread is inside a call that waits for room or for an element. */
  predicate Waits<T>(pc: Pc<T>) {
    match pc
    case InsLock(_, w) => w
    case InsLoadSeen(_, w) => w
    case InsLoadPending(_, w, _) => w
    case InsClaim(_, w, _) => w
    case InsWrite(_, w, _, _) => w
    case InsUnlock(_, w, _) => w
    case ConLock(w) => w
    case ConLoadInsert(w) => w
    case ConLoadSeen(w, _) => w
    case ConClaim(w, _) => w
    case ConRead(w, _) => w
    case ConCommit(w, _, _) => w
    case ConUnlock(w, _, _) => w
    case _ => false
  }

  /** How many own steps are left at most. */
  function Rank<T>(pc: Pc<T>): int {
    match pc
    case InsLock(c, _) => |c.Items()| + 6
    case InsLoadSeen(c, _) => |c.Items()| + 5
    case InsLoadPending(c, _, _) => |c.Items()| + 4
    case InsClaim(c, _, _) => |c.Items()| + 3
    case InsWrite(c, _, _, off) => |c.Items()| - off + 2
    case InsUnlock(_, _, _) => 1
    case ConLock(_) => 7
    case ConLoadInsert(_) => 6
    case ConLoadSeen(_, _) => 5
    case ConClaim(_, _) => 4
    case ConRead(_, _) => 3
    case ConCommit(_, _, _) => 2
    case ConUnlock(_, _, _) => 1
    case EmptyCall(_) => 2
    case EmptyHasInsert(_, _) => 1
    case EmptyHasSeen(_, _) => 1
    case _ => 0
  }

  /**
   Each own step of a call comes closer to its end, but for a waiting call that has found no room or no
   element: exactly that one starts over.
   */
  lemma OwnStepLowers<T>(s: Sys<T>, s': Sys<T>, t: Tid)
    requires Inv(s) && ThreadStep(s, s', t) && Busy(s.pcs[t])
    ensures t in s'.pcs && 0 <= Rank(s'.pcs[t]) && 0 < Rank(s.pcs[t])
    ensures Busy(s'.pcs[t]) ==> Waits(s'.pcs[t]) == Waits(s.pcs[t])
    ensures !Busy(s'.pcs[t]) <==> Rank(s'.pcs[t]) == 0
    ensures match s.pcs[t]
            case InsUnlock(c, true, None) => s'.pcs[t] == InsLock(c, true)
            case ConUnlock(true, None, _) => s'.pcs[t] == ConLock(true)
            case _ => Rank(s'.pcs[t]) < Rank(s.pcs[t])
  {
    assert PcInv(s, t);
    if InsertStep(s, s', t) {
      InsertLowers(s, s', t);
    } else if ConsumeStep(s, s', t) {
      ConsumeLowers(s, s', t);
    } else {
      EmptyLowers(s, s', t);
    }
    hide *;
  }

  lemma InsertLowers<T>(s: Sys<T>, s': Sys<T>, t: Tid)
    requires |s.buffer| == s.size && t in s.pcs && PcInv(s, t) && InsertStep(s, s', t)
    ensures t in s'.pcs && 0 <= Rank(s'.pcs[t]) && 0 < Rank(s.pcs[t])
    ensures Busy(s'.pcs[t]) ==> Waits(s'.pcs[t]) == Waits(s.pcs[t])
    ensures !Busy(s'.pcs[t]) <==> Rank(s'.pcs[t]) == 0
    ensures match s.pcs[t]
            case InsUnlock(c, true, None) => s'.pcs[t] == InsLock(c, true)
            case ConUnlock(true, None, _) => false
            case _ => Rank(s'.pcs[t]) < Rank(s.pcs[t])
  {
  }

  lemma ConsumeLowers<T>(s: Sys<T>, s': Sys<T>, t: Tid)
    requires t in s.pcs && ConsumeStep(s, s', t)
    ensures t in s'.pcs && 0 <= Rank(s'.pcs[t]) && 0 < Rank(s.pcs[t])
    ensures Busy(s'.pcs[t]) ==> Waits(s'.pcs[t]) == Waits(s.pcs[t])
    ensures !Busy(s'.pcs[t]) <==> Rank(s'.pcs[t]) == 0
    ensures match s.pcs[t]
            case InsUnlock(_, true, None) => false
            case ConUnlock(true, None, _) => s'.pcs[t] == ConLock(true)
            case _ => Rank(s'.pcs[t]) < Rank(s.pcs[t])
  {
  }

  lemma EmptyLowers<T>(s: Sys<T>, s': Sys<T>, t: Tid)
    requires t in s.pcs && EmptyStep(s, s', t)
    ensures t in s'.pcs && 0 <= Rank(s'.pcs[t]) < Rank(s.pcs[t])
    ensures !Waits(s'.pcs[t]) && !Waits(s.pcs[t]) && !s.pcs[t].InsUnlock? && !s.pcs[t].ConUnlock?
    ensures !Busy(s'.pcs[t]) <==> Rank(s'.pcs[t]) == 0
  {
  }

  /** The steps thread `t` takes from `run[i]` to `run[n]`. */
  function OwnSteps(who: seq<Tid>, t: Tid, i: nat, n: nat): nat
    requires i <= n <= |who|
  {
    if i == n then 0 else OwnSteps(who, t, i, n - 1) + if who[n - 1] == t then 1 else 0
  }

  /** A call that does not wait takes no more own steps than its rank says, whatever other threads do. */
  lemma {:induction false} CallIsBounded<T>(run: seq<Sys<T>>, who: seq<Tid>, t: Tid, i: nat, n: nat)
    requires Run(run, who) && i <= n < |run|
    requires forall k {:trigger run[k]} | i <= k <= n :: t in run[k].pcs
    requires forall k {:trigger run[k]} | i <= k < n :: Busy(run[k].pcs[t])
    requires !Waits(run[i].pcs[t])
    ensures OwnSteps(who, t, i, n) + Rank(run[n].pcs[t]) <= Rank(run[i].pcs[t])
    ensures Busy(run[n].pcs[t]) ==> !Waits(run[n].pcs[t])
    decreases n - i
  {
    hide Rank, Waits, Inv, ThreadStep, Busy, Init;
    if i < n {
      CallIsBounded(run, who, t, i, n - 1);
      assert StepAt(run, who, n - 1);
      RunKeepsInv(run, who, n - 1);
      if who[n - 1] == t {
        OwnStepLowers(run[n - 1], run[n], t);
        WaitsIs(run[n - 1].pcs[t]);
      } else {
        OtherStepFrame(run, who, t, n);
      }
    }
  }

  lemma WaitsIs<T>(pc: Pc<T>)
    ensures pc.InsUnlock? || pc.ConUnlock? ==> pc.wait == Waits(pc)
  {
  }

  /** Only a held lock can keep a call from going on. */
  lemma CallGoesOn<T>(s: Sys<T>, t: Tid) returns (s': Sys<T>)
    requires Inv(s) && t in s.pcs && Busy(s.pcs[t])
    requires s.pcs[t].InsLock? ==> s.insOwner.None?
    requires s.pcs[t].ConLock? ==> s.seenOwner.None?
    ensures ThreadStep(s, s', t)
  {
    if HoldsInsert(s.pcs[t]) {
      NeverStuckInserting(s, t);
      s' :| InsertStep(s, s', t);
    } else if HoldsSeen(s.pcs[t]) {
      NeverStuckConsuming(s, t);
      s' :| ConsumeStep(s, s', t);
    } else {
      s' := match s.pcs[t]
        case InsLock(c, w) => s.(insOwner := Some(t)).To(t, InsLoadSeen(c, w))
        case ConLock(w) => s.(seenOwner := Some(t)).To(t, ConLoadInsert(w))
        case EmptyCall(b) => s.To(t, EmptyHasInsert(b, s.insCommitted))
        case EmptyHasInsert(b, ins) => s.To(t, EmptyDone(b, ins - s.seenCommitted == 0))
        case EmptyHasSeen(b, seen) => s.To(t, EmptyDone(b, s.insCommitted - seen == 0));
    }
  }

  /** A lock that is held has a holder inside its critical section. */
  ghost predicate LocksHeld<T>(s: Sys<T>) {
    && (s.insOwner.Some? ==> s.insOwner.value in s.pcs && HoldsInsert(s.pcs[s.insOwner.value]))
    && (s.seenOwner.Some? ==> s.seenOwner.value in s.pcs && HoldsSeen(s.pcs[s.seenOwner.value]))
  }

  lemma StepKeepsLocks<T>(s: Sys<T>, s': Sys<T>, t: Tid)
    requires Inv(s) && LocksHeld(s) && ThreadStep(s, s', t)
    ensures LocksHeld(s')
  {
    assert PcInv(s, t);
    if StartStep(s, s', t) || EmptyStep(s, s', t) {
      OtherKeepsLocks(s, s', t);
    } else if InsertStep(s, s', t) {
      InsertKeepsLocks(s, s', t);
    } else {
      ConsumeKeepsLocks(s, s', t);
    }
    hide *;
  }

  lemma OtherKeepsLocks<T>(s: Sys<T>, s': Sys<T>, t: Tid)
    requires LocksHeld(s) && t in s.pcs && (StartStep(s, s', t) || EmptyStep(s, s', t))
    ensures LocksHeld(s')
  {
  }

  lemma InsertKeepsLocks<T>(s: Sys<T>, s': Sys<T>, t: Tid)
    requires LocksHeld(s) && t in s.pcs && InsertStep(s, s', t)
    requires HoldsInsert(s.pcs[t]) ==> s.insOwner == Some(t)
    ensures LocksHeld(s')
  {
  }

  lemma ConsumeKeepsLocks<T>(s: Sys<T>, s': Sys<T>, t: Tid)
    requires LocksHeld(s) && t in s.pcs && ConsumeStep(s, s', t)
    requires HoldsSeen(s.pcs[t]) ==> s.seenOwner == Some(t)
    ensures LocksHeld(s')
  {
  }

  lemma {:induction false} RunKeepsLocks<T>(run: seq<Sys<T>>, who: seq<Tid>, n: nat)
    requires Run(run, who) && n < |run|
    ensures LocksHeld(run[n])
  {
    hide Inv, ThreadStep, LocksHeld;
    if n == 0 {
      NoLocksYet(run[0]);
    } else {
      RunKeepsLocks(run, who, n - 1);
      assert StepAt(run, who, n - 1);
      RunKeepsInv(run, who, n - 1);
      StepKeepsLocks(run[n - 1], run[n], who[n - 1]);
    }
  }

  lemma NoLocksYet<T>(s: Sys<T>)
    requires Init(s)
    ensures LocksHeld(s)
  {
  }

  /** No deadlock: in every state of every run a thread inside a call, or the holder of the lock it needs, can go on. */
  lemma NoDeadlock<T>(run: seq<Sys<T>>, who: seq<Tid>, n: nat, t: Tid) returns (u: Tid, s': Sys<T>)
    requires Run(run, who) && n < |run| && t in run[n].pcs && Busy(run[n].pcs[t])
    ensures ThreadStep(run[n], s', u) && Busy(run[n].pcs[u])
    ensures u == t || (run[n].pcs[t].InsLock? && run[n].insOwner == Some(u))
                   || (run[n].pcs[t].ConLock? && run[n].seenOwner == Some(u))
  {
    var s := run[n];
    RunKeepsInv(run, who, n);
    RunKeepsLocks(run, who, n);
    u := if s.pcs[t].InsLock? && s.insOwner.Some? then s.insOwner.value
         else if s.pcs[t].ConLock? && s.seenOwner.Some? then s.seenOwner.value
         else t;
    s' := CallGoesOn(s, u);
  }

  // ---------------------------------------------------------------- calls that nobody interrupts

  ghost predicate OwnStepAt<T>(run: seq<Sys<T>>, t: Tid, i: nat)
    requires i + 1 < |run|
  {
    t in run[i].pcs && Busy(run[i].pcs[t]) && ThreadStep(run[i], run[i + 1], t)
  }

  /** Thread `t` alone takes steps, all inside one call. */
  ghost predicate Alone<T>(run: seq<Sys<T>>, t: Tid) {
    |run| >= 1 && forall i {:trigger OwnStepAt(run, t, i)} | 0 <= i < |run| - 1 :: OwnStepAt(run, t, i)
  }

  lemma AlonePrefix<T>(run: seq<Sys<T>>, t: Tid)
    requires Alone(run, t) && |run| >= 2
    ensures Alone(run[..|run| - 1], t) && OwnStepAt(run, t, |run| - 2)
  {
    hide ThreadStep, Busy;
    var r := run[..|run| - 1];
    forall i {:trigger OwnStepAt(r, t, i)} | 0 <= i < |r| - 1 ensures OwnStepAt(r, t, i) {
      assert OwnStepAt(run, t, i);
    }
  }

  /** What an insert that nobody interrupts answers: its ticket, or nothing exactly if there is no room. */
  ghost function InsertAnswer<T>(f: Fifo<T>, c: Call<T>): Option<nat> {
    if f.NoRoom(|c.Items()|) then None else Some(|f.log|)
  }

  ghost function ConsumeAnswer<T>(f: Fifo<T>): Option<T>
    requires f.taken <= |f.log|
  {
    if f.Empty() then None else Some(f.log[f.taken])
  }

  /** Where an insert that started alone in `f` is, and what it has found out. */
  ghost predicate InsertingAlone<T>(s: Sys<T>, t: Tid, f: Fifo<T>, c: Call<T>, w: bool) {
    && t in s.pcs
    && match s.pcs[t]
       case InsLock(c', w') => c' == c && w' == w && Abs(s) == f && s.insOwner.None?
       case InsLoadSeen(c', w') => c' == c && w' == w && Abs(s) == f
       case InsLoadPending(c', w', seenHead) => c' == c && w' == w && Abs(s) == f && seenHead == f.taken
       case InsClaim(c', w', cur) => c' == c && w' == w && Abs(s) == f && InsertAnswer(f, c) == Some(cur)
       case InsWrite(c', w', cur, _) => c' == c && w' == w && Abs(s) == f && InsertAnswer(f, c) == Some(cur)
       case InsUnlock(c', w', ticket) =>
         c' == c && w' == w && ticket == InsertAnswer(f, c) && (ticket == None ==> Abs(s) == f)
       case InsDone(c', ticket) => c' == c && ticket == InsertAnswer(f, c) && (w ==> ticket.Some?)
       case _ => false
  }

  lemma InsertsAlone<T>(s: Sys<T>, s': Sys<T>, t: Tid, f: Fifo<T>, c: Call<T>, w: bool)
    requires Inv(s) && InsertingAlone(s, t, f, c, w) && Busy(s.pcs[t]) && ThreadStep(s, s', t)
    ensures Inv(s') && InsertingAlone(s', t, f, c, w)
  {
    assert PcInv(s, t);
    StepKeepsInv(s, s', t);
    OnlyInserts(s, s', t);
    hide Inv, PcInv, Shared, ThreadStep, InsertStep, InsertingAlone;
    InsertsOn(s, s', t, f, c, w);
  }

  lemma OnlyInserts<T>(s: Sys<T>, s': Sys<T>, t: Tid)
    requires Inv(s) && ThreadStep(s, s', t) && (s.pcs[t].InsLock? || HoldsInsert(s.pcs[t]))
    ensures InsertStep(s, s', t) && s.seenCommitted <= s.insCommitted == |s.log| && PcInv(s, t)
  {
    hide PcInv, InsertStep;
  }

  lemma InsertsOn<T>(s: Sys<T>, s': Sys<T>, t: Tid, f: Fifo<T>, c: Call<T>, w: bool)
    requires InsertingAlone(s, t, f, c, w) && Busy(s.pcs[t]) && InsertStep(s, s', t)
    requires |s.buffer| == s.size && s.seenCommitted <= s.insCommitted == |s.log| && PcInv(s, t)
    ensures InsertingAlone(s', t, f, c, w)
  {
    hide Holds, LoggedAt;
  }

  /**
   An insert that nobody interrupts answers with its ticket, or with nothing exactly if there is no room; a
   waiting one without room never answers.
   */
  lemma {:induction false} InsertAlone<T>(run: seq<Sys<T>>, t: Tid, c: Call<T>, w: bool)
    requires Alone(run, t) && Inv(run[0]) && t in run[0].pcs && run[0].pcs[t] == InsLock(c, w)
    requires run[0].insOwner.None?
    ensures var s, f := run[|run| - 1], Abs(run[0]);
            && Inv(s) && InsertingAlone(s, t, f, c, w)
            && (Busy(s.pcs[t]) || (s.pcs[t] == InsDone(c, InsertAnswer(f, c)) && !(w && f.NoRoom(|c.Items()|))))
    decreases |run|
  {
    assert |run| >= 1;
    InsertStarts(run[0], t, c, w);
    hide Inv, ThreadStep, InsertingAlone, Busy, InsertAnswer, Alone;
    var n := |run| - 1;
    if n > 0 {
      AlonePrefix(run, t);
      InsertAlone(run[..n], t, c, w);
      assert run[..n][n - 1] == run[n - 1];
      InsertsAlone(run[n - 1], run[n], t, Abs(run[0]), c, w);
    }
    InsertEnds(run[n], t, Abs(run[0]), c, w);
  }

  lemma InsertStarts<T>(s: Sys<T>, t: Tid, c: Call<T>, w: bool)
    requires t in s.pcs && s.pcs[t] == InsLock(c, w) && s.insOwner.None?
    ensures InsertingAlone(s, t, Abs(s), c, w)
  {
  }

  lemma InsertEnds<T>(s: Sys<T>, t: Tid, f: Fifo<T>, c: Call<T>, w: bool)
    requires InsertingAlone(s, t, f, c, w)
    ensures Busy(s.pcs[t]) || (s.pcs[t] == InsDone(c, InsertAnswer(f, c)) && !(w && f.NoRoom(|c.Items()|)))
  {
  }

  /** Where a consume that started alone in `f` is. */
  ghost predicate ConsumingAlone<T>(s: Sys<T>, t: Tid, f: Fifo<T>, w: bool) {
    && t in s.pcs && f.taken <= |f.log|
    && match s.pcs[t]
       case ConLock(w') => w' == w && Abs(s) == f && s.seenOwner.None?
       case ConLoadInsert(w') => w' == w && Abs(s) == f
       case ConLoadSeen(w', curInsert) => w' == w && Abs(s) == f && curInsert == |f.log|
       case ConClaim(w', _) => w' == w && Abs(s) == f && !f.Empty()
       case ConRead(w', _) => w' == w && Abs(s) == f && !f.Empty()
       case ConCommit(w', _, val) => w' == w && Abs(s) == f && ConsumeAnswer(f) == Some(val)
       case ConUnlock(w', r, _) => w' == w && r == ConsumeAnswer(f) && (r == None ==> Abs(s) == f)
       case ConDone(r, _) => r == ConsumeAnswer(f) && (w ==> r.Some?)
       case _ => false
  }

  lemma ConsumesAlone<T>(s: Sys<T>, s': Sys<T>, t: Tid, f: Fifo<T>, w: bool)
    requires Inv(s) && ConsumingAlone(s, t, f, w) && Busy(s.pcs[t]) && ThreadStep(s, s', t)
    ensures Inv(s') && ConsumingAlone(s', t, f, w)
  {
    assert PcInv(s, t);
    StepKeepsInv(s, s', t);
    OnlyConsumes(s, s', t);
    hide Inv, PcInv, Shared, ThreadStep, ConsumeStep, ConsumingAlone;
    ConsumesOn(s, s', t, f, w);
  }

  lemma OnlyConsumes<T>(s: Sys<T>, s': Sys<T>, t: Tid)
    requires Inv(s) && ThreadStep(s, s', t) && (s.pcs[t].ConLock? || HoldsSeen(s.pcs[t]))
    ensures ConsumeStep(s, s', t) && s.insCommitted == |s.log| && PcInv(s, t)
    ensures s'.pcs[t].ConCommit? ==> s'.pcs[t].cur == s.seenCommitted && s'.pcs[t].val == s.log[s.seenCommitted]
  {
    StepKeepsInv(s, s', t);
    assert s'.pcs[t].ConCommit? ==> PcInv(s', t);
    hide PcInv;
    assert ConsumeStep(s, s', t);
    StepReads(s, s', t);
  }

  lemma StepReads<T>(s: Sys<T>, s': Sys<T>, t: Tid)
    requires Inv(s) && Inv(s') && t in s.pcs && ConsumeStep(s, s', t)
    ensures t in s'.pcs
    ensures s'.pcs[t].ConCommit? ==>
              |s.log| > s.seenCommitted == s'.pcs[t].cur && s'.pcs[t].val == s.log[s.seenCommitted]
  {
    assert PcInv(s, t) && PcInv(s', t);
  }

  lemma ConsumesOn<T>(s: Sys<T>, s': Sys<T>, t: Tid, f: Fifo<T>, w: bool)
    requires ConsumingAlone(s, t, f, w) && Busy(s.pcs[t]) && ConsumeStep(s, s', t)
    requires |s.buffer| == s.size && s.insCommitted == |s.log| && PcInv(s, t)
    requires s'.pcs[t].ConCommit? ==> |s.log| > s.seenCommitted && s'.pcs[t].val == s.log[s.seenCommitted]
    ensures ConsumingAlone(s', t, f, w)
  {
  }

  /** A consume that nobody interrupts answers with the oldest unread element, or with nothing if there is none. */
  lemma {:induction false} ConsumeAlone<T>(run: seq<Sys<T>>, t: Tid, w: bool)
    requires Alone(run, t) && Inv(run[0]) && t in run[0].pcs && run[0].pcs[t] == ConLock(w)
    requires run[0].seenOwner.None?
    ensures var s, f := run[|run| - 1], Abs(run[0]);
            && Inv(s) && ConsumingAlone(s, t, f, w)
            && (Busy(s.pcs[t])
                || (s.pcs[t].ConDone? && s.pcs[t].result == ConsumeAnswer(f) && !(w && f.Empty())))
    decreases |run|
  {
    assert |run| >= 1;
    ConsumeStarts(run[0], t, w);
    hide Inv, ThreadStep, ConsumingAlone, Busy, ConsumeAnswer, Alone;
    var n := |run| - 1;
    if n > 0 {
      AlonePrefix(run, t);
      ConsumeAlone(run[..n], t, w);
      assert run[..n][n - 1] == run[n - 1];
      ConsumesAlone(run[n - 1], run[n], t, Abs(run[0]), w);
    }
    ConsumeEnds(run[n], t, Abs(run[0]), w);
  }

  lemma ConsumeStarts<T>(s: Sys<T>, t: Tid, w: bool)
    requires Inv(s) && t in s.pcs && s.pcs[t] == ConLock(w) && s.seenOwner.None?
    ensures Abs(s).taken <= |Abs(s).log| && ConsumingAlone(s, t, Abs(s), w)
  {
  }

  lemma ConsumeEnds<T>(s: Sys<T>, t: Tid, f: Fifo<T>, w: bool)
    requires ConsumingAlone(s, t, f, w)
    ensures Busy(s.pcs[t]) || (s.pcs[t].ConDone? && s.pcs[t].result == ConsumeAnswer(f) && !(w && f.Empty()))
  {
  }

  /** A thread that is inside its lock, or finds it free, can run its call to the end alone, if it does not wait. */
  lemma {:induction false} RunsToEnd<T>(s: Sys<T>, t: Tid) returns (run: seq<Sys<T>>)
    requires Inv(s) && t in s.pcs && !Waits(s.pcs[t])
    requires s.pcs[t].InsLock? ==> s.insOwner.None?
    requires s.pcs[t].ConLock? ==> s.seenOwner.None?
    ensures Alone(run, t) && run[0] == s
    ensures t in run[|run| - 1].pcs && !Busy(run[|run| - 1].pcs[t])
    decreases Rank(s.pcs[t])
  {
    if !Busy(s.pcs[t]) {
      run := [s];
    } else {
      var s' := CallGoesOn(s, t);
      OwnStepLowers(s, s', t);
      StepKeepsInv(s, s', t);
      NotBack(s, s', t);
      var rest := RunsToEnd(s', t);
      hide *;
      run := AloneCons(s, rest, t);
    }
  }

  lemma NotBack<T>(s: Sys<T>, s': Sys<T>, t: Tid)
    requires Inv(s) && ThreadStep(s, s', t) && Busy(s.pcs[t]) && !Waits(s.pcs[t])
    ensures t in s'.pcs && !s'.pcs[t].InsLock? && !s'.pcs[t].ConLock? && !Waits(s'.pcs[t])
    ensures Rank(s'.pcs[t]) < Rank(s.pcs[t])
  {
    OwnStepLowers(s, s', t);
    WaitsIs(s.pcs[t]);
    NotAtLock(s, s', t);
    hide *;
  }

  lemma NotAtLock<T>(s: Sys<T>, s': Sys<T>, t: Tid)
    requires ThreadStep(s, s', t) && Busy(s.pcs[t]) && !Waits(s.pcs[t])
    ensures t in s'.pcs && !s'.pcs[t].InsLock? && !s'.pcs[t].ConLock? && !Waits(s'.pcs[t])
    ensures !(s.pcs[t].InsUnlock? && s.pcs[t].wait) && !(s.pcs[t].ConUnlock? && s.pcs[t].wait)
  {
  }

  lemma AloneCons<T>(s: Sys<T>, rest: seq<Sys<T>>, t: Tid) returns (run: seq<Sys<T>>)
    requires Alone(rest, t) && t in s.pcs && Busy(s.pcs[t]) && ThreadStep(s, rest[0], t)
    ensures Alone(run, t) && run[0] == s && run[|run| - 1] == rest[|rest| - 1]
  {
    hide ThreadStep, Busy;
    run := [s] + rest;
    forall i {:trigger OwnStepAt(run, t, i)} | 0 <= i < |run| - 1 ensures OwnStepAt(run, t, i) {
      assert i > 0 ==> OwnStepAt(rest, t, i - 1);
    }
  }

  /**
   A refusal comes back: an insert that does not wait and finds its lock free and no room ends, alone, with
   nothing inserted and no ticket; and a consume ends with nothing if there is nothing.
   */
  lemma RefusalComesBack<T>(s: Sys<T>, t: Tid) returns (run: seq<Sys<T>>)
    requires Inv(s) && t in s.pcs
    requires match s.pcs[t]
             case InsLock(c, w) => !w && s.insOwner.None? && Abs(s).NoRoom(|c.Items()|)
             case ConLock(w) => !w && s.seenOwner.None? && Abs(s).Empty()
             case _ => false
    ensures Alone(run, t) && run[0] == s && t in run[|run| - 1].pcs
    ensures s.pcs[t].InsLock? ==> run[|run| - 1].pcs[t] == InsDone(s.pcs[t].c, None)
    ensures s.pcs[t].ConLock? ==> run[|run| - 1].pcs[t].ConDone? && run[|run| - 1].pcs[t].result == None
  {
    run := RunsToEnd(s, t);
    hide Inv, Alone;
    match s.pcs[t] {
      case InsLock(c, w) => InsertAlone(run, t, c, w);
      case ConLock(w) => ConsumeAlone(run, t, w);
    }
  }

  // ---------------------------------------------------------------- what `empty` answers

  lemma EmptyOwnStep<T>(run: seq<Sys<T>>, who: seq<Tid>, t: Tid, n: nat)
    requires Run(run, who) && 0 < n < |run| && who[n - 1] == t && t in run[n].pcs
    ensures t in run[n - 1].pcs
    ensures run[n].pcs[t].EmptyHasInsert? ==> run[n].pcs[t].ins == run[n - 1].insCommitted
    ensures run[n].pcs[t].EmptyHasSeen? ==> run[n].pcs[t].seen == run[n - 1].seenCommitted
    ensures run[n].pcs[t].EmptyDone? ==>
              match run[n - 1].pcs[t]
              case EmptyHasInsert(_, ins) => run[n].pcs[t].empty == (ins == run[n - 1].seenCommitted)
              case EmptyHasSeen(_, seen) => run[n].pcs[t].empty == (seen == run[n - 1].insCommitted)
              case _ => false
  {
    assert StepAt(run, who, n - 1);
  }

  /** Where the value came from that a thread inside `empty` has loaded. */
  lemma {:induction false} EmptyLoaded<T>(run: seq<Sys<T>>, who: seq<Tid>, t: Tid, n: nat) returns (j: nat)
    requires Run(run, who) && n < |run| && t in run[n].pcs
    requires run[n].pcs[t].EmptyHasInsert? || run[n].pcs[t].EmptyHasSeen?
    ensures j < n && who[j] == t
    ensures run[n].pcs[t].EmptyHasInsert? ==> run[n].pcs[t].ins == run[j].insCommitted
    ensures run[n].pcs[t].EmptyHasSeen? ==> run[n].pcs[t].seen == run[j].seenCommitted
    ensures forall i {:trigger run[i]} | j < i <= n :: t in run[i].pcs && run[i].pcs[t] == run[n].pcs[t]
  {
    if who[n - 1] == t {
      EmptyOwnStep(run, who, t, n);
      j := n - 1;
    } else {
      OtherStepFrame(run, who, t, n);
      j := EmptyLoaded(run, who, t, n - 1);
    }
  }

  /**
   `empty` answers true exactly if the inserters' counter at one of its two loads equals the consumers' counter
   at the other; so the answer is exact if nobody commits or consumes in between.
   */
  lemma {:induction false} EmptyExplained<T>(run: seq<Sys<T>>, who: seq<Tid>, t: Tid, n: nat)
      returns (i: nat, j: nat)
    requires Run(run, who) && n < |run| && t in run[n].pcs && run[n].pcs[t].EmptyDone?
    ensures i < n && j < n && i != j && who[i] == t && who[j] == t
    ensures run[n].pcs[t].empty <==> run[i].insCommitted == run[j].seenCommitted
    ensures Abs(run[i]) == Abs(run[j]) ==> (run[n].pcs[t].empty <==> Abs(run[i]).Empty())
  {
    if who[n - 1] != t {
      OtherStepFrame(run, who, t, n);
      i, j := EmptyExplained(run, who, t, n - 1);
    } else {
      EmptyOwnStep(run, who, t, n);
      var k := EmptyLoaded(run, who, t, n - 1);
      RunKeepsInv(run, who, k);
      RunKeepsInv(run, who, n - 1);
      if run[n - 1].pcs[t].EmptyHasInsert? {
        i, j := k, n - 1;
      } else {
        i, j := n - 1, k;
      }
    }
  }
}
