/**
 The socket on top of `poll` (`src/network/poll_socket.cpp`). What `poll`, the socket calls and the clock
 answer is left open.
 */
module PollSocket {
  import opened Wrappers
  import opened Kernel
  import opened Sequences

  datatype Event = Read | Write

  /** `inOut`: POLLIN or POLLOUT is set; `error`: POLLERR, POLLHUP or POLLNVAL is. */
  datatype PollFd = PollFd(fd: int, events: Event, inOut: bool, error: bool)

  /** What a request's length is after it was answered, by what was found and the length asked for. */
  predicate Answered(p: PollFd, asked: int, result: int) {
    if p.inOut then result <= Max(asked, 0)
    else if p.error then result <= 0
    else result == -ETIMEDOUT
  }

  class Request {
    const event: Event
    /** The number of bytes asked for, and then the result. */
    var length: int
  }

  /** `deadline` is `None` for a request without time-out. */
  datatype RequestInfo = RequestInfo(request: Request, deadline: Option<int>, flags: int)

  predicate Expired(info: RequestInfo, now: int) {
    info.deadline.Some? && info.deadline.value < now
  }

  /** Whether the scan takes this entry out. */
  predicate Done(p: PollFd, m: map<int, RequestInfo>, now: int) {
    p.inOut || p.error || (p.fd in m && Expired(m[p.fd], now))
  }

  /** The entries that stay, the requests that become ready, and the descriptors that go, in order. */
  function Kept(s: seq<PollFd>, m: map<int, RequestInfo>, now: int): seq<PollFd> {
    if s == [] then []
    else
      var p := s[|s| - 1];
      Kept(s[..|s| - 1], m, now) + if Done(p, m, now) then [] else [p]
  }

  function Completed(s: seq<PollFd>, m: map<int, RequestInfo>, now: int): seq<Request>
    requires Known(s, m)
  {
    if s == [] then []
    else
      var p := s[|s| - 1];
      assert p in s;
      Completed(s[..|s| - 1], m, now) + if Done(p, m, now) then [m[p.fd].request] else []
  }

  ghost function Gone(s: seq<PollFd>, m: map<int, RequestInfo>, now: int): set<int> {
    set i | 0 <= i < |s| && Done(s[i], m, now) :: s[i].fd
  }

  /** Every polled descriptor has a request. */
  ghost predicate Known(s: seq<PollFd>, m: map<int, RequestInfo>) {
    forall p | p in s :: p.fd in m
  }

  /** Some descriptor is polled twice, and the first of the two entries is taken out. */
  ghost predicate Conflict(s: seq<PollFd>, m: map<int, RequestInfo>, now: int) {
    exists i, j :: 0 <= i < j < |s| && s[i].fd == s[j].fd && Done(s[i], m, now)
  }

  ghost predicate DistinctFds(s: seq<PollFd>) {
    forall i, j | 0 <= i < j < |s| :: s[i].fd != s[j].fd
  }

  /** The requests the entries stand for. */
  ghost function Pending(s: seq<PollFd>, m: map<int, RequestInfo>): multiset<Request>
    requires Known(s, m)
  {
    if s == [] then multiset{}
    else
      var p := s[|s| - 1];
      assert p in s;
      Pending(s[..|s| - 1], m) + multiset{m[p.fd].request}
  }

  class Socket {
    var ready: seq<Request>
    var fdToRequest: map<int, RequestInfo>
    var pollfds: seq<PollFd>
    var readyFds: int
    var submitted: nat
    /** All requests ever enqueued and returned, and the sum of all results of `submit`. */
    ghost var enqueued: multiset<Request>
    ghost var returned: multiset<Request>
    ghost var counted: nat

    /** At most one request per descriptor waits; the vector and the map hold the same descriptors. */
    ghost predicate Paired()
      reads this`pollfds, this`fdToRequest
    {
      DistinctFds(pollfds) && Known(pollfds, fdToRequest)
         && forall fd | fd in fdToRequest :: exists p :: p in pollfds && p.fd == fd
    }

    /** No request is lost or made up, and the results of `submit` count them all. */
    ghost predicate Conserved()
      reads this
      requires Known(pollfds, fdToRequest)
    {
      && enqueued == Pending(pollfds, fdToRequest) + multiset(ready) + returned
      && counted + submitted == |enqueued|
    }

    ghost predicate Inv()
      reads this
    {
      Paired() && Conserved()
    }

    constructor ()
      ensures Inv() && ready == [] && pollfds == [] && enqueued == multiset{}
    {
      ready, fdToRequest, pollfds, readyFds, submitted := [], map[], [], 0, 0;
      enqueued, returned, counted := multiset{}, multiset{}, 0;
    }

    /** The invariant survives exactly if the descriptor has no request waiting. */
    method Enqueue(fd: int, events: Event, req: RequestInfo)
      requires Inv()
      modifies this`pollfds, this`fdToRequest, this`submitted, this`enqueued
      ensures Inv() <==> fd !in old(fdToRequest)
      ensures enqueued == old(enqueued) + multiset{req.request} && submitted == old(submitted) + 1
      ensures pollfds == old(pollfds) + [PollFd(fd, events, false, false)]
      ensures fdToRequest == if fd in old(fdToRequest) then old(fdToRequest) else old(fdToRequest)[fd := req]
    {
      hide DistinctFds, Known, Pending;
      EnqueueIs(pollfds, fdToRequest, fd, events, req);
      pollfds := pollfds + [PollFd(fd, events, false, false)];
      if fd !in fdToRequest {
        fdToRequest := fdToRequest[fd := req];
      }
      submitted := submitted + 1;
      enqueued := enqueued + multiset{req.request};
    }

    /** What `poll` has counted is there to be found. */
    ghost predicate Polled()
      reads this`pollfds, this`readyFds
    {
      readyFds > 0 ==> exists p :: p in pollfds && (p.inOut || p.error)
    }

    /**
     `poll` marks the entries and counts the marked ones, or fails. It finds nothing if nothing happens
     (`silent`), and something if it is sure to happen and there is anything to poll.
     */
    method Poll(silent: bool, sure: bool)
      requires Inv()
      modifies this`pollfds, this`readyFds
      ensures Inv() && |pollfds| == |old(pollfds)| && Polled()
      ensures forall i | 0 <= i < |pollfds| ::
            pollfds[i].fd == old(pollfds)[i].fd && pollfds[i].events == old(pollfds)[i].events
      ensures silent ==> readyFds <= 0
      ensures !silent && sure && pollfds != [] ==> readyFds > 0
    {
      hide DistinctFds, Known, Pending;
      var fails := *;
      if silent || (fails && !sure) {
        readyFds := if fails then -1 else 0;
        return;
      }
      var marked;
      marked, readyFds := Mark(pollfds, sure);
      SameFds(pollfds, marked, fdToRequest);
      pollfds := marked;
    }

    /** What the kernel finds is open; it counts the entries for which it found anything. */
    static method Mark(fds: seq<PollFd>, sure: bool) returns (marked: seq<PollFd>, found: int)
      ensures |marked| == |fds| && forall i | 0 <= i < |fds| ::
            marked[i].fd == fds[i].fd && marked[i].events == fds[i].events
      ensures found >= 0 && (found > 0 ==> exists p :: p in marked && (p.inOut || p.error))
      ensures sure && fds != [] ==> found > 0
    {
      marked, found := [], 0;
      for i := 0 to |fds|
        invariant |marked| == i && forall k | 0 <= k < i ::
              marked[k].fd == fds[k].fd && marked[k].events == fds[k].events
        invariant found >= 0 && (found > 0 ==> exists p :: p in marked && (p.inOut || p.error))
        invariant sure && i > 0 ==> found > 0
      {
        var inOut, error := *, *;
        if sure && i == 0 && !error {
          inOut := true;
        }
        var p := fds[i].(inOut := inOut, error := error);
        assert p in marked + [p] && forall q | q in marked :: q in marked + [p];
        marked := marked + [p];
        if inOut || error {
          found := found + 1;
        }
      }
    }

    /** The requests that wait, whose results a scan may write. */
    ghost function Requests(): set<Request>
      reads this`fdToRequest
    {
      set fd | fd in fdToRequest :: fdToRequest[fd].request
    }

    /**
     The scan of `complete` over the polled entries, erasing as it goes. It misses a request, which the
     source answers with an exception, exactly if a descriptor is polled twice and its first entry is
     taken out; otherwise it moves each request that is done to `ready`, in order, and leaves the others.
     */
    method Scan(now: int) returns (threw: bool)
      requires Known(pollfds, fdToRequest)
      modifies this`ready, this`pollfds, this`fdToRequest, Requests()`length
      ensures threw <==> Conflict(old(pollfds), old(fdToRequest), now)
      ensures !threw ==>
                && pollfds == Kept(old(pollfds), old(fdToRequest), now)
                && ready == old(ready) + Completed(old(pollfds), old(fdToRequest), now)
                && fdToRequest == old(fdToRequest) - Gone(old(pollfds), old(fdToRequest), now)
    {
      ghost var all, m := pollfds, fdToRequest;
      ghost var at := 0;
      var pit := 0;
      hide *;
      ScanStart(all, m, now, ready);
      while pit < |pollfds|
        invariant at <= |all| && pit == Cursor(all, m, now, at) && pollfds == FdsAt(all, m, now, at)
        invariant Known(all, m) && ready == ReadyAt(all, m, now, at, old(ready))
            && fdToRequest == MapAt(all, m, now, at)
        invariant !ConflictBefore(all, m, now, at)
        decreases |all| - at
      {
        ScanStep(all, m, now, at, old(ready));
        var p := pollfds[pit];
        if p.fd !in fdToRequest {
          return true;
        }
        RequestsAre(p.fd);
        var taken := TakeIfDone(pit, now);
        if !taken {
          pit := pit + 1;
        }
        at := at + 1;
      }
      ScanEnd(all, m, now, at, old(ready));
      threw := false;
    }

    /**
     `complete`: hands out the last of the ready requests, polling and scanning until there is one. So many
     polls may find nothing; then something happens, unless nothing ever does (`silent`). If there is anything
     to wait for, the caller gets a request; but time-outs are looked at only after a poll has found an event,
     so where nothing happens no request comes back, whatever its deadline. With one request per descriptor the
     exception cannot happen, and nothing is lost.
     */
    method Complete(patience: nat, silent: bool) returns (threw: bool, r: Option<Request>)
      requires Inv()
      modifies this`ready, this`pollfds, this`fdToRequest, this`readyFds, this`returned, Requests()`length
      ensures Inv() && !threw && fdToRequest.Keys <= old(fdToRequest.Keys)
      ensures returned == old(returned) + if r.Some? then multiset{r.value} else multiset{}
      ensures old(ready) != [] ==> r.Some? && old(ready) == ready + [r.value] && pollfds == old(pollfds)
      ensures r.None? ==> ready == []
      ensures !silent && old(pollfds) != [] && old(Polled()) ==> r.Some?
      ensures silent && old(ready) == [] && old(readyFds) <= 0 ==>
                r.None? && |pollfds| == old(|pollfds|) && fdToRequest == old(fdToRequest)
    {
      hide *;
      threw := Await(patience, silent);
      if ready == [] {
        r := None;
      } else {
        r := Pop();
      }
    }

    method Pop() returns (r: Option<Request>)
      requires Inv() && ready != []
      modifies this`ready, this`returned
      ensures Inv() && r.Some? && returned == old(returned) + multiset{r.value} && old(ready) == ready + [r.value]
    {
      hide DistinctFds, Known, Pending;
      var req := ready[|ready| - 1];
      assert ready == ready[..|ready| - 1] + [req];
      ready := ready[..|ready| - 1];
      returned := returned + multiset{req};
      r := Some(req);
    }

    /** The loop of `complete`. */
    method Await(patience: nat, silent: bool) returns (threw: bool)
      requires Inv()
      modifies this`ready, this`pollfds, this`fdToRequest, this`readyFds, Requests()`length
      ensures Inv() && !threw && fdToRequest.Keys <= old(fdToRequest.Keys)
      ensures old(ready) != [] ==> ready == old(ready) && pollfds == old(pollfds)
      ensures !silent && old(pollfds) != [] && old(Polled()) ==> ready != []
      ensures silent && old(ready) == [] && old(readyFds) <= 0 ==>
                ready == [] && |pollfds| == old(|pollfds|) && fdToRequest == old(fdToRequest)
    {
      hide *;
      var left := patience;
      threw := false;
      while ready == []
        invariant Inv() && !threw && fdToRequest.Keys <= old(fdToRequest.Keys) && Requests() <= old(Requests())
        invariant old(ready) != [] ==> ready == old(ready) && pollfds == old(pollfds)
        invariant !silent && old(pollfds) != [] && old(Polled()) ==> ready != [] || (pollfds != [] && Polled())
        invariant silent && old(ready) == [] && old(readyFds) <= 0 ==>
                    ready == [] && readyFds <= 0 && |pollfds| == old(|pollfds|) && fdToRequest == old(fdToRequest)
        decreases left, if ready == [] then 1 else 0
      {
        if readyFds <= 0 {
          Poll(silent, left == 0);
          if readyFds <= 0 {
            if left == 0 {
              return;
            }
            left := left - 1;
            continue;
          }
        }
        var now: int := *;
        if Polled() {
          MarkedAreDone(now);
        }
        threw := ScanAll(now);
        if ready == [] {
          if left == 0 {
            return;
          }
          left := left - 1;
        }
      }
    }

    lemma MarkedAreDone(now: int)
      requires Inv() && Polled() && readyFds > 0
      ensures Completed(pollfds, fdToRequest, now) != []
    {
      var p :| p in pollfds && (p.inOut || p.error);
      DoneIsCompleted(pollfds, fdToRequest, now, p);
    }

    /** A scan keeps the pairing and moves requests from the waiting to the ready ones, losing none. */
    method ScanAll(now: int) returns (threw: bool)
      requires Inv()
      modifies this`ready, this`pollfds, this`fdToRequest, Requests()`length
      ensures Inv() && !threw && fdToRequest.Keys <= old(fdToRequest.Keys) && Requests() <= old(Requests())
      ensures pollfds == Kept(old(pollfds), old(fdToRequest), now)
      ensures ready == old(ready) + Completed(old(pollfds), old(fdToRequest), now)
    {
      hide Kept, Completed, Gone, Conflict, Done, DistinctFds, Pending, Known;
      ScanKeeps(pollfds, fdToRequest, now);
      threw := Scan(now);
    }

    twostate lemma RequestsAre(fd: int)
      requires fd in fdToRequest && fd in old(fdToRequest) && fdToRequest[fd] == old(fdToRequest[fd])
      ensures fdToRequest[fd].request in old(Requests())
    {
    }

    /** One turn of that loop: answers the request and takes its entry out, if anything happened to it. */
    method TakeIfDone(pit: nat, now: int) returns (taken: bool)
      requires pit < |pollfds| && pollfds[pit].fd in fdToRequest
      modifies this`ready, this`pollfds, this`fdToRequest, fdToRequest[pollfds[pit].fd].request`length
      ensures var p := old(pollfds[pit]);
              && taken == Done(p, old(fdToRequest), now)
              && ready == (if taken then old(ready) + [old(fdToRequest[p.fd].request)] else old(ready))
              && fdToRequest == (if taken then old(fdToRequest) - {p.fd} else old(fdToRequest))
              && pollfds == (if taken then RemoveAt(old(pollfds), pit) else old(pollfds))
              && var r := old(fdToRequest[p.fd].request);
                 if taken then Answered(p, old(r.length), r.length) else r.length == old(r.length)
    {
      var p := pollfds[pit];
      var req := fdToRequest[p.fd];
      if p.inOut || p.error || Expired(req, now) {
        Answer(req.request, p);
        ready := ready + [req.request];
        fdToRequest := fdToRequest - {p.fd};
        pollfds := RemoveAt(pollfds, pit);
        return true;
      }
      taken := false;
    }

    /** Writes the result of one request: that of the socket call, the socket's error, or the time-out. */
    static method Answer(request: Request, p: PollFd)
      modifies request`length
      ensures Answered(p, old(request.length), request.length)
    {
      if p.inOut {
        var n: int := *;
        if n <= request.length || n <= 0 {
          request.length := n;
        } else {
          request.length := 0;
        }
      } else if p.error {
        var err: int := *;
        request.length := if err > 0 then -err else 0;
      } else {
        request.length := -ETIMEDOUT;
      }
    }

    /** Hands the kernel what was enqueued and says how much that was. */
    method Submit() returns (sub: nat)
      requires Inv()
      modifies this`submitted, this`counted, this`pollfds, this`readyFds
      ensures Polled() && |pollfds| == |old(pollfds)|
      ensures Inv() && submitted == 0 && sub == old(submitted) && counted == old(counted) + sub
    {
      sub := submitted;
      submitted := 0;
      counted := counted + sub;
      hide DistinctFds, Known, Pending;
      Poll(false, false);
    }
  }

  /** Of a distinct set of entries the scan keeps those that are not done, and misses none of their requests. */
  lemma ScanKeeps(s: seq<PollFd>, m: map<int, RequestInfo>, now: int)
    requires DistinctFds(s) && Known(s, m) && forall fd | fd in m :: exists p :: p in s && p.fd == fd
    ensures !Conflict(s, m, now)
    ensures var t, n := Kept(s, m, now), m - Gone(s, m, now);
            && DistinctFds(t) && Known(t, n) && (forall fd | fd in n :: exists p :: p in t && p.fd == fd)
            && Pending(s, m) == Pending(t, n) + multiset(Completed(s, m, now))
  {
    hide *;
    DistinctMeansNoConflict(s, m, now);
    KeptIs(s, m, now);
    PendingSplits(s, m, now);
    KeptFds(s, m, now);
    PendingSame(Kept(s, m, now), Kept(s, m, now), m, m - Gone(s, m, now));
  }

  lemma {:induction false} DoneIsCompleted(s: seq<PollFd>, m: map<int, RequestInfo>, now: int, p: PollFd)
    requires Known(s, m) && p in s && Done(p, m, now)
    ensures Completed(s, m, now) != []
  {
    hide Done;
    var init, last := s[..|s| - 1], s[|s| - 1];
    assert s == init + [last];
    if !Done(last, m, now) {
      DoneIsCompleted(init, m, now, p);
    }
  }

  /** A read and a write on one descriptor: when the read is done, the scan does not find the write's request. */
  lemma TwoOfOneDescriptor(m: map<int, RequestInfo>, now: int)
    requires 3 in m
    ensures var s := [PollFd(3, Read, true, false), PollFd(3, Write, false, false)]; Known(s, m) && Conflict(s, m, now)
  {
    var s := [PollFd(3, Read, true, false), PollFd(3, Write, false, false)];
    assert Done(s[0], m, now) && s[0].fd == s[1].fd;
  }

  lemma DistinctMeansNoConflict(s: seq<PollFd>, m: map<int, RequestInfo>, now: int)
    requires DistinctFds(s)
    ensures !Conflict(s, m, now)
  {
  }

  /** The map loses exactly the descriptors whose entries go. */
  lemma KeptFds(s: seq<PollFd>, m: map<int, RequestInfo>, now: int)
    requires DistinctFds(s) && Known(s, m) && forall fd | fd in m :: exists p :: p in s && p.fd == fd
    ensures var t, n := Kept(s, m, now), m - Gone(s, m, now);
            && (forall p | p in t :: p.fd in m && p.fd in n)
            && (forall fd | fd in n :: exists p :: p in t && p.fd == fd)
  {
    hide Done, Kept;
    KeptIs(s, m, now);
    var t, n := Kept(s, m, now), m - Gone(s, m, now);
    forall p | p in t ensures p.fd in m && p.fd in n {
      var j :| 0 <= j < |s| && s[j] == p;
      forall k | 0 <= k < |s| && s[k].fd == p.fd ensures !Done(s[k], m, now) {
        assert s[k].fd == s[j].fd;
      }
    }
    forall fd | fd in n ensures exists p :: p in t && p.fd == fd {
      var p :| p in s && p.fd == fd;
      var k :| 0 <= k < |s| && s[k] == p;
      assert !Done(s[k], m, now);
    }
  }

  /**
   A request nothing was found for stays exactly as long as its deadline has not passed, and for ever if it
   has none; one for which anything was found goes.
   */
  lemma StaysIff(s: seq<PollFd>, m: map<int, RequestInfo>, now: int, p: PollFd)
    requires Known(s, m) && p in s
    ensures p in Kept(s, m, now) <==>
              !p.inOut && !p.error && (m[p.fd].deadline == None || now <= m[p.fd].deadline.value)
  {
    KeptIs(s, m, now);
    hide Kept;
  }

  lemma {:induction false} KeptIs(s: seq<PollFd>, m: map<int, RequestInfo>, now: int)
    ensures forall p :: p in Kept(s, m, now) <==> p in s && !Done(p, m, now)
    ensures DistinctFds(s) ==> DistinctFds(Kept(s, m, now))
  {
    hide Done, DistinctFds;
    if s == [] {
      assert Kept(s, m, now) == s;
    } else {
      var init, last := s[..|s| - 1], s[|s| - 1];
      assert s == init + [last];
      KeptIs(init, m, now);
      var kept := Kept(init, m, now);
      assert Kept(s, m, now) == if Done(last, m, now) then kept else kept + [last];
      assert forall p :: p in s <==> p in init || p == last;
      if DistinctFds(s) {
        DistinctLast(init, last);
        forall p | p in kept ensures p.fd != last.fd && p in init {
        }
        DistinctLast(kept, last);
      }
    }
  }

  lemma DistinctLast(init: seq<PollFd>, last: PollFd)
    ensures DistinctFds(init + [last]) <==> DistinctFds(init) && forall p | p in init :: p.fd != last.fd
  {
    var s := init + [last];
    if DistinctFds(s) {
      forall p | p in init ensures p.fd != last.fd {
        var i :| 0 <= i < |init| && init[i] == p;
        assert s[i] == p && s[|init|] == last;
      }
      forall i, j | 0 <= i < j < |init| ensures init[i].fd != init[j].fd {
        assert s[i] == init[i] && s[j] == init[j];
      }
    }
  }

  lemma PendingLast(init: seq<PollFd>, last: PollFd, m: map<int, RequestInfo>)
    requires Known(init, m) && last.fd in m
    ensures Known(init + [last], m) && Pending(init + [last], m) == Pending(init, m) + multiset{m[last.fd].request}
  {
    assert (init + [last])[..|init|] == init;
  }

  lemma CompletedLast(init: seq<PollFd>, last: PollFd, m: map<int, RequestInfo>, now: int)
    requires Known(init, m) && last.fd in m
    ensures Known(init + [last], m)
    ensures Kept(init + [last], m, now) == Kept(init, m, now) + if Done(last, m, now) then [] else [last]
    ensures multiset(Completed(init + [last], m, now)) ==
            multiset(Completed(init, m, now)) + if Done(last, m, now) then multiset{m[last.fd].request} else multiset{}
  {
    hide Done;
    assert (init + [last])[..|init|] == init;
  }

  lemma PendingSplitsStep(init: seq<PollFd>, last: PollFd, m: map<int, RequestInfo>, now: int)
    requires Known(init, m) && last.fd in m && Known(Kept(init, m, now), m)
    requires Pending(init, m) == Pending(Kept(init, m, now), m) + multiset(Completed(init, m, now))
    ensures var s := init + [last];
            && Known(s, m) && Known(Kept(s, m, now), m)
            && Pending(s, m) == Pending(Kept(s, m, now), m) + multiset(Completed(s, m, now))
  {
    hide *;
    PendingLast(init, last, m);
    CompletedLast(init, last, m, now);
    if Done(last, m, now) {
      assert Kept(init + [last], m, now) == Kept(init, m, now);
    } else {
      PendingLast(Kept(init, m, now), last, m);
    }
  }

  lemma {:induction false} PendingSplits(s: seq<PollFd>, m: map<int, RequestInfo>, now: int)
    requires Known(s, m)
    ensures Known(Kept(s, m, now), m)
    ensures Pending(s, m) == Pending(Kept(s, m, now), m) + multiset(Completed(s, m, now))
  {
    if s != [] {
      hide Kept, Completed, Pending, Done;
      var init, last := s[..|s| - 1], s[|s| - 1];
      assert last in s && s == init + [last];
      PendingSplits(init, m, now);
      PendingSplitsStep(init, last, m, now);
    }
  }

  /** Where the scan is after `at` entries of `all`, and what it has made of the fields so far. */
  ghost function Cursor(all: seq<PollFd>, m: map<int, RequestInfo>, now: int, at: nat): nat
    requires at <= |all|
  {
    |Kept(all[..at], m, now)|
  }

  ghost function FdsAt(all: seq<PollFd>, m: map<int, RequestInfo>, now: int, at: nat): seq<PollFd>
    requires at <= |all|
  {
    Kept(all[..at], m, now) + all[at..]
  }

  ghost function MapAt(all: seq<PollFd>, m: map<int, RequestInfo>, now: int, at: nat): map<int, RequestInfo>
    requires at <= |all|
  {
    m - Gone(all[..at], m, now)
  }

  ghost function ReadyAt(all: seq<PollFd>, m: map<int, RequestInfo>, now: int, at: nat,
      before: seq<Request>): seq<Request>
    requires at <= |all| && Known(all, m)
  {
    before + Completed(all[..at], m, now)
  }

  ghost predicate ConflictBefore(all: seq<PollFd>, m: map<int, RequestInfo>, now: int, at: nat)
    requires at <= |all|
  {
    exists i, j :: 0 <= i < j < at && all[i].fd == all[j].fd && Done(all[i], m, now)
  }

  lemma ScanStart(all: seq<PollFd>, m: map<int, RequestInfo>, now: int, before: seq<Request>)
    requires Known(all, m)
    ensures Cursor(all, m, now, 0) == 0 && FdsAt(all, m, now, 0) == all && MapAt(all, m, now, 0) == m
    ensures ReadyAt(all, m, now, 0, before) == before && !ConflictBefore(all, m, now, 0)
  {
    assert all[..0] == [];
  }

  lemma ScanEnd(all: seq<PollFd>, m: map<int, RequestInfo>, now: int, at: nat, before: seq<Request>)
    requires at <= |all| && Known(all, m) && Cursor(all, m, now, at) >= |FdsAt(all, m, now, at)|
    requires !ConflictBefore(all, m, now, at)
    ensures FdsAt(all, m, now, at) == Kept(all, m, now) && MapAt(all, m, now, at) == m - Gone(all, m, now)
    ensures ReadyAt(all, m, now, at, before) == before + Completed(all, m, now) && !Conflict(all, m, now)
  {
    assert at == |all| && all[..at] == all;
  }

  lemma PrefixStep(all: seq<PollFd>, m: map<int, RequestInfo>, now: int, at: nat)
    requires at < |all| && Known(all, m)
    ensures all[at].fd in m
    ensures Kept(all[..at + 1], m, now) == Kept(all[..at], m, now) + if Done(all[at], m, now) then [] else [all[at]]
    ensures Completed(all[..at + 1], m, now) ==
            Completed(all[..at], m, now) + if Done(all[at], m, now) then [m[all[at].fd].request] else []
  {
    hide Done;
    var t := all[..at + 1];
    assert t[..at] == all[..at] && t[at] == all[at] && all[at] in all;
  }

  lemma GoneStep(all: seq<PollFd>, m: map<int, RequestInfo>, now: int, at: nat)
    requires at < |all|
    ensures Gone(all[..at + 1], m, now) == Gone(all[..at], m, now) + if Done(all[at], m, now) then {all[at].fd} else {}
    ensures all[at].fd in Gone(all[..at], m, now) <==> exists i ::
          0 <= i < at && all[i].fd == all[at].fd && Done(all[i], m, now)
  {
    hide Done;
    var t, p := all[..at + 1], all[at];
    assert t[..at] == all[..at] && t[at] == p;
    forall f ensures f in Gone(t, m, now) <==> f in Gone(all[..at], m, now) || (f == p.fd && Done(p, m, now)) {
      if f in Gone(all[..at], m, now) {
        var i :| 0 <= i < at && Done(all[..at][i], m, now) && all[..at][i].fd == f;
        assert Done(t[i], m, now) && t[i].fd == f;
      }
      if f == p.fd && Done(p, m, now) {
        assert Done(t[at], m, now);
      }
    }
    if i :| 0 <= i < at && all[i].fd == p.fd && Done(all[i], m, now) {
      assert Done(all[..at][i], m, now) && all[..at][i].fd == p.fd;
    }
  }

  /**
   The entry the scan looks at is the next one; its request is gone exactly if this is the second entry
   of its descriptor; and if it is there, taking it out or passing it leads to the next state.
   */
  lemma ScanStep(all: seq<PollFd>, m: map<int, RequestInfo>, now: int, at: nat, before: seq<Request>)
    requires at <= |all| && Known(all, m) && Cursor(all, m, now, at) < |FdsAt(all, m, now, at)|
    requires !ConflictBefore(all, m, now, at)
    ensures at < |all| && FdsAt(all, m, now, at)[Cursor(all, m, now, at)] == all[at]
    ensures var pit, fds, left, p := Cursor(all, m, now, at), FdsAt(all, m, now, at), MapAt(all, m, now, at), all[at];
            && (p.fd !in left ==> Conflict(all, m, now))
            && (p.fd in left ==>
                  && p.fd in m && left[p.fd] == m[p.fd] && !ConflictBefore(all, m, now, at + 1)
                  && if Done(p, left, now) then
                       && Cursor(all, m, now, at + 1) == pit && FdsAt(all, m, now, at + 1) == RemoveAt(fds, pit)
                       && ReadyAt(all, m, now, at + 1, before) == ReadyAt(all, m, now, at,
                          before) + [left[p.fd].request]
                       && MapAt(all, m, now, at + 1) == left - {p.fd}
                     else
                       && Cursor(all, m, now, at + 1) == pit + 1 && FdsAt(all, m, now, at + 1) == fds
                       && ReadyAt(all, m, now, at + 1, before) == ReadyAt(all, m, now, at, before)
                          && MapAt(all, m, now, at + 1) == left)
  {
    hide Gone, Kept, Completed;
    PrefixStep(all, m, now, at);
    GoneStep(all, m, now, at);
  }

  lemma {:induction false} PendingSame(s: seq<PollFd>, t: seq<PollFd>, m: map<int, RequestInfo>, n: map<int,
      RequestInfo>)
    requires |s| == |t| && forall i | 0 <= i < |s| ::
          s[i].fd == t[i].fd && s[i].fd in m && s[i].fd in n && m[s[i].fd] == n[s[i].fd]
    ensures Known(s, m) && Known(t, n) && Pending(s, m) == Pending(t, n)
  {
    if s != [] {
      PendingSame(s[..|s| - 1], t[..|t| - 1], m, n);
    }
  }

  /** Marking the entries changes neither the pairing nor the pending requests. */
  lemma SameFds(s: seq<PollFd>, t: seq<PollFd>, m: map<int, RequestInfo>)
    requires |s| == |t| && (forall i | 0 <= i < |s| :: s[i].fd == t[i].fd) && Known(s, m)
    ensures Known(t, m) && Pending(t, m) == Pending(s, m) && (DistinctFds(s) ==> DistinctFds(t))
    ensures (forall fd | fd in m :: exists p :: p in s && p.fd == fd)
        ==> (forall fd | fd in m :: exists p :: p in t && p.fd == fd)
  {
    PendingSame(s, t, m, m);
    if forall fd | fd in m :: exists p :: p in s && p.fd == fd {
      forall fd | fd in m ensures exists p :: p in t && p.fd == fd {
        var p :| p in s && p.fd == fd;
        var i :| 0 <= i < |s| && s[i] == p;
        assert t[i] in t && t[i].fd == fd;
      }
    }
  }

  lemma EnqueueIs(s: seq<PollFd>, m: map<int, RequestInfo>, fd: int, events: Event, req: RequestInfo)
    requires DistinctFds(s) && Known(s, m) && forall f | f in m :: exists p :: p in s && p.fd == f
    ensures var t, n := s + [PollFd(fd, events, false, false)], if fd in m then m else m[fd := req];
            && Known(t, n) && (DistinctFds(t) <==> fd !in m)
            && (fd !in m ==> Pending(t, n) == Pending(s, m) + multiset{req.request})
            && (forall f | f in n :: exists p :: p in t && p.fd == f)
  {
    hide Pending;
    var e := PollFd(fd, events, false, false);
    var t, n := s + [e], if fd in m then m else m[fd := req];
    EnqueuedFds(s, m, e);
    assert e in t && forall p | p in s :: p in t;
    if fd !in m {
      forall i | 0 <= i < |s| ensures s[i].fd in m {
        assert s[i] in s;
      }
      hide DistinctFds;
      PendingSame(s, s, m, n);
      PendingLast(s, e, n);
    }
  }

  lemma EnqueuedFds(s: seq<PollFd>, m: map<int, RequestInfo>, e: PollFd)
    requires DistinctFds(s) && Known(s, m) && forall f | f in m :: exists p :: p in s && p.fd == f
    ensures DistinctFds(s + [e]) <==> e.fd !in m
  {
    var t := s + [e];
    if e.fd in m {
      var p :| p in s && p.fd == e.fd;
      var i :| 0 <= i < |s| && s[i] == p;
      assert t[i].fd == t[|s|].fd;
    } else {
      forall i | 0 <= i < |s| ensures t[i].fd != e.fd {
        assert s[i] in s;
      }
    }
  }

  /**
   A scan uses up all marks of the last `poll` but leaves its count, so a `complete` without a `submit` in
   between scans again instead of polling; and a scan without marks changes nothing until a request
   expires. The event loop calls `submit` between any two of them.
   */
  lemma {:induction false} MarksAreUsedUp(s: seq<PollFd>, m: map<int, RequestInfo>, now: int, later: int)
    requires Known(s, m)
    ensures var t := Kept(s, m, now);
            && (forall p | p in t :: !p.inOut && !p.error && p.fd in m)
            && ((forall p | p in t :: !Expired(m[p.fd], later)) ==> Kept(t, m, later) == t && Gone(t, m, later) == {})
  {
    KeptIs(s, m, now);
    var t := Kept(s, m, now);
    if forall p | p in t :: !Expired(m[p.fd], later) {
      NothingDone(t, m, later);
    }
  }

  lemma {:induction false} NothingDone(s: seq<PollFd>, m: map<int, RequestInfo>, now: int)
    requires forall p | p in s :: !Done(p, m, now)
    ensures Kept(s, m, now) == s
    ensures Gone(s, m, now) == {}
  {
    hide Done;
    KeptAll(s, m, now);
    assert forall i | 0 <= i < |s| :: s[i] in s;
  }

  lemma {:induction false} KeptAll(s: seq<PollFd>, m: map<int, RequestInfo>, now: int)
    requires forall p | p in s :: !Done(p, m, now)
    ensures Kept(s, m, now) == s
  {
    hide Done, Gone;
    if s != [] {
      var init, last := s[..|s| - 1], s[|s| - 1];
      assert last in s && s == init + [last];
      KeptAll(init, m, now);
    }
  }
}
