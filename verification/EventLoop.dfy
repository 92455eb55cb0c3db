/**
 How the parts of the event loop fit together: what `execute` of an HTTP task answers the scheduler, and
 that the scheduler counts what the socket on top of `poll` holds (`src/network/tasked_send_receiver.cpp`,
 `src/network/http_message.cpp`, `src/network/poll_socket.cpp`).
 */
module EventLoop {
  import opened Wrappers
  import Scheduler
  import HttpMessage
  import PollSocket

  /**
   Running an HTTP task is one of the outcomes the scheduler knows: the task waits for the one request it
   issued, or it has ended and issued none. It never throws.
   */
  method RunTask(m: HttpMessage.Message, garbage: nat) returns (outcome: Scheduler.Outcome)
    requires m.Ready()
    modifies m, m.receive
    ensures outcome.Waits? ==> m.Waiting() && m.issued == old(m.issued) + 1
    ensures outcome.Waits? ==> m.request.Some? && outcome.withTimeout == m.request.value.timed
    ensures outcome.Ends? ==> m.Ready() && m.Ended() && m.issued == old(m.issued)
    ensures !outcome.Throws?
    ensures old(m.state) == HttpMessage.Init ==> outcome.Waits? || m.state == HttpMessage.Aborted
  {
    var s := m.Execute(garbage);
    outcome := if s == HttpMessage.Sending || s == HttpMessage.Receiving then Scheduler.Waits(m.request.value.timed)
               else Scheduler.Ends;
  }

  /** The scheduler's entries, prepared and in flight, are the requests the socket has not given back. */
  ghost predicate Agree<M>(r: Scheduler.SendReceiver<M>, s: PollSocket.Socket)
    reads r, s
  {
    && !r.uring && s.Inv() && r.count == |r.inFlight|
    && |r.prepared| == s.submitted && |r.inFlight| + |r.prepared| + |s.returned| == |s.enqueued|
  }

  lemma {:induction false} PendingSize(s: seq<PollSocket.PollFd>, m: map<int, PollSocket.RequestInfo>)
    requires PollSocket.Known(s, m)
    ensures |PollSocket.Pending(s, m)| == |s|
  {
    if s != [] {
      PendingSize(s[..|s| - 1], m);
    }
  }

  /** So the loop waits for a completion exactly while the socket has something to complete. */
  lemma CountIsHeld<M>(r: Scheduler.SendReceiver<M>, s: PollSocket.Socket)
    requires Agree(r, s)
    ensures r.count + |r.prepared| == |s.pollfds| + |s.ready|
    ensures r.prepared == [] ==> (r.count > 0 <==> s.pollfds != [] || s.ready != [])
  {
    PendingSize(s.pollfds, s.fdToRequest);
  }

  /** A task issues its request, on a descriptor that has none waiting. */
  method Send<M>(r: Scheduler.SendReceiver<M>, s: PollSocket.Socket, task: int, timed: bool, fd: int,
                 event: PollSocket.Event, req: PollSocket.RequestInfo)
    requires Agree(r, s) && |r.prepared| + 2 <= 4 * r.limit && fd !in s.fdToRequest
    modifies r`prepared, s
    ensures Agree(r, s) && r.prepared == old(r.prepared) + [Scheduler.Op(task)]
  {
    hide PollSocket.Socket.Inv;
    r.Prepare(task, Scheduler.Waits(timed));
    s.Enqueue(fd, event, req);
  }

  /** The number `submit` returns is the number of entries the scheduler adds to its count. */
  method SubmitAll<M>(r: Scheduler.SendReceiver<M>, s: PollSocket.Socket) returns (cnt: int, sub: nat)
    requires Agree(r, s) && r.Balanced()
    modifies r`prepared, r`inFlight, r`count, r`submitFailed, s
    ensures cnt >= 0 ==> Agree(r, s) && cnt == sub && r.prepared == [] && s.Polled()
  {
    hide PollSocket.Socket.Inv, Scheduler.SendReceiver.Balanced;
    sub := s.Submit();
    cnt := r.Submit();
    if cnt >= 0 {
      r.count := r.count + cnt;
    }
  }

  /** One completion takes one request from both; after a submit it comes back if anything ever happens. */
  method CompleteOne<M>(r: Scheduler.SendReceiver<M>, s: PollSocket.Socket, patience: nat, silent: bool)
    returns (threw: bool, request: Option<PollSocket.Request>)
    requires Agree(r, s) && r.AtHead() && r.count > 0
    modifies r`inFlight, r`count, s, s.Requests()`length
    ensures !threw && (request.Some? ==> Agree(r, s) && r.count == old(r.count) - 1)
    ensures old(s.ready) != [] || (!silent && old(s.Polled())) ==> request.Some?
  {
    CountIsHeld(r, s);
    hide PollSocket.Socket.Inv, Scheduler.SendReceiver.Balanced;
    threw, request := s.Complete(patience, silent);
    if request.Some? {
      var e := r.Complete();
    }
  }
}
