/**
 The event loop `TaskedSendReceiver::sendReceive` (`src/network/tasked_send_receiver.cpp`). What a task's
 `execute` answers, which request the kernel completes next, what other threads do to the shared queue
 and when someone calls `stop` are all left open, but only finitely often does a task wait again or does
 anybody else keep the loop going. Task callbacks do not throw.
 */
module Scheduler {
  import opened Wrappers
  import opened Sequences

  /** A prepared or submitted socket operation, or the timeout that io_uring links to one. */
  datatype Entry = Op(task: int) | Timeout(task: int)

  /** What `execute` does: it issues one request and waits for it, ends the task, or throws. */
  datatype Outcome = Waits(withTimeout: bool) | Ends | Throws

  /** Why `SendReceive` came back. */
  datatype Exit = Drained | Stopped | Rethrows | SubmitFailed

  /**
   The books of the loop: `n` tasks have been started; every live one has exactly one operation on its
   way, every ended one was reported once, and those that threw have neither.
   */
  ghost predicate Ledger(tasks: seq<int>, threw: set<int>, n: nat, ops: multiset<Entry>, finished: multiset<int>) {
    && Distinct(tasks)
    && (forall id | id in tasks || id in threw :: 0 <= id < n)
    && (forall id: int {:trigger Op(id)} :: ops[Op(id)] == One(id in tasks && id !in threw))
    && forall id: int {:trigger finished[id]} :: finished[id] == One(0 <= id < n && id !in tasks && id !in threw)
  }

  ghost predicate RequestOf(id: int, request: multiset<Entry>) {
    request == multiset{Op(id)} || request == multiset{Op(id), Timeout(id)}
  }

  /** How starting one more task keeps the books, by what its first run answers. */
  lemma StartKeepsLedger(tasks: seq<int>, threw: set<int>, n: nat, ops: multiset<Entry>, finished: multiset<int>,
      request: multiset<Entry>)
    requires Ledger(tasks, threw, n, ops, finished)
    requires RequestOf(n, request)
    ensures Ledger(tasks, threw, n + 1, ops, finished + multiset{n})
    ensures Ledger(tasks, threw + {n}, n + 1, ops, finished)
    ensures Ledger(tasks + [n], threw, n + 1, ops + request, finished)
  {
  }

  /** The same when the one operation of a live task has completed. */
  lemma RunKeepsLedger(tasks: seq<int>, threw: set<int>, n: nat, ops: multiset<Entry>, finished: multiset<int>,
      id: int, request: multiset<Entry>)
    requires Ledger(tasks, threw, n, ops, finished) && Op(id) in ops
    requires RequestOf(id, request)
    ensures id in tasks && id !in threw
    ensures Ledger(tasks, threw + {id}, n, ops - multiset{Op(id)}, finished)
    ensures Ledger(tasks, threw, n, ops - multiset{Op(id)} + request, finished)
    ensures forall i {:trigger tasks[i]} | 0 <= i < |tasks| && tasks[i] == id ::
              Ledger(RemoveAt(tasks, i), threw, n, ops - multiset{Op(id)}, finished + multiset{id})
  {
    assert ops[Op(id)] >= 1;
    forall i {:trigger tasks[i]} | 0 <= i < |tasks| && tasks[i] == id
      ensures Ledger(RemoveAt(tasks, i), threw, n, ops - multiset{Op(id)}, finished + multiset{id})
    {
      RemoveAtIs(tasks, i);
    }
  }

  /** The case of an ended task, at the place where it is found. */
  lemma EndKeepsLedger(tasks: seq<int>, threw: set<int>, n: nat, ops: multiset<Entry>, reports: seq<int>, id: int,
      at: nat)
    requires Ledger(tasks, threw, n, ops, multiset(reports)) && Op(id) in ops && at < |tasks| && tasks[at] == id
    ensures Ledger(RemoveAt(tasks, at), threw, n, ops - multiset{Op(id)}, multiset(reports + [id]))
  {
    RunKeepsLedger(tasks, threw, n, ops, multiset(reports), id, multiset{Op(id)});
    assert multiset(reports + [id]) == multiset(reports) + multiset{id};
  }

  /** The case of a task that waits again or throws. */
  lemma LiveKeepsLedger(tasks: seq<int>, threw: set<int>, n: nat, ops: multiset<Entry>, finished: multiset<int>,
      id: int, request: multiset<Entry>)
    requires Ledger(tasks, threw, n, ops, finished) && Op(id) in ops && RequestOf(id, request)
    ensures id in tasks
    ensures Ledger(tasks, threw + {id}, n, ops - multiset{Op(id)}, finished)
    ensures Ledger(tasks, threw, n, ops - multiset{Op(id)} + request, finished)
  {
    RunKeepsLedger(tasks, threw, n, ops, finished, id, request);
  }

  lemma TimeoutKeepsLedger(tasks: seq<int>, threw: set<int>, n: nat, ops: multiset<Entry>, finished: multiset<int>,
      id: int)
    requires Ledger(tasks, threw, n, ops, finished)
    ensures Ledger(tasks, threw, n, ops - multiset{Timeout(id)}, finished)
  {
  }

  class SendReceiver<M> {
    /** `_concurrentRequests`; the ring is created with four entries per request. */
    const limit: nat
    /** Whether a linked timeout takes an entry of its own (io_uring) or not (poll). */
    const uring: bool
    var submissions: seq<M>
    /** The tasks in `_messageTasks`, by their number of start. */
    var tasks: seq<int>
    var count: nat
    var prepared: seq<Entry>
    var inFlight: multiset<Entry>
    var stop: bool
    var firstException: bool
    /** Whether there is a connection manager; an exception takes it away. */
    var connected: bool
    /** How often a task may wait again, `complete` may fail and other threads may keep the loop going. */
    var patience: nat
    /** All messages ever started, the ended tasks in the order of their reports, and the tasks that threw. */
    var started: seq<M>
    var reports: seq<int>
    ghost var threw: set<int>
    /** Whether anybody called `stop`, or a submit failed, during the last call of `sendReceive`. */
    ghost var stopCalled: bool
    ghost var submitFailed: bool

    /** How the last call of `sendReceive` had to end, by what happened during it. */
    ghost function Cause(): Exit
      reads this`threw, this`stopCalled, this`submitFailed
    {
      if submitFailed then SubmitFailed
      else if threw != {} then Rethrows
      else if stopCalled then Stopped
      else Drained
    }

    /** All entries that were prepared and have not completed. */
    ghost function Outstanding(): multiset<Entry>
      reads this`prepared, this`inFlight
    {
      multiset(prepared) + inFlight
    }

    ghost predicate Balanced()
      reads this`tasks, this`threw, this`started, this`prepared, this`inFlight, this`reports, this`firstException
    {
      && Ledger(tasks, threw, |started|, Outstanding(), multiset(reports))
      && (firstException <==> threw != {})
      && |tasks| <= limit
    }

    /** What holds at the head of the loop. */
    ghost predicate AtHead()
      reads this`tasks, this`threw, this`started, this`prepared, this`inFlight, this`reports, this`firstException
      reads this`count
    {
      Balanced() && prepared == [] && count == |inFlight|
    }

    /** No call is under way and none has thrown. */
    ghost predicate Usable()
      reads this`tasks, this`threw, this`started, this`prepared, this`inFlight, this`reports, this`firstException
      reads this`count, this`connected
    {
      AtHead() && connected && !firstException && inFlight == multiset{}
    }

    constructor (limit: nat, uring: bool)
      ensures Usable() && this.limit == limit && this.uring == uring
      ensures started == [] && submissions == [] && reports == []
    {
      this.limit, this.uring := limit, uring;
      submissions, tasks, count, prepared, inFlight := [], [], 0, [], multiset{};
      stop, firstException, connected, started, reports, threw := false, false, true, [], [], {};
      patience := 0;
      stopCalled, submitFailed := false, false;
    }

    /** The entries one request takes: its own and, with io_uring, that of its linked timeout. */
    function EntriesOf(task: int, outcome: Outcome): seq<Entry> {
      if !outcome.Waits? then []
      else if uring && outcome.withTimeout then [Op(task), Timeout(task)] else [Op(task)]
    }

    /** A task issues its one request; the ring must have room for it and its timeout. */
    method Prepare(task: int, outcome: Outcome)
      requires outcome.Waits? && |prepared| + 2 <= 4 * limit
      modifies this`prepared
      ensures prepared == old(prepared) + EntriesOf(task, outcome)
      ensures prepared == old(prepared) + if uring && outcome.withTimeout then [Op(task), Timeout(task)] else [Op(task)]
      ensures |prepared| <= |old(prepared)| + 2
      ensures Outstanding() == old(Outstanding()) + multiset(EntriesOf(task, outcome))
    {
      prepared := prepared + [Op(task)];
      if uring && outcome.withTimeout {
        prepared := prepared + [Timeout(task)];
      }
      assert prepared == old(prepared) + EntriesOf(task, outcome);
    }

    /** `emplaceLocalRequest` and `emplaceNewRequest`. */
    method EmplaceRequests()
      requires Balanced() && !firstException && |tasks| < limit && |prepared| <= 2 * |tasks|
      modifies this`submissions, this`tasks, this`prepared, this`firstException, this`started, this`threw, this`reports
      ensures Balanced() && |prepared| <= 2 * |tasks| <= 2 * limit
      ensures started + submissions == old(started + submissions) && |started| >= |old(started)|
      ensures firstException || |tasks| == limit || submissions == []
      ensures 3 * |submissions| + |prepared| + |started| <= old(3 * |submissions| + |prepared| + |started|)
      ensures old(reports) <= reports && old(started) <= started
    {
      hide Ledger, SendReceiver.Balanced;
      while submissions != []
        decreases |submissions|
        invariant Balanced() && !firstException && |tasks| < limit && |prepared| <= 2 * |tasks|
        invariant started + submissions == old(started + submissions) && |started| >= |old(started)|
        invariant 3 * |submissions| + |prepared| + |started| <= old(3 * |submissions| + |prepared| + |started|)
        invariant old(reports) <= reports && old(started) <= started
      {
        var outcome := StartNext();
        match outcome {
          case Ends => continue;
          case Throws => return;
          case Waits(_) =>
            if |tasks| >= limit {
              break;
            }
        }
      }
    }

    /** Takes the next message off the queue and runs its task for the first time. */
    method StartNext() returns (outcome: Outcome)
      requires Balanced() && !firstException && |tasks| < limit && |prepared| <= 2 * |tasks| && submissions != []
      modifies this`submissions, this`tasks, this`prepared, this`firstException, this`started, this`threw, this`reports
      ensures Balanced() && |prepared| <= 2 * |tasks| <= 2 * limit
      ensures started + submissions == old(started + submissions) && |started| == |old(started)| + 1
      ensures firstException == outcome.Throws? && (!outcome.Waits? ==> |tasks| < limit)
      ensures |submissions| == |old(submissions)| - 1 && |prepared| <= |old(prepared)| + 2
      ensures FirstRunDid(|old(started)|, outcome, old(tasks), old(reports), old(prepared))
      ensures old(reports) <= reports && old(started) <= started
    {
      ghost var before := started;
      assert threw == {} && Ledger(tasks, threw, |before|, Outstanding(), multiset(reports));
      hide *;
      TakeNext();
      outcome := *;
      FirstRun(|started| - 1, outcome, before);
    }

    method TakeNext()
      requires submissions != []
      modifies this`submissions, this`started
      ensures started + submissions == old(started + submissions) && |started| == |old(started)| + 1
      ensures |submissions| == |old(submissions)| - 1 && old(started) <= started
    {
      var original := submissions[0];
      submissions := submissions[1..];
      started := started + [original];
    }

    /** A waiting task becomes live, with its entries prepared; an ended one is reported; a thrower is neither. */
    ghost predicate FirstRunDid(task: int, outcome: Outcome, tasks0: seq<int>, reports0: seq<int>,
                                prepared0: seq<Entry>)
      reads this`tasks, this`reports, this`threw, this`prepared
    {
      && tasks == (if outcome.Waits? then tasks0 + [task] else tasks0)
      && reports == (if outcome.Ends? then reports0 + [task] else reports0)
      && threw == (if outcome.Throws? then {task} else {})
      && prepared == prepared0 + EntriesOf(task, outcome)
    }

    /** What the first run of the task just taken off the queue leads to. */
    method FirstRun(task: int, outcome: Outcome, ghost before: seq<M>)
      requires Ledger(tasks, threw, |before|, Outstanding(), multiset(reports))
      requires task == |before| == |started| - 1
      requires !firstException && threw == {} && |tasks| < limit && |prepared| <= 2 * |tasks|
      modifies this`tasks, this`prepared, this`firstException, this`threw, this`reports
      ensures Balanced() && |prepared| <= 2 * |tasks| && |prepared| <= |old(prepared)| + 2
      ensures firstException == outcome.Throws? && (!outcome.Waits? ==> |tasks| < limit)
      ensures FirstRunDid(task, outcome, old(tasks), old(reports), old(prepared)) && old(reports) <= reports
    {
      hide Ledger, SendReceiver.Outstanding;
      ghost var request := if outcome.Waits? then multiset(EntriesOf(task, outcome)) else multiset{Op(task)};
      ghost var ops := Outstanding();
      StartKeepsLedger(tasks, threw, task, ops, multiset(reports), request);
      match outcome {
        case Ends =>
          reports := reports + [task];
          assert prepared == old(prepared) + EntriesOf(task, outcome);
        case Throws =>
          firstException := true;
          threw := threw + {task};
        case Waits(withTimeout) =>
          Prepare(task, outcome);
          tasks := tasks + [task];
      }
    }

    /** The loop over `_messageTasks` that finds the ended task, runs its callback and erases it. */
    method Retire(task: int) returns (ghost at: nat)
      requires task in tasks
      modifies this`tasks, this`reports
      ensures at < |old(tasks)| && old(tasks)[at] == task && tasks == RemoveAt(old(tasks), at)
      ensures reports == old(reports) + [task]
    {
      var it := 0;
      while tasks[it] != task
        invariant it < |tasks| && task !in tasks[..it]
        decreases |tasks| - it
      {
        it := it + 1;
      }
      at := it;
      reports := reports + [task];
      tasks := RemoveAt(tasks, it);
    }

    /** `complete()` returns one of the submitted entries, whichever the kernel likes. */
    method Complete() returns (e: Entry)
      requires AtHead() && count > 0
      modifies this`inFlight, this`count
      ensures e in old(inFlight) && inFlight == old(inFlight) - multiset{e} && count == old(count) - 1 == |inFlight|
    {
      e :| e in inFlight;
      inFlight := inFlight - multiset{e};
      count := count - 1;
    }

    /** The completed task runs once more. */
    method RunTask(task: int, ghost ops: multiset<Entry>) returns (outcome: Outcome, ghost at: nat)
      requires Running(task, ops)
      modifies this`tasks, this`reports, this`prepared, this`firstException, this`threw, this`patience
      ensures patience == old(patience) - if outcome.Waits? then 1 else 0
      ensures Balanced() && |prepared| <= 2 * |tasks| <= 2 * limit && prepared == EntriesOf(task, outcome)
      ensures outcome.Ends? ==> at < |old(tasks)| && old(tasks)[at] == task
      ensures tasks == (if outcome.Ends? then RemoveAt(old(tasks), at) else old(tasks))
      ensures reports == (if outcome.Ends? then old(reports) + [task] else old(reports))
      ensures threw == (if outcome.Throws? then old(threw) + {task} else old(threw))
      ensures firstException == (old(firstException) || outcome.Throws?)
    {
      hide *;
      outcome := *;
      if outcome.Waits? {
        if patience > 0 {
          patience := patience - 1;
        } else {
          outcome := Ends;
        }
      }
      at := 0;
      match outcome {
        case Ends =>
          at := TaskEnds(task, ops);
        case Throws =>
          TaskThrows(task, ops);
        case Waits(_) =>
          TaskWaits(task, outcome, ops);
      }
      NoEntries(task);
    }

    lemma NoEntries(task: int)
      ensures EntriesOf(task, Ends) == [] && EntriesOf(task, Throws) == []
    {
    }

    /** Only one operation of this live task is out, and it has completed. */
    ghost predicate Running(task: int, ops: multiset<Entry>)
      reads this`tasks, this`reports, this`prepared, this`inFlight, this`firstException, this`threw, this`started
    {
      && Ledger(tasks, threw, |started|, ops, multiset(reports)) && Op(task) in ops
      && Outstanding() == ops - multiset{Op(task)}
      && prepared == [] && (firstException <==> threw != {}) && |tasks| <= limit
    }

    method TaskEnds(task: int, ghost ops: multiset<Entry>) returns (ghost at: nat)
      requires Running(task, ops)
      modifies this`tasks, this`reports
      ensures Balanced() && prepared == [] && |tasks| <= limit
      ensures at < |old(tasks)| && old(tasks)[at] == task && tasks == RemoveAt(old(tasks), at)
      ensures reports == old(reports) + [task]
    {
      hide Ledger, SendReceiver.Outstanding;
      RunKeepsLedger(tasks, threw, |started|, ops, multiset(reports), task, multiset{Op(task)});
      at := Retire(task);
      EndKeepsLedger(old(tasks), threw, |started|, ops, old(reports), task, at);
    }

    method TaskThrows(task: int, ghost ops: multiset<Entry>)
      requires Running(task, ops)
      modifies this`firstException, this`threw
      ensures Balanced() && prepared == [] && |tasks| <= limit && firstException && threw == old(threw) + {task}
    {
      hide Ledger, SendReceiver.Outstanding;
      LiveKeepsLedger(tasks, threw, |started|, ops, multiset(reports), task, multiset{Op(task)});
      firstException := true;
      threw := threw + {task};
    }

    method TaskWaits(task: int, outcome: Outcome, ghost ops: multiset<Entry>)
      requires Running(task, ops) && outcome.Waits?
      modifies this`prepared
      ensures Balanced() && prepared == EntriesOf(task, outcome) && |prepared| <= 2 * |tasks| <= 2 * limit
    {
      hide Ledger, SendReceiver.Outstanding;
      LiveKeepsLedger(tasks, threw, |started|, ops, multiset(reports), task, multiset(EntriesOf(task, outcome)));
      assert |tasks| >= 1;
      Prepare(task, outcome);
    }

    /** One entry has completed, that of a linked timeout or that of an operation. */
    ghost predicate Took(before: multiset<Entry>, timeout: bool)
      reads this`inFlight
    {
      exists e :: e in before && e.Timeout? == timeout && inFlight == before - multiset{e}
    }

    /** One pass through the loop up to `submit`; `skip` is the source's `continue`. */
    method HandleCompletion() returns (skip: bool)
      requires AtHead() && count > 0
      modifies this`inFlight, this`count, this`tasks, this`reports, this`prepared, this`firstException, this`threw
      modifies this`patience
      ensures patience < old(patience) || (patience == old(patience) && |prepared| + |inFlight| < |old(inFlight)|)
      ensures Balanced() && count == |inFlight| && |prepared| <= 2 * |tasks| <= 2 * limit
      ensures skip ==> prepared == [] && tasks == old(tasks) && reports == old(reports)
      ensures if skip then inFlight == old(inFlight) || Took(old(inFlight), true) else Took(old(inFlight), false)
      ensures old(reports) <= reports
    {
      hide Ledger;
      var completeThrows := *;
      if completeThrows && patience > 0 {
        patience := patience - 1;
        return true;
      }
      ghost var ops := inFlight;
      assert Outstanding() == ops;
      var e := Complete();
      if e.Timeout? {
        TimeoutKeepsLedger(tasks, threw, |started|, ops, multiset(reports), e.task);
        assert Outstanding() == inFlight;
        return true;
      }
      assert Outstanding() == ops - multiset{e};
      var outcome;
      ghost var at;
      outcome, at := RunTask(e.task, ops);
      skip := false;
    }

    /** Hands all prepared entries to the kernel and returns how many, or fails. */
    method Submit() returns (cnt: int)
      requires Balanced()
      modifies this`prepared, this`inFlight, this`submitFailed
      ensures submitFailed <==> old(submitFailed) || cnt < 0
      ensures cnt < 0 ==> prepared == old(prepared) && inFlight == old(inFlight)
      ensures cnt >= 0 ==> cnt == |old(prepared)| && prepared == [] && |inFlight| == |old(inFlight)| + cnt
      ensures Outstanding() == old(Outstanding())
      ensures Balanced()
    {
      var fails := *;
      if fails {
        submitFailed := true;
        return -1;
      }
      cnt := |prepared|;
      inFlight := inFlight + multiset(prepared);
      prepared := [];
      assert Outstanding() == old(multiset(prepared) + inFlight);
    }

    /**
     Other threads may add to or take from the group's queue and may call `stop` at any time. If the loop
     does not end by itself, someone calls it eventually.
     */
    method OtherThreads(local: bool, endsItself: bool) returns (stops: bool)
      modifies this`submissions, this`stop, this`patience, this`stopCalled
      ensures local ==> submissions == old(submissions)
      ensures stop == (old(stop) || stops) && stopCalled == (old(stopCalled) || stops)
      ensures endsItself ==> patience == old(patience) && (local ==> submissions == old(submissions))
      ensures !endsItself ==> patience < old(patience) || (patience == 0 && stop && submissions == old(submissions))
    {
      stops := *;
      if !endsItself {
        if patience > 0 {
          patience := patience - 1;
          if !local {
            submissions := *;
          }
        } else {
          stops := true;
        }
      }
      if stops {
        stop := true;
        stopCalled := true;
      }
    }

    /** What is left to do, if no task waits again: starting a message takes at most two entries. */
    ghost function Load(): nat
      reads this`submissions, this`inFlight
    {
      3 * |submissions| + |inFlight|
    }

    /**
     One pass through the loop: a completion, new requests, and the submit. It never idles: without anybody's
     patience it leaves less to do, unless nothing was in flight and nothing could be started; then a run
     that ends with its queue stops, if it may start anything at all.
     */
    method Pass(oneQueueInvocation: bool) returns (failed: bool)
      requires AtHead()
      modifies this`submissions, this`tasks, this`count, this`prepared, this`inFlight, this`stop
      modifies this`firstException, this`started, this`threw, this`reports, this`patience, this`submitFailed
      ensures submitFailed <==> old(submitFailed) || failed
      ensures Balanced() && (failed || AtHead())
      ensures started + submissions == old(started + submissions)
      ensures old(stop) ==> stop
      ensures stop ==> old(stop) || (oneQueueInvocation && count == 0 && (submissions == [] || firstException))
      ensures !failed ==> patience < old(patience) || (patience == old(patience) && Load() <= old(Load()))
      ensures old(stop) ==> started == old(started)
      ensures !failed && patience == old(patience) && Load() == old(Load()) ==>
                old(count) == 0 && count == 0 && (oneQueueInvocation && limit > 0 ==> stop)
      ensures old(reports) <= reports && old(started) <= started
    {
      hide Ledger, SendReceiver.Balanced, SendReceiver.Outstanding;
      failed := false;
      if count > 0 {
        var skip := HandleCompletion();
        if skip {
          return;
        }
      }
      failed := Refill(oneQueueInvocation);
    }

    /** The second half of a pass. */
    method Refill(oneQueueInvocation: bool) returns (failed: bool)
      requires Balanced() && count == |inFlight| && |prepared| <= 2 * |tasks|
      modifies this`submissions, this`tasks, this`count, this`prepared, this`inFlight, this`stop
      modifies this`firstException, this`started, this`threw, this`reports, this`submitFailed
      ensures submitFailed <==> old(submitFailed) || failed
      ensures Balanced() && (failed || AtHead())
      ensures started + submissions == old(started + submissions)
      ensures old(stop) ==> stop
      ensures stop ==> old(stop) || (oneQueueInvocation && count == 0 && (submissions == [] || firstException))
      ensures if old(stop) then started == old(started)
              else !failed ==> firstException || |tasks| >= limit || submissions == []
      ensures !failed ==> Load() <= old(Load() + |prepared|)
      ensures !failed && Load() == old(Load() + |prepared|) ==> count == old(count) + |old(prepared)|
      ensures !failed && Load() == old(Load()) && old(count) == 0 && old(prepared) == [] ==>
                oneQueueInvocation && limit > 0 ==> stop
      ensures old(reports) <= reports && old(started) <= started
    {
      hide Ledger, SendReceiver.Balanced, SendReceiver.Outstanding;
      if !stop && |tasks| < limit && !firstException {
        EmplaceRequests();
      }
      var cnt := Submit();
      if cnt < 0 {
        return true;
      }
      failed := false;
      count := count + cnt;
      if count == 0 {
        IdleMeansNoTask();
      }
      if oneQueueInvocation && (submissions == [] || firstException) && count == 0 {
        stop := true;
      }
    }

    /**
     `sendReceive`. It always comes back, if everybody is patient only so often, and how it comes back has one
     cause: a failed submit, or else a task that threw, or else a call of `stop`, or else that everything is
     done. Without the first two, every message it ever started has been reported exactly once and nothing is
     left in flight; a local run that nobody stopped has started its whole queue, in order.
     */
    method SendReceive(local: bool, oneQueueInvocation: bool, patience: nat) returns (exit: Exit)
      requires Usable()
      modifies this`submissions, this`tasks, this`count, this`prepared, this`inFlight, this`stop
      modifies this`firstException, this`connected, this`started, this`threw, this`reports, this`patience
      modifies this`stopCalled, this`submitFailed
      ensures Balanced() && old(reports) <= reports && old(started) <= started && exit == Cause()
      ensures local ==> started + submissions == old(started + submissions)
      ensures exit == Drained || exit == Stopped ==> Usable() && Clean()
      ensures exit == Drained ==> oneQueueInvocation
      ensures exit == Drained && local ==> submissions == [] && started == old(started + submissions)
      ensures exit == Rethrows ==> firstException && inFlight == multiset{}
      ensures connected <==> exit != Rethrows
      ensures exit != SubmitFailed ==> (stop <==> !oneQueueInvocation)
    {
      hide Ledger, SendReceiver.Balanced, SendReceiver.Outstanding;
      stop, count, firstException := false, 0, false;
      stopCalled, submitFailed := false, false;
      this.patience := patience;
      var failed, stopped := Loop(local, oneQueueInvocation);
      ExceptionIs();
      if failed {
        return SubmitFailed;
      }
      if oneQueueInvocation {
        stop := false;
      }
      NothingInFlight();
      if firstException {
        connected := false;
        return Rethrows;
      }
      exit := if stopped then Stopped else Drained;
    }

    lemma ExceptionIs()
      requires Balanced()
      ensures firstException <==> threw != {}
    {
    }

    /** The loop of `sendReceive`; a failed submit leaves it with an exception. */
    method Loop(local: bool, oneQueueInvocation: bool) returns (failed: bool, stopped: bool)
      requires AtHead() && connected && !stop && !stopCalled && !submitFailed
      modifies this`submissions, this`tasks, this`count, this`prepared, this`inFlight, this`stop
      modifies this`firstException, this`started, this`threw, this`reports, this`patience
      modifies this`stopCalled, this`submitFailed
      ensures failed == submitFailed && stopped == stopCalled
      ensures Balanced() && old(reports) <= reports && old(started) <= started
      ensures local ==> started + submissions == old(started + submissions)
      ensures !failed ==> AtHead() && count == 0 && stop
      ensures !failed ==> stopped || (oneQueueInvocation && (local ==> submissions == [] || firstException))
    {
      hide Ledger, SendReceiver.Balanced, SendReceiver.Outstanding;
      stopped := false;
      while true
        invariant AtHead() && stopped == stopCalled && !submitFailed
        invariant old(reports) <= reports && old(started) <= started
        invariant local ==> started + submissions == old(started + submissions)
        invariant stop ==>
                    stopped || (oneQueueInvocation && count == 0 && (local ==> submissions == [] || firstException))
        decreases patience, Load(), if stop then 0 else 1
      {
        var stops := OtherThreads(local, local && oneQueueInvocation && limit > 0);
        stopped := stopped || stops;
        if stop && count == 0 {
          return false, stopped;
        }
        failed := Pass(oneQueueInvocation);
        if failed {
          return;
        }
      }
    }

    /** No task is left and every message ever started was reported exactly once. */
    ghost predicate Clean()
      reads this`tasks, this`prepared, this`inFlight, this`reports, this`started
    {
      && tasks == [] && prepared == [] && inFlight == multiset{}
      && forall id: int {:trigger multiset(reports)[id]} :: multiset(reports)[id] == One(0 <= id < |started|)
    }

    lemma NothingInFlight()
      requires AtHead() && count == 0
      ensures inFlight == multiset{} && (!firstException ==> Clean())
    {
      if tasks != [] {
        var id := tasks[0];
        assert Outstanding()[Op(id)] == 0;
      }
    }

    lemma IdleMeansNoTask()
      requires AtHead() && count == 0
      ensures firstException || tasks == []
    {
      NothingInFlight();
    }
  }
}
