/** The state bookkeeping of `Transaction::processAsync` (`src/network/transaction.cpp`), with its rollback. */
module AsyncSend {
  import opened Wrappers
  import opened Multipart
  import opened Transaction

  /** What `processAsync` does to the state of an upload before it sends. */
  function Advance(s: State): State {
    match s case Sending => Processing case Validating => Default case _ => s
  }

  /** What it does to the state when the group refuses the messages. */
  function Rollback(s: State): State {
    match s case Processing => Sending case Default => Validating case _ => s
  }

  function AdvanceAll(states: seq<State>): seq<State> {
    seq(|states|, i requires 0 <= i < |states| => Advance(states[i]))
  }

  function RollbackAll(states: seq<State>): seq<State> {
    seq(|states|, i requires 0 <= i < |states| => Rollback(states[i]))
  }

  /** The messages due for the first `n` uploads. */
  function Due(states: seq<State>, parts: seq<nat>, n: nat): seq<Queued>
    requires n <= |states| == |parts|
  {
    if n == 0 then [] else Due(states, parts, n - 1) + DueOf(states[n - 1], parts[n - 1], n - 1)
  }

  function DueOf(state: State, parts: nat, upload: nat): seq<Queued> {
    match state
    case Sending => seq(parts, k requires 0 <= k => PartOf(upload, k))
    case Validating => [ClosingOf(upload)]
    case _ => []
  }

  lemma {:induction false} NothingDue(states: seq<State>, parts: seq<nat>, n: nat)
    requires n <= |states| == |parts| && (forall p | p in parts :: p >= 1)
    ensures Due(states, parts, n) == [] <==> forall i | 0 <= i < n :: states[i] != Sending && states[i] != Validating
  {
    if n > 0 {
      NothingDue(states, parts, n - 1);
      assert parts[n - 1] in parts;
    }
  }

  lemma NothingAdvanced(states: seq<State>, parts: seq<nat>)
    requires |states| == |parts| && (forall p | p in parts :: p >= 1) && Due(states, parts, |parts|) == []
    ensures AdvanceAll(states) == states
  {
    NothingDue(states, parts, |parts|);
  }

  /** Due are each part of an upload that is Sending and the closing request of one that is Validating, once. */
  lemma {:induction false} DueIs(states: seq<State>, parts: seq<nat>, n: nat, i: nat, k: nat, m: nat)
    requires n <= |states| == |parts|
    ensures var due := multiset(Due(states, parts, n));
            && due[PartOf(i, k)] == One(i < n && states[i] == Sending && k < parts[i])
            && due[ClosingOf(i)] == One(i < n && states[i] == Validating)
            && due[Original(m)] == 0
  {
    hide DueOf;
    if n > 0 {
      DueIs(states, parts, n - 1, i, k, m);
      var before, own := Due(states, parts, n - 1), DueOf(states[n - 1], parts[n - 1], n - 1);
      DueOfIs(states[n - 1], parts[n - 1], n - 1, i, k, m);
      assert Due(states, parts, n) == before + own;
      hide Due;
      assert multiset(before + own) == multiset(before) + multiset(own);
    }
  }

  lemma DueOfIs(state: State, parts: nat, upload: nat, i: nat, k: nat, m: nat)
    ensures var own := multiset(DueOf(state, parts, upload));
            && own[PartOf(i, k)] == One(i == upload && state == Sending && k < parts)
            && own[ClosingOf(i)] == One(i == upload && state == Validating)
            && own[Original(m)] == 0
  {
    PartsCount(upload, parts, i, k, m);
  }

  lemma {:induction false} PartsCount(upload: nat, n: nat, i: nat, k: nat, m: nat)
    ensures var all := multiset(seq(n, j requires 0 <= j => PartOf(upload, j)));
            && all[PartOf(i, k)] == One(i == upload && k < n)
            && all[ClosingOf(i)] == all[Original(m)] == 0
  {
    var all := seq(n, j requires 0 <= j => PartOf(upload, j));
    if n > 0 {
      PartsCount(upload, n - 1, i, k, m);
      assert all == seq(n - 1, j requires 0 <= j => PartOf(upload, j)) + [PartOf(upload, n - 1)];
    }
  }

  /** An upload after a send that was accepted. */
  function Accepted(u: Upload): Upload {
    match u.state case Sending => SendParts(u) case Validating => SendClosing(u) case _ => u
  }

  /**
   An accepted send takes each upload through the steps of the user thread: it sends what is due, and the state
   it leaves is the one `processAsync` stores.
   */
  lemma AcceptedIsPath(u: Upload) returns (run: seq<Upload>)
    requires u.user == Polling && (u.state == Validating ==> u.closing.Some?)
    ensures Path(run, u, Accepted(u)) && Accepted(u).state == Advance(u.state)
    ensures u.state == Sending ==> Accepted(u).parts == seq(|u.parts|, _ => InFlight)
    ensures u.state == Validating ==> Accepted(u).close == CloseInFlight
    ensures u.state != Sending && u.state != Validating ==> Accepted(u) == u
  {
    if u.state == Sending {
      run := SendPartsPath(u);
    } else if u.state == Validating {
      run := SendClosingPath(u);
    } else {
      run := [u];
    }
  }

  class AsyncSender {
    var messageCount: nat
    var messageCounter: nat
    var states: seq<State>
    var parts: seq<nat>

    /** One call of `processAsync`; `accepted` is what the group's queue answers. */
    method ProcessAsync(accepted: bool) returns (success: bool, submissions: seq<Queued>)
      requires messageCounter <= messageCount && |states| == |parts| && forall p | p in parts :: p >= 1
      modifies this`messageCounter, this`states
      ensures submissions == seq(messageCount - old(messageCounter),
          m requires 0 <= m => Original(old(messageCounter) + m))
                             + Due(old(states), parts, |parts|)
      ensures success == (submissions == [] || accepted)
      ensures messageCounter == if success then messageCount else old(messageCounter)
      ensures states == if success then AdvanceAll(old(states)) else RollbackAll(AdvanceAll(old(states)))
    {
      var previousCounter := messageCounter;
      submissions := Originals();
      ghost var states0 := states;
      var due := DueUploads();
      hide Due, AdvanceAll, RollbackAll;
      submissions := submissions + due;
      if submissions == [] {
        NothingAdvanced(states0, parts);
        return true, submissions;
      }
      success := accepted;
      if !success {
        messageCounter := previousCounter;
        Restore(states0);
      }
    }

    /** All messages that are new since the last send. */
    method Originals() returns (submissions: seq<Queued>)
      requires messageCounter <= messageCount
      modifies this`messageCounter
      ensures messageCounter == messageCount
      ensures submissions == seq(messageCount - old(messageCounter),
          m requires 0 <= m => Original(old(messageCounter) + m))
    {
      submissions := [];
      while messageCounter < messageCount
        invariant old(messageCounter) <= messageCounter <= messageCount
        invariant submissions == seq(messageCounter - old(messageCounter),
            m requires 0 <= m => Original(old(messageCounter) + m))
      {
        submissions := submissions + [Original(messageCounter)];
        messageCounter := messageCounter + 1;
      }
    }

    /** What each upload has due, with its new state stored. */
    method DueUploads() returns (submissions: seq<Queued>)
      requires |states| == |parts|
      modifies this`states
      ensures submissions == Due(old(states), parts, |parts|) && states == AdvanceAll(old(states))
    {
      submissions := [];
      var i := 0;
      while i < |states|
        invariant i <= |states| == |old(states)| == |parts|
        invariant submissions == Due(old(states), parts, i)
        invariant forall j | 0 <= j < |states| :: states[j] == if j < i then Advance(old(states)[j]) else old(states)[j]
      {
        if states[i] == Sending {
          submissions := submissions + seq(parts[i], k requires 0 <= k => PartOf(i, k));
          states := states[i := Processing];
        } else if states[i] == Validating {
          submissions := submissions + [ClosingOf(i)];
          states := states[i := Default];
        }
        i := i + 1;
      }
    }

    /** What a refused send does to the uploads. */
    method Restore(ghost states0: seq<State>)
      requires states == AdvanceAll(states0)
      modifies this`states
      ensures states == RollbackAll(AdvanceAll(states0))
    {
      var i := 0;
      while i < |states|
        invariant i <= |states| == |states0|
        invariant forall j | 0 <= j < |states| ::
                    states[j] == if j < i then Rollback(Advance(states0[j])) else Advance(states0[j])
      {
        if states[i] == Processing {
          states := states[i := Sending];
        } else if states[i] == Default {
          states := states[i := Validating];
        }
        i := i + 1;
      }
    }
  }

  // ---------------------------------------------------------------- what a refused send does to the uploads

  /** An upload after a refused send that no other thread came between. */
  function Refused(u: Upload): Upload {
    u.(state := Rollback(Advance(u.state)))
  }

  function StatesOf(us: seq<Upload>): seq<State> {
    seq(|us|, i requires 0 <= i < |us| => us[i].state)
  }

  function RefusedAll(us: seq<Upload>): seq<Upload> {
    seq(|us|, i requires 0 <= i < |us| => Refused(us[i]))
  }

  /** What `ProcessAsync` says of the states is what happens to the uploads. */
  lemma RefusedStates(us: seq<Upload>)
    ensures StatesOf(RefusedAll(us)) == RollbackAll(AdvanceAll(StatesOf(us)))
  {
  }

  /** In each phase of an upload only one of the states is possible, so a changed one does not fit. */
  lemma RefusedKeepsIff(u: Upload)
    requires Inv(u) && u.user == Polling
    ensures Inv(Refused(u)) <==> u.state != Processing && u.state != Default
    ensures Refused(u) == u <==> u.state != Processing && u.state != Default
  {
    hide RightClosing, PartInv, CountUnreported;
    var v := Refused(u);
    if u.state == Processing {
      assert !PhaseInv(v);
    } else if u.state == Default {
      assert !PhaseInv(v);
    } else {
      assert v == u;
    }
  }

  /**
   A refused send keeps the uploads in order, and then leaves all of them as they were, exactly when none
   was Processing or Default before the call: the rollback also turns those that this call did not touch.
   */
  lemma RefusedSendRestoresIff(us: seq<Upload>)
    requires forall u | u in us :: Inv(u) && u.user == Polling
    ensures (forall u | u in RefusedAll(us) :: Inv(u))
            <==> forall u | u in us :: u.state != Processing && u.state != Default
    ensures RefusedAll(us) == us <==> forall u | u in us :: u.state != Processing && u.state != Default
  {
    hide Inv, Refused;
    var r := RefusedAll(us);
    forall i | 0 <= i < |us|
      ensures Inv(r[i]) <==> us[i].state != Processing && us[i].state != Default
      ensures r[i] == us[i] <==> us[i].state != Processing && us[i].state != Default
    {
      assert us[i] in us && r[i] in r;
      RefusedKeepsIff(us[i]);
    }
  }

  /** The thread that stored a state undoes its own store at any later time: until it queues, no other changes it. */
  lemma OwnStoreUndone(u: Upload)
    requires Inv(u) && (u.user == StoredProcessing || u.user == StoredDefault)
    ensures Inv(u.(user := Polling, state := Rollback(u.state)))
    ensures Rollback(u.state) == if u.user == StoredProcessing then Sending else Validating
  {
    var v := u.(user := Polling, state := Rollback(u.state));
    forall k | 0 <= k < |v.parts| ensures PartInv(v, k) {
      assert PartInv(u, k);
    }
  }

  /** An upload right after the rollback has come to it, whatever other threads did since the send began. */
  function RolledBack(u: Upload): Upload {
    u.(user := Polling, state := Rollback(u.state))
  }

  /**
   At whatever instant the rollback comes to an upload, it leaves it in a state of the protocol exactly if
   it undoes a store of this very call or finds neither Processing nor Default.
   */
  lemma RollbackKeepsIff(u: Upload)
    requires Inv(u) && (u.user == Polling || u.user == StoredProcessing || u.user == StoredDefault)
    ensures Inv(RolledBack(u)) <==> u.user != Polling || (u.state != Processing && u.state != Default)
  {
    hide Inv;
    if u.user == Polling {
      RefusedKeepsIff(u);
      assert RolledBack(u) == Refused(u);
    } else {
      OwnStoreUndone(u);
    }
  }

  /** The user thread goes on from `u` to `v` alone. */
  ghost predicate UserSteps(run: seq<Upload>, u: Upload, v: Upload) {
    && |run| >= 1 && run[0] == u && run[|run| - 1] == v
    && forall i | 0 <= i < |run| - 1 :: UserStep(run[i], run[i + 1])
  }

  /**
   An upload that has just been put, whose create request the group refuses: the user thread takes it for
   one to be completed and gets stuck sending a closing request that does not exist.
   */
  lemma RefusedSendBreaksFreshUpload(u: Upload) returns (run: seq<Upload>)
    requires Fresh(u)
    ensures run != [] && UserSteps(run, Refused(u), run[|run| - 1])
    ensures var v := run[|run| - 1];
            v.user == StoredDefault && v.closing == None && v.create == NotQueued && forall w :: !UserStep(v, w)
  {
    var u0 := Refused(u);
    var u1 := u0.(user := SawValidating);
    var u2 := u1.(user := StoredDefault, state := Default);
    run := [u0, u1, u2];
  }

  /** An upload whose parts are on their way when the group refuses other messages: all parts are sent again. */
  lemma RefusedSendRepeatsParts(u: Upload) returns (run: seq<Upload>)
    requires Inv(u) && u.user == Polling && u.state == Processing
    ensures run != [] && UserSteps(run, Refused(u), run[|run| - 1])
    ensures forall k | 0 <= k < |u.parts| :: u.parts[k] != Unsent
    ensures |u.parts| >= 1 && run[|run| - 1].parts == seq(|u.parts|, _ => InFlight)
  {
    var u0 := Refused(u);
    var u1 := u0.(user := SawSending);
    var u2 := u1.(user := StoredProcessing, state := Processing);
    var u3 := u2.(user := Polling, parts := seq(|u.parts|, _ => InFlight));
    run := [u0, u1, u2, u3];
  }
}
