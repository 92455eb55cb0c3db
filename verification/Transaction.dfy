/**
 `Transaction::processSync` of `src/network/transaction.cpp` with the callbacks of
 `include/network/transaction.hpp`, run by one thread, and the state bookkeeping of `processAsync`.
 Every callback is proved to be a run of the steps of `Multipart`.
 */
module Transaction {
  import opened Wrappers
  import opened Multipart
  import opened Sequences
  import Scheduler

  // ---------------------------------------------------------------- callbacks as runs of the machine

  /** The callback of part `k` from where it stands to its end. */
  function RunPart(u: Upload, k: nat): Upload
    requires k < |u.parts| == |u.outcomes| == |u.eTags|
    decreases Rank(u.parts[k])
  {
    if u.parts[k] == Done || u.parts[k] == Unsent then u else RunPart(PartNext(u, k), k)
  }

  function RunCreate(u: Upload): Upload {
    if u.createAnswer then u.(create := Created, state := Sending)
    else u.(create := CreateEnded, verdict := Some(CreateFailed), callbacks := u.callbacks + 1)
  }

  function RunClose(u: Upload): Upload
    requires u.closing.Some?
  {
    u.(close := CloseEnded, verdict := Some(CloseVerdict(u)), callbacks := u.callbacks + 1)
  }

  function SendParts(u: Upload): Upload {
    u.(state := Processing, parts := seq(|u.parts|, _ => InFlight))
  }

  function SendClosing(u: Upload): Upload {
    u.(state := Default, close := CloseInFlight)
  }

  /** No thread is inside a callback or between two statements of the user thread. */
  predicate Coarse(u: Upload) {
    && u.user == Polling
    && !u.create.Building? && !u.create.CreateCounted? && !u.close.CloseCounted?
    && forall k {:trigger u.parts[k]} | 0 <= k < |u.parts| ::
         u.parts[k] == Unsent || u.parts[k] == InFlight || u.parts[k] == Done
  }

  lemma {:induction false} RunPartKeeps(u: Upload, k: nat)
    requires Inv(u) && k < |u.parts| && u.parts[k] != Unsent
    ensures var v := RunPart(u, k);
            && Inv(v) && v.parts == u.parts[k := Done]
            && v.create == u.create && v.user == u.user && v.close == u.close && SameAnswers(v, u)
    decreases Rank(u.parts[k])
  {
    if u.parts[k] != Done {
      var v := PartNext(u, k);
      OnlyPart(u, k);
      PartKeeps(u, v, k);
      InvSizes(v);
      RunPartKeeps(v, k);
      hide *;
      assert v.parts[k := Done] == u.parts[k := Done];
    }
  }

  lemma InvSizes(u: Upload)
    requires Inv(u)
    ensures |u.parts| == |u.outcomes| == |u.eTags|
  {
  }

  /** A step of the callback of part `k` touches no other program counter. */
  lemma OnlyPart(u: Upload, k: nat)
    requires k < |u.parts| == |u.outcomes| == |u.eTags| && u.parts[k] != Unsent && u.parts[k] != Done
    ensures var v := PartNext(u, k);
            && v.parts == u.parts[k := v.parts[k]] && v.parts[k] != Unsent
            && v.create == u.create && v.user == u.user && v.close == u.close && SameAnswers(v, u)
  {
  }

  // The callbacks and the halves of `sendAll` are runs of the machine in which no other thread takes a step.

  lemma {:induction false} PartPath(u: Upload, k: nat) returns (run: seq<Upload>)
    requires k < |u.parts| == |u.outcomes| == |u.eTags| && u.parts[k] != Unsent
    ensures Path(run, u, RunPart(u, k))
    decreases Rank(u.parts[k])
  {
    if u.parts[k] == Done {
      run := [u];
    } else {
      var v := PartNext(u, k);
      OnlyPart(u, k);
      SizesStay(u, k);
      run := PartPath(v, k);
      assert PartStep(u, v, k) && RunPart(u, k) == RunPart(v, k);
      PathCons(u, run, v, RunPart(v, k));
      run := [u] + run;
    }
  }

  lemma SizesStay(u: Upload, k: nat)
    requires k < |u.parts| == |u.outcomes| == |u.eTags|
    ensures var v := PartNext(u, k); |v.parts| == |v.outcomes| == |v.eTags| == |u.parts|
    ensures u.parts[k] != Unsent && u.parts[k] != Done ==> Rank(PartNext(u, k).parts[k]) < Rank(u.parts[k])
  {
  }

  lemma {:induction false} BuildingPath(u: Upload, k: nat) returns (run: seq<Upload>)
    requires u.create == Building(k) && k <= |u.parts|
    ensures Path(run, u, u.(create := Created, state := Sending))
    decreases |u.parts| - k
  {
    var end := u.(create := Created, state := Sending);
    if k < |u.parts| {
      var v := u.(create := Building(k + 1));
      run := BuildingPath(v, k + 1);
      assert v.(create := Created, state := Sending) == end;
      PathCons(u, run, v, end);
      run := [u] + run;
    } else {
      run := [u, end];
    }
  }

  lemma CreatePath(u: Upload) returns (run: seq<Upload>)
    requires u.create == CreateInFlight
    ensures Path(run, u, RunCreate(u))
  {
    if u.createAnswer {
      var v := u.(create := Building(0));
      run := BuildingPath(v, 0);
      assert v.(create := Created, state := Sending) == RunCreate(u);
      PathCons(u, run, v, RunCreate(u));
      run := [u] + run;
    } else {
      run := [u, u.(create := CreateCounted, verdict := Some(CreateFailed)), RunCreate(u)];
    }
  }

  lemma ClosePath(u: Upload) returns (run: seq<Upload>)
    requires u.close == CloseInFlight && u.closing.Some?
    ensures Path(run, u, RunClose(u))
  {
    run := [u, u.(close := CloseCounted, verdict := Some(CloseVerdict(u))), RunClose(u)];
  }

  lemma SendPartsPath(u: Upload) returns (run: seq<Upload>)
    requires u.user == Polling && u.state == Sending
    ensures Path(run, u, SendParts(u))
  {
    run := [u, u.(user := SawSending), u.(user := StoredProcessing, state := Processing), SendParts(u)];
    assert UserStep(run[0], run[1]) && UserStep(run[1], run[2]) && UserStep(run[2], run[3]);
  }

  lemma SendClosingPath(u: Upload) returns (run: seq<Upload>)
    requires u.user == Polling && u.state == Validating && u.closing.Some?
    ensures Path(run, u, SendClosing(u))
  {
    run := [u, u.(user := SawValidating), u.(user := StoredDefault, state := Default), SendClosing(u)];
    assert UserStep(run[0], run[1]) && UserStep(run[1], run[2]) && UserStep(run[2], run[3]);
  }

  lemma RunCreateKeeps(u: Upload)
    requires Inv(u) && u.create == CreateInFlight
    ensures Inv(RunCreate(u))
    ensures AllParts(u, Unsent) && u.close == NotSent && u.user == Polling
  {
    var run := CreatePath(u);
    PathKeeps(run, u, RunCreate(u));
  }

  lemma RunCloseKeeps(u: Upload)
    requires Inv(u) && u.close == CloseInFlight && u.closing.Some?
    ensures Inv(RunClose(u)) && u.create.Created? && !Ended(u)
  {
    var run := ClosePath(u);
    PathKeeps(run, u, RunClose(u));
  }

  lemma SendPartsKeeps(u: Upload)
    requires Inv(u) && u.user == Polling && u.state == Sending
    ensures Inv(SendParts(u)) && AllParts(u, Unsent) && u.create.Created? && u.close == NotSent && |u.parts| >= 1
  {
    var run := SendPartsPath(u);
    PathKeeps(run, u, SendParts(u));
  }

  lemma SendClosingKeeps(u: Upload)
    requires Inv(u) && u.user == Polling && u.state == Validating
    ensures Inv(SendClosing(u)) && u.close == NotSent && AllParts(u, Done) && u.create.Created?
  {
    var run := SendClosingPath(u);
    PathKeeps(run, u, SendClosing(u));
  }

  /** What the callback of part `k` does when nothing interferes, in one go. */
  function AfterRecording(u: Upload, k: nat): Upload
    requires k < |u.parts| == |u.outcomes| == |u.eTags|
  {
    match u.outcomes[k]
    case Failed => u.(errorMessageId := k, state := Aborted, parts := u.parts[k := Report])
    case Tag(t) => u.(eTags := u.eTags[k := t], parts := u.parts[k := Report])
  }

  function AfterReport(u: Upload, k: nat): Upload
    requires k < |u.parts|
  {
    var v := u.(outstanding := u.outstanding - 1, parts := u.parts[k := Done]);
    if u.outstanding != 1 then v
    else v.(closing := Some(if u.state != Aborted then Complete(u.eTags) else Abort), state := Validating)
  }

  lemma OneRun(u: Upload, k: nat)
    requires k < |u.parts| == |u.outcomes| == |u.eTags| && u.parts[k] != Done && u.parts[k] != Unsent
    ensures RunPart(u, k) == RunPart(PartNext(u, k), k)
  {
  }

  lemma RecordRun(u: Upload, k: nat)
    requires k < |u.parts| == |u.outcomes| == |u.eTags| && u.parts[k] == InFlight
    ensures RunPart(u, k) == RunPart(AfterRecording(u, k), k)
  {
    hide RunPart;
    var u1 := PartNext(u, k);
    OneRun(u, k);
    OneRun(u1, k);
    if u.outcomes[k].Failed? {
      var u2 := PartNext(u1, k);
      OneRun(u2, k);
      assert PartNext(u2, k) == AfterRecording(u, k);
    } else {
      assert PartNext(u1, k) == AfterRecording(u, k);
    }
  }

  lemma ReportRun(u: Upload, k: nat)
    requires k < |u.parts| == |u.outcomes| == |u.eTags| && u.parts[k] == Report
    ensures RunPart(u, k) == AfterReport(u, k)
  {
    var u1 := PartNext(u, k);
    OneRun(u, k);
    if u.outstanding == 1 {
      LastRun(u, k);
    } else {
      assert u1 == AfterReport(u, k);
    }
  }

  lemma LastRun(u: Upload, k: nat)
    requires k < |u.parts| == |u.outcomes| == |u.eTags| && u.parts[k] == Report && u.outstanding == 1
    ensures RunPart(PartNext(u, k), k) == AfterReport(u, k)
  {
    var u1 := PartNext(u, k);
    var u2 := PartNext(u1, k);
    var u3 := PartNext(u2, k);
    OneRun(u1, k);
    OneRun(u2, k);
    OneRun(u3, k);
    hide RunPart;
    assert PartNext(u3, k) == AfterReport(u, k);
    EndedRun(AfterReport(u, k), k);
  }

  lemma EndedRun(u: Upload, k: nat)
    requires k < |u.parts| == |u.outcomes| == |u.eTags| && u.parts[k] == Done
    ensures RunPart(u, k) == u
  {
  }

  lemma PartRun(u: Upload, k: nat)
    requires k < |u.parts| == |u.outcomes| == |u.eTags| && u.parts[k] == InFlight
    ensures RunPart(u, k) == AfterReport(AfterRecording(u, k), k)
  {
    RecordRun(u, k);
    ReportRun(AfterRecording(u, k), k);
  }

  /** The fields of the source's struct, updated in place; the ghost fields complete the machine state. */
  class MultipartUpload {
    var state: State
    var outstanding: int
    var eTags: seq<string>
    var errorMessageId: nat
    var closing: Option<Closing>
    ghost var create: CreatePc
    ghost var parts: seq<PartPc>
    ghost var close: ClosePc
    /** What the server will answer to each part request, to the create and to the closing request. */
    const outcomes: seq<Outcome>
    const createAnswer: bool
    const closeAnswer: bool
    ghost var callbacks: nat
    ghost var verdict: Option<Verdict>

    ghost function View(): Upload
      reads this
    {
      Upload(state, outstanding, eTags, errorMessageId, closing, create, parts, Polling, close,
             outcomes, createAnswer, closeAnswer, callbacks, verdict)
    }

    constructor (count: nat, answers: seq<Outcome>, createAnswer: bool, closeAnswer: bool)
      requires |answers| == count
      ensures Initial(View()) && outcomes == answers
      ensures this.createAnswer == createAnswer && this.closeAnswer == closeAnswer
    {
      state, outstanding, errorMessageId, closing := Default, count, 0, None;
      eTags := seq(count, _ => "");
      create, parts, close := NotQueued, seq(count, _ => Unsent), NotSent;
      outcomes, callbacks, verdict := answers, 0, None;
      this.createAnswer, this.closeAnswer := createAnswer, closeAnswer;
    }

    /** The create callback. */
    method CreateFinished(success: bool) returns (counted: bool)
      requires create == CreateInFlight && createAnswer == success
      modifies this
      ensures View() == RunCreate(old(View()))
      ensures counted == !success
    {
      if !success {
        counted := true;
        create, verdict, callbacks := CreateEnded, Some(CreateFailed), callbacks + 1;
        return;
      }
      counted := false;
      create := Created;
      state := Sending;
    }

    /** The callback of part `k`. */
    method PartFinished(k: nat, result: Outcome)
      requires k < |parts| == |outcomes| == |eTags| && parts[k] == InFlight && outcomes[k] == result
      modifies this
      ensures View() == RunPart(old(View()), k)
    {
      hide RunPart, PartNext;
      ghost var u := View();
      match result {
        case Failed =>
          errorMessageId := k;
          state := Aborted;
        case Tag(t) =>
          eTags := eTags[k := t];
      }
      var before := outstanding;
      outstanding := outstanding - 1;
      if before == 1 {
        closing := Some(if state != Aborted then Complete(eTags) else Abort);
        state := Validating;
      }
      parts := parts[k := Done];
      PartRun(u, k);
      assert View() == AfterReport(AfterRecording(u, k), k);
    }

    /** The callback of the closing request. */
    method CloseFinished(success: bool)
      requires closing.Some? && closeAnswer == success
      modifies this
      ensures View() == RunClose(old(View()))
    {
      verdict := Some(match closing.value
                      case Abort => PartFailed(errorMessageId)
                      case Complete(_) => if success then Success else ClosingFailed);
      callbacks := callbacks + 1;
      close := CloseEnded;
    }
  }

  // ---------------------------------------------------------------- the whole transaction

  /** Whom an entry of `_messages` belongs to. */
  datatype Owner = Plain | CreateOf(upload: nat)

  /** A message handed to `sendSync`. */
  datatype Queued = Original(m: nat) | PartOf(upload: nat, k: nat) | ClosingOf(upload: nat)

  /** A transaction seen as a value; `queued` is everything ever handed to the queue. */
  datatype Tx = Tx(
    uploads: seq<Upload>, completed: nat, pending: multiset<Queued>, queued: multiset<Queued>,
    counter: nat, messages: seq<Owner>, createAt: seq<nat>)

  function CountEnded(us: seq<Upload>): nat {
    if us == [] then 0 else CountEnded(us[..|us| - 1]) + One(Ended(us[|us| - 1]))
  }

  lemma {:induction false} CountEndedUpdate(us: seq<Upload>, i: nat, u: Upload)
    requires i < |us|
    ensures CountEnded(us[i := u]) == CountEnded(us) - One(Ended(us[i])) + One(Ended(u))
  {
    var m := |us| - 1;
    if i == m {
      assert us[i := u][..m] == us[..m];
    } else {
      assert us[i := u][..m] == us[..m][i := u];
      CountEndedUpdate(us[..m], i, u);
    }
  }

  lemma {:induction false} AllEnded(us: seq<Upload>)
    ensures CountEnded(us) <= |us|
    ensures CountEnded(us) == |us| <==> forall i | 0 <= i < |us| :: Ended(us[i])
  {
    if us != [] {
      AllEnded(us[..|us| - 1]);
    }
  }

  /** The queue agrees with upload `i`: what is in flight is queued once, what was sent was queued once. */
  ghost predicate UploadOk(t: Tx, i: nat)
    requires i < |t.uploads| == |t.createAt|
  {
    var u := t.uploads[i];
    && Inv(u) && Coarse(u)
    && t.createAt[i] < |t.messages| && t.messages[t.createAt[i]] == CreateOf(i)
    && (u.create == NotQueued <==> t.createAt[i] >= t.counter)
    && t.pending[Original(t.createAt[i])] == One(u.create == CreateInFlight)
    && t.pending[ClosingOf(i)] == One(u.close == CloseInFlight)
    && t.queued[ClosingOf(i)] == One(u.close != NotSent)
    && forall k: nat {:trigger PartOf(i, k)} ::
         && t.pending[PartOf(i, k)] == One(k < |u.parts| && u.parts[k] == InFlight)
         && t.queued[PartOf(i, k)] == One(k < |u.parts| && u.parts[k] != Unsent)
  }

  ghost predicate Known(t: Tx, q: Queued) {
    match q
    case Original(m) => m < t.counter
    case PartOf(i, _) => i < |t.uploads|
    case ClosingOf(i) => i < |t.uploads|
  }

  ghost predicate TxInv(t: Tx) {
    && |t.uploads| == |t.createAt| && t.counter <= |t.messages|
    && (forall m {:trigger t.messages[m]} | 0 <= m < |t.messages| && t.messages[m].CreateOf? ::
          t.messages[m].upload < |t.uploads| && t.createAt[t.messages[m].upload] == m)
    && (forall i | 0 <= i < |t.uploads| :: UploadOk(t, i))
    && t.completed == CountEnded(t.uploads)
    && (forall m: nat {:trigger Original(m)} :: t.queued[Original(m)] == One(m < t.counter))
    && (forall q | q in t.pending :: Known(t, q))
    && forall q | q in t.queued :: Known(t, q)
  }

  /** How many rounds an upload still needs once its callbacks in flight have run. */
  function Stage(u: Upload): nat {
    if Ended(u) then 0
    else if u.create == NotQueued then 3
    else if AllParts(u, Unsent) then 2
    else if u.close == NotSent then 1
    else 0
  }

  predicate StageAtMost(t: Tx, b: int) {
    forall i {:trigger t.uploads[i]} | 0 <= i < |t.uploads| :: Stage(t.uploads[i]) <= b
  }

  // ---------------------------------------------------------------- the operations on values

  function Resend(t: Tx, i: nat, u: Upload, msgs: multiset<Queued>): Tx
    requires i < |t.uploads|
  {
    t.(uploads := t.uploads[i := u], pending := t.pending + msgs, queued := t.queued + msgs)
  }

  function SendOriginal(t: Tx): Tx
    requires t.counter < |t.messages|
    requires t.messages[t.counter].CreateOf? ==> t.messages[t.counter].upload < |t.uploads|
  {
    var q := multiset{Original(t.counter)};
    var t' := t.(counter := t.counter + 1, pending := t.pending + q, queued := t.queued + q);
    match t.messages[t.counter]
    case Plain => t'
    case CreateOf(i) => t'.(uploads := t.uploads[i := t.uploads[i].(create := CreateInFlight)])
  }

  lemma SendOriginalKeeps(t: Tx, b: nat)
    requires TxInv(t) && t.counter < |t.messages| && StageAtMost(t, b)
    ensures TxInv(SendOriginal(t)) && StageAtMost(SendOriginal(t), b)
  {
    hide Inv;
    match t.messages[t.counter] {
      case Plain => SendPlainKeeps(t, b);
      case CreateOf(i) => SendCreateKeeps(t, i, b);
    }
  }

  lemma SendPlainKeeps(t: Tx, b: nat)
    requires TxInv(t) && t.counter < |t.messages| && t.messages[t.counter] == Plain && StageAtMost(t, b)
    ensures TxInv(SendOriginal(t)) && StageAtMost(SendOriginal(t), b)
  {
    hide Inv;
    forall j | 0 <= j < |t.uploads| ensures UploadOk(SendOriginal(t), j) {
      assert UploadOk(t, j);
    }
  }

  lemma SendCreateKeeps(t: Tx, i: nat, b: nat)
    requires TxInv(t) && t.counter < |t.messages| && t.messages[t.counter] == CreateOf(i) && StageAtMost(t, b)
    ensures TxInv(SendOriginal(t)) && StageAtMost(SendOriginal(t), b)
  {
    hide Inv, CountEnded, Stage;
    var t' := SendOriginal(t);
    assert UploadOk(t, i);
    CreateKeeps(t.uploads[i], t'.uploads[i]);
    CountEndedUpdate(t.uploads, i, t'.uploads[i]);
    QueuedStage(t.uploads[i]);
    forall j | 0 <= j < |t'.uploads| ensures UploadOk(t', j) {
      assert UploadOk(t, j);
    }
  }

  lemma QueuedStage(u: Upload)
    requires u.create == NotQueued
    ensures Stage(u.(create := CreateInFlight)) <= Stage(u)
  {
  }

  /** The messages of parts `0..n` of upload `i`. */
  function PartsOf(i: nat, n: nat): multiset<Queued> {
    if n == 0 then multiset{} else PartsOf(i, n - 1) + multiset{PartOf(i, n - 1)}
  }

  lemma {:induction false} PartsOfCount(i: nat, n: nat)
    ensures forall q :: PartsOf(i, n)[q] == One(q.PartOf? && q.upload == i && q.k < n)
  {
    if n > 0 {
      PartsOfCount(i, n - 1);
    }
  }

  function SendAllParts(t: Tx, i: nat): Tx
    requires i < |t.uploads|
  {
    Resend(t, i, SendParts(t.uploads[i]), PartsOf(i, |t.uploads[i].parts|))
  }

  lemma SendAllPartsKeeps(t: Tx, i: nat)
    requires TxInv(t) && i < |t.uploads| && t.uploads[i].state == Sending
    ensures TxInv(SendAllParts(t, i)) && Stage(SendAllParts(t, i).uploads[i]) == 1 == Stage(t.uploads[i]) - 1
    ensures SendAllParts(t, i).uploads[i].create == Created
  {
    hide Inv;
    var u, t' := t.uploads[i], SendAllParts(t, i);
    assert UploadOk(t, i);
    SendPartsKeeps(u);
    assert t'.uploads[i].parts[0] == InFlight;
    PartsOfCount(i, |u.parts|);
    CountEndedUpdate(t.uploads, i, t'.uploads[i]);
    forall j | 0 <= j < |t'.uploads| ensures UploadOk(t', j) {
      assert UploadOk(t, j);
    }
  }

  function SendTheClosing(t: Tx, i: nat): Tx
    requires i < |t.uploads|
  {
    Resend(t, i, SendClosing(t.uploads[i]), multiset{ClosingOf(i)})
  }

  lemma SendTheClosingKeeps(t: Tx, i: nat)
    requires TxInv(t) && i < |t.uploads| && t.uploads[i].state == Validating
    ensures TxInv(SendTheClosing(t, i)) && Stage(SendTheClosing(t, i).uploads[i]) == 0
    ensures Stage(t.uploads[i]) == 1 && SendTheClosing(t, i).uploads[i].create == Created
  {
    hide Inv;
    var u, t' := t.uploads[i], SendTheClosing(t, i);
    assert UploadOk(t, i);
    SendClosingKeeps(u);
    assert u.parts[0] == Done;
    CountEndedUpdate(t.uploads, i, t'.uploads[i]);
    forall j | 0 <= j < |t'.uploads| ensures UploadOk(t', j) {
      assert UploadOk(t, j);
    }
  }

  /** The callback of a queued message runs, on the answer the server gives to it. */
  function Execute(t: Tx, q: Queued): Tx
    requires q.Original? ==> q.m < |t.messages| && (t.messages[q.m].CreateOf? ==> t.messages[q.m].upload < |t.uploads|)
    requires q.PartOf? ==>
               && q.upload < |t.uploads| && q.k < |t.uploads[q.upload].parts|
               && |t.uploads[q.upload].parts| == |t.uploads[q.upload].outcomes| == |t.uploads[q.upload].eTags|
    requires q.ClosingOf? ==> q.upload < |t.uploads| && t.uploads[q.upload].closing.Some?
  {
    var t' := t.(pending := t.pending - multiset{q});
    match q
    case Original(m) =>
      (match t.messages[m]
       case Plain => t'
       case CreateOf(i) =>
         t'.(uploads := t.uploads[i := RunCreate(t.uploads[i])],
             completed := t.completed + One(!t.uploads[i].createAnswer)))
    case PartOf(i, k) => t'.(uploads := t.uploads[i := RunPart(t.uploads[i], k)])
    case ClosingOf(i) =>
      t'.(uploads := t.uploads[i := RunClose(t.uploads[i])], completed := t.completed + 1)
  }

  lemma ExecuteClosing(t: Tx, i: nat)
    requires i < |t.uploads| && t.uploads[i].closing.Some?
    ensures Execute(t, ClosingOf(i)) ==
            t.(pending := t.pending - multiset{ClosingOf(i)}, completed := t.completed + 1,
               uploads := t.uploads[i := RunClose(t.uploads[i])])
  {
  }

  predicate InFlightIn(t: Tx, q: Queued) {
    match q
    case Original(m) =>
      m < |t.messages| && (t.messages[m].CreateOf? ==>
        t.messages[m].upload < |t.uploads| && t.uploads[t.messages[m].upload].create == CreateInFlight)
    case PartOf(i, k) =>
      && i < |t.uploads| && k < |t.uploads[i].parts| && t.uploads[i].parts[k] == InFlight
      && |t.uploads[i].parts| == |t.uploads[i].outcomes| == |t.uploads[i].eTags|
    case ClosingOf(i) => i < |t.uploads| && t.uploads[i].close == CloseInFlight && t.uploads[i].closing.Some?
  }

  /** A queued message really is in flight. */
  lemma PendingInFlight(t: Tx, q: Queued)
    requires TxInv(t) && q in t.pending
    ensures InFlightIn(t, q)
  {
    assert Known(t, q);
    match q {
      case Original(m) =>
        if t.messages[m].CreateOf? {
          assert UploadOk(t, t.messages[m].upload);
        }
      case PartOf(i, k) => assert UploadOk(t, i);
      case ClosingOf(i) => assert UploadOk(t, i);
    }
  }

  lemma ExecutePending(t: Tx, q: Queued)
    requires InFlightIn(t, q)
    ensures Execute(t, q).pending == t.pending - multiset{q}
  {
    hide RunCreate, RunPart, RunClose;
  }

  lemma ExecuteCreateKeeps(t: Tx, m: nat, b: nat)
    requires TxInv(t) && Original(m) in t.pending && StageAtMost(t, b) && m < |t.messages|
    requires t.messages[m].CreateOf? ==>
          t.messages[m].upload < |t.uploads| && t.uploads[t.messages[m].upload].create == CreateInFlight
    ensures TxInv(Execute(t, Original(m))) && StageAtMost(Execute(t, Original(m)), b)
  {
    hide Inv;
    var t' := Execute(t, Original(m));
    if t.messages[m].CreateOf? {
      var i := t.messages[m].upload;
      assert UploadOk(t, i);
      RunCreateKeeps(t.uploads[i]);
      CountEndedUpdate(t.uploads, i, t'.uploads[i]);
    }
    forall j | 0 <= j < |t'.uploads| ensures UploadOk(t', j) {
      assert UploadOk(t, j);
    }
  }

  lemma ExecutePartKeeps(t: Tx, i: nat, k: nat, b: nat)
    requires TxInv(t) && PartOf(i, k) in t.pending && StageAtMost(t, b)
    requires i < |t.uploads| && k < |t.uploads[i].parts| && t.uploads[i].parts[k] == InFlight
    requires |t.uploads[i].parts| == |t.uploads[i].outcomes| == |t.uploads[i].eTags|
    ensures TxInv(Execute(t, PartOf(i, k))) && StageAtMost(Execute(t, PartOf(i, k)), b)
  {
    hide Inv, RunPart;
    var t' := Execute(t, PartOf(i, k));
    assert UploadOk(t, i);
    RunPartKeeps(t.uploads[i], k);
    assert t'.uploads[i].parts[k] == Done;
    CountEndedUpdate(t.uploads, i, t'.uploads[i]);
    forall j | 0 <= j < |t'.uploads| ensures UploadOk(t', j) {
      assert UploadOk(t, j);
    }
  }

  lemma ExecuteClosingKeeps(t: Tx, i: nat, b: nat)
    requires TxInv(t) && ClosingOf(i) in t.pending && StageAtMost(t, b)
    requires i < |t.uploads| && t.uploads[i].close == CloseInFlight && t.uploads[i].closing.Some?
    ensures TxInv(Execute(t, ClosingOf(i))) && StageAtMost(Execute(t, ClosingOf(i)), b)
  {
    hide Inv;
    var t' := Execute(t, ClosingOf(i));
    assert UploadOk(t, i);
    RunCloseKeeps(t.uploads[i]);
    CountEndedUpdate(t.uploads, i, t'.uploads[i]);
    forall j | 0 <= j < |t'.uploads| ensures UploadOk(t', j) {
      assert UploadOk(t, j);
    }
  }

  /** With an empty queue every upload either waits to be sent on or has ended. */
  lemma DrainedIsSettled(t: Tx, i: nat)
    requires TxInv(t) && t.pending == multiset{} && i < |t.uploads|
    ensures var u := t.uploads[i];
            && (u.create == NotQueued || u.state == Sending || u.state == Validating || Ended(u))
            && (Stage(u) == 0 ==> Ended(u))
  {
    var u := t.uploads[i];
    assert UploadOk(t, i);
    assert t.pending[Original(t.createAt[i])] == 0 && t.pending[ClosingOf(i)] == 0;
    forall k | 0 <= k < |u.parts| ensures u.parts[k] != InFlight {
      assert t.pending[PartOf(i, k)] == 0;
    }
    assert u.parts[0] == Unsent || u.parts[0] == Done;
  }

  lemma AppendKeepsIff(t: Tx, u: Upload)
    requires TxInv(t) && Initial(u)
    ensures TxInv(t.(uploads := t.uploads + [u], messages := t.messages + [CreateOf(|t.uploads|)],
                     createAt := t.createAt + [|t.messages|]))
            <==> |u.outcomes| >= 1
  {
    if |u.outcomes| >= 1 {
      AppendKeeps(t, u);
    } else {
      NotAnUpload(t.(uploads := t.uploads + [u], messages := t.messages + [CreateOf(|t.uploads|)],
                     createAt := t.createAt + [|t.messages|]), |t.uploads|);
    }
  }

  lemma NotAnUpload(t: Tx, i: nat)
    requires i < |t.uploads| && |t.uploads[i].outcomes| == 0
    ensures !TxInv(t)
  {
    assert |t.uploads| == |t.createAt| ==> !UploadOk(t, i);
  }

  lemma AppendKeeps(t: Tx, u: Upload)
    requires TxInv(t) && Fresh(u)
    ensures TxInv(t.(uploads := t.uploads + [u], messages := t.messages + [CreateOf(|t.uploads|)],
                     createAt := t.createAt + [|t.messages|]))
  {
    var n := |t.uploads|;
    var t' := t.(uploads := t.uploads + [u], messages := t.messages + [CreateOf(n)],
        createAt := t.createAt + [|t.messages|]);
    assert t'.uploads[..n] == t.uploads;
    FreshInv(u);
    assert Original(|t.messages|) !in t.pending && ClosingOf(n) !in t.pending && ClosingOf(n) !in t.queued;
    forall k: nat ensures PartOf(n, k) !in t.pending && PartOf(n, k) !in t.queued {
      assert !Known(t, PartOf(n, k));
    }
    forall j | 0 <= j < |t'.uploads| ensures UploadOk(t', j) {
      if j < n {
        assert UploadOk(t, j);
      }
    }
  }

  function SendTheNext(t: Tx, i: nat): Tx
    requires i < |t.uploads|
  {
    if t.uploads[i].state == Sending then SendAllParts(t, i)
    else if t.uploads[i].state == Validating then SendTheClosing(t, i)
    else t
  }

  /** Uploads before `i` need at most `b` more rounds; those from `i` on wait and need at most one more. */
  predicate WaitingAtMost(t: Tx, i: nat, b: nat) {
    && (forall j {:trigger t.uploads[j]} | 0 <= j < |t.uploads| && j < i :: Stage(t.uploads[j]) <= b)
    && forall j {:trigger t.uploads[j]} | i <= j < |t.uploads| ::
         && Waiting(t.uploads[j]) && Stage(t.uploads[j]) <= b + 1
         && (t.uploads[j].create == CreateInFlight ==> b >= 2)
  }

  lemma DrainedIsWaiting(t: Tx, b: nat)
    requires TxInv(t) && t.pending == multiset{} && StageAtMost(t, b + 1)
    ensures WaitingAtMost(t, 0, b)
  {
    forall j {:trigger t.uploads[j]} | 0 <= j < |t.uploads|
      ensures Waiting(t.uploads[j]) && t.uploads[j].create != CreateInFlight
    {
      DrainedIsSettled(t, j);
      assert UploadOk(t, j);
      assert t.pending[Original(t.createAt[j])] == 0;
    }
  }

  lemma CounterInRange(t: Tx)
    requires TxInv(t)
    ensures t.counter <= |t.messages| && |t.uploads| == |t.createAt|
  {
  }

  lemma SendOriginalWaits(t: Tx, b: nat)
    requires TxInv(t) && t.counter < |t.messages| && WaitingAtMost(t, 0, b)
    ensures t.messages[t.counter].CreateOf? ==> t.messages[t.counter].upload < |t.uploads|
    ensures TxInv(SendOriginal(t)) && WaitingAtMost(SendOriginal(t), 0, b)
  {
    hide UploadOk, Inv;
    SendOriginalKeeps(t, b + 1);
    if t.messages[t.counter].CreateOf? {
      NotQueuedYet(t, t.messages[t.counter].upload);
    }
  }

  lemma SendTheNextKeeps(t: Tx, i: nat, b: nat)
    requires TxInv(t) && i < |t.uploads| && t.counter == |t.messages| && WaitingAtMost(t, i, b)
    ensures |t.uploads[i].eTags| == |t.uploads[i].parts|
    ensures TxInv(SendTheNext(t, i)) && WaitingAtMost(SendTheNext(t, i), i + 1, b)
  {
    hide TxInv, UploadOk, Inv, SendParts, SendClosing;
    AllQueued(t, i);
    if t.uploads[i].state == Sending {
      SendAllPartsKeeps(t, i);
    } else if t.uploads[i].state == Validating {
      SendTheClosingKeeps(t, i);
    }
  }

  lemma ExecuteKeeps(t: Tx, q: Queued, b: nat)
    requires TxInv(t) && q in t.pending && StageAtMost(t, b)
    ensures InFlightIn(t, q) && Execute(t, q).pending == t.pending - multiset{q}
    ensures TxInv(Execute(t, q)) && StageAtMost(Execute(t, q), b)
  {
    PendingInFlight(t, q);
    hide TxInv, UploadOk, Inv, RunPart, Stage;
    match q {
      case Original(m) => ExecuteCreateKeeps(t, m, b);
      case PartOf(i, k) => ExecutePartKeeps(t, i, k, b);
      case ClosingOf(i) => ExecuteClosingKeeps(t, i, b);
    }
  }

  lemma ThreeStages(t: Tx)
    ensures StageAtMost(t, 3)
  {
  }

  /** After a round: if no stage is left, or there never was an upload, everything is completed. */
  lemma AllThrough(t: Tx, b: nat)
    requires TxInv(t) && t.pending == multiset{} && StageAtMost(t, b)
    ensures b == 0 || |t.uploads| == 0 ==> t.completed == |t.uploads|
  {
    forall i | 0 <= i < |t.uploads| && b == 0 ensures Ended(t.uploads[i]) {
      DrainedIsSettled(t, i);
    }
    AllEnded(t.uploads);
  }

  /** Upload `i` has ended, with the history its create request allows. */
  ghost predicate EndedOnce(t: Tx, i: nat)
    requires i < |t.uploads|
  {
    var u := t.uploads[i];
    && Ended(u) && u.callbacks == 1
    && i < |t.createAt|
    && t.queued[Original(t.createAt[i])] == 1
    && t.queued[ClosingOf(i)] == One(u.create.Created?)
    && (forall k: nat {:trigger PartOf(i, k)} :: t.queued[PartOf(i, k)] == One(u.create.Created? && k < |u.parts|))
    && (u.create.Created? <==> u.createAnswer)
    && u.verdict.Some? && Truth(u, u.verdict.value)
  }

  lemma CompletedMeansEnded(t: Tx, i: nat)
    requires TxInv(t) && t.completed == |t.uploads| && t.counter == |t.messages| && i < |t.uploads|
    ensures EndedOnce(t, i)
  {
    AllEnded(t.uploads);
    assert UploadOk(t, i);
    var u := t.uploads[i];
    if u.create.Created? {
      assert AllParts(u, Done);
    }
  }

  /** A create request that is about to be queued belongs to an upload that has three rounds to go. */
  lemma NotQueuedYet(t: Tx, i: nat)
    requires TxInv(t) && t.counter < |t.messages| && t.messages[t.counter] == CreateOf(i)
    ensures i < |t.uploads| && t.uploads[i].create == NotQueued && Stage(t.uploads[i]) == 3
  {
    assert UploadOk(t, i);
  }

  /** Once all originals are queued no upload is unqueued. */
  lemma AllQueued(t: Tx, i: nat)
    requires TxInv(t) && t.counter == |t.messages| && i < |t.uploads|
    ensures t.uploads[i].create != NotQueued
    ensures t.uploads[i].create == CreateInFlight ==> Stage(t.uploads[i]) == 2
    ensures |t.uploads[i].eTags| == |t.uploads[i].parts|
  {
    assert UploadOk(t, i);
    assert AllParts(t.uploads[i], Unsent) || t.uploads[i].create != CreateInFlight;
  }

  // ---------------------------------------------------------------- the object

  /** An upload that is waiting for the user thread, is not due yet, or has ended. */
  predicate Waiting(u: Upload) {
    u.create == NotQueued || u.create == CreateInFlight || u.state == Sending || u.state == Validating || Ended(u)
  }

  ghost function ViewsOf(ups: seq<MultipartUpload>): (r: seq<Upload>)
    reads ups
    ensures |r| == |ups|
  {
    seq(|ups|, i requires 0 <= i < |ups| reads ups => ups[i].View())
  }

  /** One user thread; `pending` are the messages queued with its send-receiver and not yet answered. */
  class Transaction {
    var messages: seq<Owner>
    var messageCounter: nat
    var uploads: seq<MultipartUpload>
    var completed: nat
    ghost var pending: multiset<Queued>
    ghost var queued: multiset<Queued>
    ghost var createAt: seq<nat>

    ghost function Views(): (r: seq<Upload>)
      reads this`uploads, uploads
      ensures |r| == |uploads|
    {
      ViewsOf(uploads)
    }

    ghost function View(): Tx
      reads this, uploads
    {
      Tx(Views(), completed, pending, queued, messageCounter, messages, createAt)
    }

    ghost predicate Valid()
      reads this, uploads
    {
      Distinct(uploads) && TxInv(View())
    }

    constructor ()
      ensures Valid() && uploads == [] && messages == [] && pending == multiset{}
    {
      messages, messageCounter, uploads, completed, pending := [], 0, [], 0, multiset{};
      queued, createAt := multiset{}, [];
    }

    /**
     `putObjectRequestMultiPart`: appends the upload and its create request. The transaction stays valid
     exactly if the upload has parts, which the cast to 16 bits may take from it.
     */
    method PutMultiPart(parts: nat, answers: seq<Outcome>, createAnswer: bool, closeAnswer: bool)
      requires Valid() && |answers| == parts
      modifies this
      ensures Valid() <==> parts >= 1
      ensures |uploads| == old(|uploads|) + 1 && uploads[..old(|uploads|)] == old(uploads)
      ensures fresh(uploads[old(|uploads|)]) && Initial(uploads[old(|uploads|)].View())
      ensures var up := uploads[old(|uploads|)];
              up.outcomes == answers && up.createAnswer == createAnswer && up.closeAnswer == closeAnswer
      ensures messages == old(messages) + [CreateOf(old(|uploads|))]
      ensures createAt == old(createAt) + [old(|messages|)]
      ensures pending == old(pending) && queued == old(queued)
      ensures messageCounter == old(messageCounter) && completed == old(completed)
    {
      hide TxInv, Initial;
      ghost var t := View();
      var up := new MultipartUpload(parts, answers, createAnswer, closeAnswer);
      uploads := uploads + [up];
      createAt := createAt + [|messages|];
      messages := messages + [CreateOf(|uploads| - 1)];
      assert Views() == t.uploads + [up.View()];
      AppendKeepsIff(t, up.View());
      assert Distinct(uploads);
    }

    /** `sendSync`: puts the message into the receiver's queue. */
    method SendSync(receiver: Scheduler.SendReceiver<Queued>, q: Queued)
      requires multiset(receiver.submissions) == pending
      modifies this`pending, this`queued, receiver`submissions
      ensures pending == old(pending) + multiset{q} && queued == old(queued) + multiset{q}
      ensures multiset(receiver.submissions) == pending
    {
      receiver.submissions := receiver.submissions + [q];
      pending, queued := pending + multiset{q}, queued + multiset{q};
    }

    /** Queues the next original message. */
    method SendNext(receiver: Scheduler.SendReceiver<Queued>)
      requires multiset(receiver.submissions) == pending
      requires Distinct(uploads) && messageCounter < |messages|
      requires messages[messageCounter].CreateOf? ==> messages[messageCounter].upload < |uploads|
      modifies this`pending, this`queued, this`messageCounter, uploads, receiver`submissions
      ensures View() == SendOriginal(old(View())) && multiset(receiver.submissions) == pending
    {
      ghost var v := Views();
      SendSync(receiver, Original(messageCounter));
      if messages[messageCounter].CreateOf? {
        ghost var i := messages[messageCounter].upload;
        uploads[i].create := CreateInFlight;
        assert Views() == v[i := v[i].(create := CreateInFlight)];
      }
      messageCounter := messageCounter + 1;
    }

    method SendPartMessages(receiver: Scheduler.SendReceiver<Queued>, i: nat, n: nat)
      requires multiset(receiver.submissions) == pending
      modifies this`pending, this`queued, receiver`submissions
      ensures multiset(receiver.submissions) == pending
      ensures pending == old(pending) + PartsOf(i, n) && queued == old(queued) + PartsOf(i, n)
    {
      var k := 0;
      while k < n
        invariant k <= n && multiset(receiver.submissions) == pending
        invariant pending == old(pending) + PartsOf(i, k) && queued == old(queued) + PartsOf(i, k)
      {
        SendSync(receiver, PartOf(i, k));
        k := k + 1;
      }
    }

    /** Moves upload `i` on if its state says so. */
    method SendUpload(receiver: Scheduler.SendReceiver<Queued>, i: nat)
      requires multiset(receiver.submissions) == pending
      requires Distinct(uploads) && i < |uploads| && |uploads[i].eTags| == |uploads[i].parts|
      modifies this`pending, this`queued, uploads, receiver`submissions
      ensures View() == SendTheNext(old(View()), i) && multiset(receiver.submissions) == pending
    {
      hide PartsOf;
      ghost var v := Views();
      var up := uploads[i];
      if up.state == Sending {
        SendPartMessages(receiver, i, |up.eTags|);
        up.state := Processing;
        up.parts := seq(|up.parts|, _ => InFlight);
        assert Views() == v[i := SendParts(v[i])];
      } else if up.state == Validating {
        SendSync(receiver, ClosingOf(i));
        up.state := Default;
        up.close := CloseInFlight;
        assert Views() == v[i := SendClosing(v[i])];
      }
    }

    method CreateCallback(m: nat)
      requires Distinct(uploads) && InFlightIn(View(), Original(m))
      modifies this`pending, this`completed, uploads
      ensures View() == Execute(old(View()), Original(m))
    {
      hide RunCreate;
      ghost var v := Views();
      pending := pending - multiset{Original(m)};
      if messages[m].CreateOf? {
        var i := messages[m].upload;
        var counted := uploads[i].CreateFinished(uploads[i].createAnswer);
        if counted {
          completed := completed + 1;
        }
        assert Views() == v[i := RunCreate(v[i])];
      }
    }

    method PartCallback(i: nat, k: nat)
      requires Distinct(uploads) && InFlightIn(View(), PartOf(i, k))
      modifies this`pending, uploads
      ensures View() == Execute(old(View()), PartOf(i, k))
    {
      hide RunPart;
      ghost var v := Views();
      pending := pending - multiset{PartOf(i, k)};
      uploads[i].PartFinished(k, uploads[i].outcomes[k]);
      assert Views() == v[i := RunPart(v[i], k)];
    }

    method ClosingCallback(i: nat)
      requires Distinct(uploads) && InFlightIn(View(), ClosingOf(i))
      modifies this`pending, this`completed, uploads
      ensures View() == Execute(old(View()), ClosingOf(i))
    {
      ghost var t := View();
      var up := uploads[i];
      ExecuteClosing(t, i);
      CloseOne(i);
      hide *;
      pending := pending - multiset{ClosingOf(i)};
      completed := completed + 1;
    }

    method CloseOne(i: nat)
      requires Distinct(uploads) && i < |uploads| && uploads[i].closing.Some?
      modifies uploads[i..i + 1]
      ensures Views() == old(Views()[i := RunClose(Views()[i])])
    {
      hide RunClose;
      uploads[i].CloseFinished(uploads[i].closeAnswer);
    }

    /** Runs the callback of a message that was in flight. */
    method RunCallback(q: Queued)
      requires Distinct(uploads) && InFlightIn(View(), q)
      modifies this`pending, this`completed, uploads
      ensures View() == Execute(old(View()), q)
    {
      ExecutePending(View(), q);
      hide Execute, Distinct, ViewsOf, Views;
      match q {
        case Original(m) => CreateCallback(m);
        case PartOf(i, k) => PartCallback(i, k);
        case ClosingOf(i) => ClosingCallback(i);
      }
    }

    /** The sending half of a round of `processSync`. */
    method SendAll(receiver: Scheduler.SendReceiver<Queued>, ghost b: nat)
      requires receiver.submissions == []
      requires Valid() && pending == multiset{} && StageAtMost(View(), b + 1)
      modifies this`pending, this`queued, this`messageCounter, uploads, receiver`submissions
      ensures Valid() && StageAtMost(View(), b) && messageCounter == |messages|
      ensures multiset(receiver.submissions) == pending
    {
      hide TxInv, Stage, Distinct;
      DrainedIsWaiting(View(), b);
      SendOriginals(receiver, b);
      SendUploads(receiver, b);
    }

    method SendOriginals(receiver: Scheduler.SendReceiver<Queued>, ghost b: nat)
      requires multiset(receiver.submissions) == pending
      requires Valid() && WaitingAtMost(View(), 0, b)
      modifies this`pending, this`queued, this`messageCounter, uploads, receiver`submissions
      ensures Valid() && WaitingAtMost(View(), 0, b) && messageCounter == |messages|
      ensures multiset(receiver.submissions) == pending
    {
      hide TxInv, Stage, Distinct, WaitingAtMost;
      CounterInRange(View());
      while messageCounter < |messages|
        invariant Distinct(uploads) && TxInv(View()) && WaitingAtMost(View(), 0, b) && messageCounter <= |messages|
        invariant multiset(receiver.submissions) == pending
      {
        SendOriginalWaits(View(), b);
        SendNext(receiver);
        CounterInRange(View());
      }
    }

    method SendUploads(receiver: Scheduler.SendReceiver<Queued>, ghost b: nat)
      requires multiset(receiver.submissions) == pending
      requires Valid() && WaitingAtMost(View(), 0, b) && messageCounter == |messages|
      modifies this`pending, this`queued, uploads, receiver`submissions
      ensures Valid() && WaitingAtMost(View(), |uploads|, b)
      ensures multiset(receiver.submissions) == pending
    {
      hide TxInv, Stage, Distinct, WaitingAtMost, SendTheNext;
      var i := 0;
      while i < |uploads|
        invariant i <= |uploads| && Distinct(uploads) && TxInv(View())
        invariant WaitingAtMost(View(), i, b) && multiset(receiver.submissions) == pending
      {
        SendTheNextKeeps(View(), i, b);
        SendUpload(receiver, i);
        i := i + 1;
      }
    }

    /** Runs the callbacks of the tasks reported from `r` on, in the order of the reports. */
    method RunReports(started: seq<Queued>, reports: seq<int>, n: nat, r: nat, ghost rest: multiset<Queued>,
                      ghost b: nat)
      requires n <= |started| && r <= |reports|
      requires AtMostOnce(reports, |started|) && ExactlyOnce(reports[..r], n)
      requires Valid() && StageAtMost(View(), b) && pending == multiset(started[n..]) + rest
      modifies this`pending, this`completed, uploads
      ensures Valid() && StageAtMost(View(), b)
      ensures pending == Left(started[n..], Ids(reports[r..], n)) + rest
    {
      hide TxInv, Stage, Distinct, Execute, Left, Ids, AtMostOnce, ExactlyOnce;
      ghost var queue := started[n..];
      NothingLeft(queue, n);
      assert reports[r..r] == [];
      var j := r;
      while j < |reports|
        invariant r <= j <= |reports|
        invariant Distinct(uploads) && TxInv(View()) && StageAtMost(View(), b)
        invariant pending == Left(queue, Ids(reports[r..j], n)) + rest
      {
        NewReport(reports, r, n, |started|, j);
        OneMoreReported(queue, reports, r, j, n);
        assert started[reports[j]] == queue[reports[j] - n];
        RunReported(started[reports[j]], b);
        j := j + 1;
      }
      assert reports[r..j] == reports[r..];
    }

    /** Runs one callback, which moves no upload back. */
    method RunReported(q: Queued, ghost b: nat)
      requires Valid() && StageAtMost(View(), b) && q in pending
      modifies this`pending, this`completed, uploads
      ensures Valid() && StageAtMost(View(), b) && pending == old(pending) - multiset{q}
    {
      hide TxInv, Stage, Distinct, Execute;
      ghost var t := View();
      ExecuteKeeps(t, q, b);
      ExecutePending(t, q);
      RunCallback(q);
    }

    /**
     Blocks on the send-receiver and runs the callbacks of all it reports. If it comes back drained, every
     queued message has been answered and its callback has run once; otherwise those that were reported
     have.
     */
    method Drain(receiver: Scheduler.SendReceiver<Queued>, patience: nat, ghost b: nat)
      returns (exit: Scheduler.Exit)
      requires Valid() && StageAtMost(View(), b)
      requires receiver.Usable() && receiver.Clean() && multiset(receiver.submissions) == pending
      modifies this`pending, this`completed, uploads, receiver
      ensures Valid() && StageAtMost(View(), b) && exit == receiver.Cause()
      ensures var n, r := old(|receiver.started|), old(|receiver.reports|);
              && n <= |receiver.started| && r <= |receiver.reports|
              && pending ==
                 Left(receiver.started[n..], Ids(receiver.reports[r..], n)) + multiset(receiver.submissions)
      ensures exit == Scheduler.Drained ==>
                pending == multiset{} && receiver.Usable() && receiver.Clean() && receiver.submissions == []
    {
      hide TxInv, Stage, Distinct, Left, Ids;
      var n, r := |receiver.started|, |receiver.reports|;
      ghost var r0, s0, submitted := receiver.reports, receiver.started, receiver.submissions;
      exit := receiver.SendReceive(true, true, patience);
      assert receiver.reports[..r] == r0;
      Split(s0, submitted, receiver.started, receiver.submissions);
      RunReports(receiver.started, receiver.reports, n, r, multiset(receiver.submissions), b);
      if exit == Scheduler.Drained {
        AllReported(receiver.started[n..], receiver.reports, r, n);
      }
    }

    /**
     Blocks until all messages and uploads are through, as long as the receiver comes back drained: at
     most three rounds whatever the server answers. Every upload ends with one user callback that tells
     the truth; its create request was queued once, and each part and the closing request once if the
     create request succeeded and never otherwise.
     */
    method ProcessSync(receiver: Scheduler.SendReceiver<Queued>, patience: nat)
      returns (rounds: nat, exit: Scheduler.Exit)
      requires Valid() && pending == multiset{}
      requires receiver.Usable() && receiver.Clean() && receiver.submissions == []
      modifies this`pending, this`queued, this`messageCounter, this`completed, uploads, receiver
      ensures Valid() && 1 <= rounds <= 3 && (|uploads| == 0 ==> rounds == 1)
      ensures exit == receiver.Cause()
      ensures !receiver.submitFailed && receiver.threw == {} && !receiver.stopCalled ==> completed == |uploads|
      ensures exit == Scheduler.Drained ==> receiver.Usable() && receiver.Clean() && receiver.submissions == []
      ensures exit == Scheduler.Drained ==>
                pending == multiset{} && messageCounter == |messages| && completed == |uploads|
      ensures exit == Scheduler.Drained ==>
                forall i {:trigger uploads[i]} | 0 <= i < |uploads| :: EndedOnce(View(), i)
    {
      hide TxInv, Stage, Distinct, UploadOk, Scheduler.SendReceiver.Usable, Scheduler.SendReceiver.Clean;
      rounds, exit := 0, Scheduler.Drained;
      ThreeStages(View());
      var more := true;
      while more
        invariant Valid() && pending == multiset{} && rounds <= 3
        invariant receiver.Usable() && receiver.Clean() && receiver.submissions == []
        invariant StageAtMost(View(), 3 - rounds)
        invariant more ==> rounds < 3
        invariant rounds >= 1 ==> messageCounter == |messages|
        invariant rounds >= 1 ==> exit == receiver.Cause() == Scheduler.Drained
        invariant !more ==> rounds >= 1 && completed == |uploads|
        invariant more && rounds >= 1 ==> |uploads| > 0
        invariant rounds >= 2 ==> |uploads| > 0
        decreases 3 - rounds
      {
        SendAll(receiver, 2 - rounds);
        exit := Drain(receiver, patience, 2 - rounds);
        rounds := rounds + 1;
        if exit != Scheduler.Drained {
          return;
        }
        AllThrough(View(), 3 - rounds);
        more := |uploads| != completed;
      }
      forall i | 0 <= i < |uploads| ensures EndedOnce(View(), i) {
        CompletedMeansEnded(View(), i);
      }
    }
  }

  // ---------------------------------------------------------------- reports and their messages

  /** The positions in a round's queue of the tasks reported; the tasks of the round are numbered from `n`. */
  ghost function Ids(reports: seq<int>, n: nat): set<int> {
    set id | id in reports :: id - n
  }

  /** The messages of the queue whose positions are not among the reported ones. */
  ghost function Left(queue: seq<Queued>, reported: set<int>): multiset<Queued> {
    if queue == [] then multiset{}
    else
      var last := |queue| - 1;
      Left(queue[..last], reported) + if last in reported then multiset{} else multiset{queue[last]}
  }

  lemma {:induction false} NothingLeft(queue: seq<Queued>, n: nat)
    ensures Left(queue, {}) == multiset(queue) && Ids([], n) == {}
  {
    if queue != [] {
      assert queue == queue[..|queue| - 1] + [queue[|queue| - 1]];
      NothingLeft(queue[..|queue| - 1], n);
    }
  }

  /** Of the tasks numbered below `m`, none was reported twice. */
  ghost predicate AtMostOnce(reports: seq<int>, m: nat) {
    forall id: int {:trigger multiset(reports)[id]} :: multiset(reports)[id] <= One(0 <= id < m)
  }

  ghost predicate ExactlyOnce(reports: seq<int>, m: nat) {
    forall id: int {:trigger multiset(reports)[id]} :: multiset(reports)[id] == One(0 <= id < m)
  }

  /** What was submitted is now the new part of `started` and what is left in the submission queue. */
  lemma Split(s0: seq<Queued>, submitted: seq<Queued>, started: seq<Queued>, rest: seq<Queued>)
    requires s0 <= started && started + rest == s0 + submitted
    ensures multiset(submitted) == multiset(started[|s0|..]) + multiset(rest)
  {
    assert submitted == (started + rest)[|s0|..] == started[|s0|..] + rest;
  }

  /** A task is reported at most once, so the reports of a round are about tasks of that round, each once. */
  lemma NewReport(reports: seq<int>, r: nat, n: nat, m: nat, j: nat)
    requires r <= j < |reports| && n <= m && AtMostOnce(reports, m) && ExactlyOnce(reports[..r], n)
    ensures n <= reports[j] < m && reports[j] !in reports[r..j]
  {
    var id, earlier := reports[j], reports[r..j];
    assert reports == reports[..r] + earlier + [id] + reports[j + 1..];
    assert multiset(reports)[id] ==
           multiset(reports[..r])[id] + multiset(earlier)[id] + 1 + multiset(reports[j + 1..])[id];
    assert id !in multiset(earlier);
  }

  lemma {:induction false} LeftWithout(queue: seq<Queued>, reported: set<int>, k: nat)
    requires k < |queue| && k !in reported
    ensures Left(queue, reported) == Left(queue, reported + {k}) + multiset{queue[k]}
  {
    var last := |queue| - 1;
    if k == last {
      LeftAgrees(queue[..last], reported, reported + {k});
    } else {
      LeftWithout(queue[..last], reported, k);
    }
  }

  lemma {:induction false} LeftAgrees(queue: seq<Queued>, a: set<int>, b: set<int>)
    requires forall k | 0 <= k < |queue| :: k in a <==> k in b
    ensures Left(queue, a) == Left(queue, b)
  {
    if queue != [] {
      LeftAgrees(queue[..|queue| - 1], a, b);
    }
  }

  lemma IdsHas(reports: seq<int>, n: nat, k: int)
    ensures k in Ids(reports, n) <==> n + k in reports
  {
    if n + k in reports {
      assert (n + k) - n in Ids(reports, n);
    }
  }

  lemma OneMoreId(reports: seq<int>, r: nat, j: nat, n: nat)
    requires r <= j < |reports|
    ensures Ids(reports[r..j + 1], n) == Ids(reports[r..j], n) + {reports[j] - n}
  {
    hide Ids;
    assert reports[r..j + 1] == reports[r..j] + [reports[j]];
    var before, after := Ids(reports[r..j], n), Ids(reports[r..j + 1], n);
    forall k: int ensures k in after <==> k in before + {reports[j] - n} {
      IdsHas(reports[r..j + 1], n, k);
      IdsHas(reports[r..j], n, k);
    }
  }

  lemma OneMoreReported(queue: seq<Queued>, reports: seq<int>, r: nat, j: nat, n: nat)
    requires r <= j < |reports| && n <= reports[j] < n + |queue| && reports[j] !in reports[r..j]
    ensures Left(queue, Ids(reports[r..j], n)) ==
            Left(queue, Ids(reports[r..j + 1], n)) + multiset{queue[reports[j] - n]}
  {
    hide Ids, Left;
    OneMoreId(reports, r, j, n);
    IdsHas(reports[r..j], n, reports[j] - n);
    LeftWithout(queue, Ids(reports[r..j], n), reports[j] - n);
  }

  lemma {:induction false} LeftNone(queue: seq<Queued>, reported: set<int>)
    requires forall k | 0 <= k < |queue| :: k in reported
    ensures Left(queue, reported) == multiset{}
  {
    if queue != [] {
      LeftNone(queue[..|queue| - 1], reported);
    }
  }

  lemma AllReported(queue: seq<Queued>, reports: seq<int>, r: nat, n: nat)
    requires r <= |reports|
    requires ExactlyOnce(reports, n + |queue|) && ExactlyOnce(reports[..r], n)
    ensures Left(queue, Ids(reports[r..], n)) == multiset{}
  {
    forall k | 0 <= k < |queue| ensures k in Ids(reports[r..], n) {
      assert reports == reports[..r] + reports[r..];
      assert multiset(reports)[n + k] == multiset(reports[..r])[n + k] + multiset(reports[r..])[n + k];
      IdsHas(reports[r..], n, k);
    }
    LeftNone(queue, Ids(reports[r..], n));
  }
}
