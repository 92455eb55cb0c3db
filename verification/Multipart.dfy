/**
 The multipart upload protocol of `include/network/transaction.hpp` as an interleaved step system:
 the create callback, all part callbacks and the closing callback may run on different threads, one
 step per store or counter update, while a user thread polls the upload state and queues messages.
 Refused sends are not part of this machine (see `AsyncSend`).
 */
module Multipart {
  import opened Wrappers

  datatype State = Default | Sending | Processing | Validating | Aborted

  /** What the server answers to one part request. */
  datatype Outcome = Tag(eTag: string) | Failed

  /** The request stored in `messages[parts]`. */
  datatype Closing = Complete(eTags: seq<string>) | Abort

  /** What the user callback is told. */
  datatype Verdict = Success | CreateFailed | PartFailed(part: nat) | ClosingFailed

  datatype CreatePc = NotQueued | CreateInFlight | Building(built: nat) | Created | CreateCounted | CreateEnded

  datatype PartPc =
    | Unsent | InFlight
    | StoreError   // about to store errorMessageId
    | StoreAborted // about to store the state Aborted
    | StoreTag     // about to store the tag
    | Report       // about to decrement outstanding
    | Decide       // decremented the last one: about to read the state
    | Store(c: Closing)
    | Validate     // about to store the state Validating
    | Done

  datatype UserPc = Polling | SawSending | StoredProcessing | SawValidating | StoredDefault

  datatype ClosePc = NotSent | CloseInFlight | CloseCounted | CloseEnded

  /**
   One upload: the fields of the source's struct, then one program counter per callback and the polling
   user thread. `outcomes`, `createAnswer` and `closeAnswer` are what the server answers to the part
   requests, the create request and the closing request (true: it succeeded); `callbacks` and `verdict`
   record the user callback.
   */
  datatype Upload = Upload(
    state: State, outstanding: int, eTags: seq<string>, errorMessageId: nat, closing: Option<Closing>,
    create: CreatePc, parts: seq<PartPc>, user: UserPc, close: ClosePc,
    outcomes: seq<Outcome>, createAnswer: bool, closeAnswer: bool, callbacks: nat, verdict: Option<Verdict>)

  /** The state right after the constructor, for an upload that has parts. */
  ghost predicate Fresh(u: Upload) {
    |u.outcomes| >= 1 && Initial(u)
  }

  /** The state right after the constructor, for any number of parts. */
  ghost predicate Initial(u: Upload) {
    && u.outstanding == |u.eTags| == |u.parts| == |u.outcomes|
    && u.state == Default && u.closing == None
    && u.create == NotQueued && u.user == Polling && u.close == NotSent
    && u.callbacks == 0 && u.verdict == None
    && forall k | 0 <= k < |u.parts| :: u.parts[k] == Unsent
  }

  /** An upload the transaction counts as completed and whose callback has run. */
  predicate Ended(u: Upload) {
    u.create == CreateEnded || u.close == CloseEnded
  }

  /** An upload that has been counted in `_completedMultiparts`. */
  predicate Counted(u: Upload) {
    Ended(u) || u.create == CreateCounted || u.close == CloseCounted
  }

  // ---------------------------------------------------------------- steps

  predicate CreateStep(u: Upload, u': Upload) {
    match u.create
    case NotQueued => u' == u.(create := CreateInFlight)
    case CreateInFlight =>
      if u.createAnswer then u' == u.(create := Building(0))
      else u' == u.(create := CreateCounted, verdict := Some(CreateFailed))
    case CreateCounted => u' == u.(create := CreateEnded, callbacks := u.callbacks + 1)
    case Building(k) =>
      if k < |u.parts| then u' == u.(create := Building(k + 1))
      else u' == u.(create := Created, state := Sending)
    case _ => false
  }

  predicate UserStep(u: Upload, u': Upload) {
    match u.user
    case Polling =>
      || (u.state == Sending && u' == u.(user := SawSending))
      || (u.state == Validating && u' == u.(user := SawValidating))
    case SawSending => u' == u.(user := StoredProcessing, state := Processing)
    case StoredProcessing => u' == u.(user := Polling, parts := seq(|u.parts|, _ => InFlight))
    case SawValidating => u' == u.(user := StoredDefault, state := Default)
    case StoredDefault => u.closing.Some? && u' == u.(user := Polling, close := CloseInFlight)
  }

  /** The next store or counter update in the callback of part `k` (counted from zero). */
  function PartNext(u: Upload, k: nat): Upload
    requires k < |u.parts| == |u.outcomes| == |u.eTags|
  {
    match u.parts[k]
    case InFlight => u.(parts := u.parts[k := if u.outcomes[k].Tag? then StoreTag else StoreError])
    case StoreError => u.(errorMessageId := k, parts := u.parts[k := StoreAborted])
    case StoreAborted => u.(state := Aborted, parts := u.parts[k := Report])
    case StoreTag =>
      u.(eTags := if u.outcomes[k].Tag? then u.eTags[k := u.outcomes[k].eTag] else u.eTags,
         parts := u.parts[k := Report])
    case Report =>
      u.(outstanding := u.outstanding - 1, parts := u.parts[k := if u.outstanding == 1 then Decide else Done])
    case Decide => u.(parts := u.parts[k := Store(if u.state != Aborted then Complete(u.eTags) else Abort)])
    case Store(c) => u.(closing := Some(c), parts := u.parts[k := Validate])
    case Validate => u.(state := Validating, parts := u.parts[k := Done])
    case _ => u
  }

  predicate PartStep(u: Upload, u': Upload, k: nat)
    requires k < |u.parts| == |u.outcomes| == |u.eTags|
  {
    u.parts[k] != Unsent && u.parts[k] != Done && u' == PartNext(u, k)
  }

  /** What the closing callback tells the user. */
  function CloseVerdict(u: Upload): Verdict
    requires u.closing.Some?
  {
    match u.closing.value
    case Abort => PartFailed(u.errorMessageId)
    case Complete(_) => if u.closeAnswer then Success else ClosingFailed
  }

  predicate CloseStep(u: Upload, u': Upload) {
    match u.close
    case CloseInFlight =>
      u.closing.Some? && u' == u.(close := CloseCounted, verdict := Some(CloseVerdict(u)))
    case CloseCounted => u' == u.(close := CloseEnded, callbacks := u.callbacks + 1)
    case _ => false
  }

  ghost predicate Step(u: Upload, u': Upload) {
    || CreateStep(u, u')
    || UserStep(u, u')
    || (|u.parts| == |u.outcomes| == |u.eTags| && exists k: nat :: k < |u.parts| && PartStep(u, u', k))
    || CloseStep(u, u')
  }

  // ---------------------------------------------------------------- invariant

  predicate Unreported(pc: PartPc) {
    pc.Unsent? || pc.InFlight? || pc.StoreError? || pc.StoreAborted? || pc.StoreTag? || pc.Report?
  }

  function CountUnreported(parts: seq<PartPc>): nat {
    if parts == [] then 0
    else CountUnreported(parts[..|parts| - 1]) + if Unreported(parts[|parts| - 1]) then 1 else 0
  }

  /** The one callback that closes the upload is at work. */
  predicate Closer(pc: PartPc) {
    pc.Decide? || pc.Store? || pc.Validate?
  }

  predicate AllParts(u: Upload, pc: PartPc) {
    forall k | 0 <= k < |u.parts| :: u.parts[k] == pc
  }

  predicate AllTagged(u: Upload) {
    forall k | 0 <= k < |u.outcomes| :: u.outcomes[k].Tag?
  }

  /** Part `k`'s callback has stored what it learned about its request. */
  predicate Recorded(pc: PartPc) {
    pc.Report? || Closer(pc) || pc.Done?
  }

  /** Part `k`'s callback and what its past stores have left behind. */
  ghost predicate PartInv(u: Upload, k: nat)
    requires k < |u.parts| == |u.outcomes| == |u.eTags|
  {
    var pc, o := u.parts[k], u.outcomes[k];
    && (pc.StoreError? || pc.StoreAborted? ==> o.Failed?)
    && (pc.StoreTag? ==> o.Tag?)
    && (Recorded(pc) && o.Tag? ==> u.eTags[k] == o.eTag)
    && (Recorded(pc) && o.Failed? && u.closing.None? ==> u.state == Aborted)
    && (pc.StoreAborted? ==> NamesFailure(u))
    && (pc.Store? ==> RightClosing(u, pc.c))
    && (Closer(pc) ==>
          && u.outstanding == 0
          && (u.closing.Some? <==> pc.Validate?)
          && forall j {:trigger u.parts[j]} | 0 <= j < |u.parts| && j != k :: u.parts[j] == Done)
  }

  predicate NamesFailure(u: Upload) {
    u.errorMessageId < |u.outcomes| && u.outcomes[u.errorMessageId].Failed?
  }

  /** The closing request is the right one: Complete with every tag in place, or Abort naming a failed part. */
  ghost predicate RightClosing(u: Upload, c: Closing)
    requires |u.outcomes| == |u.eTags|
  {
    match c
    case Complete(tags) =>
      && |tags| == |u.outcomes|
      && forall k | 0 <= k < |tags| :: u.outcomes[k] == Tag(tags[k])
    case Abort => NamesFailure(u)
  }

  /** The create request has not succeeded. */
  predicate Creating(u: Upload) {
    && u.state == Default && u.user == Polling && AllParts(u, Unsent) && u.close == NotSent && u.closing == None
    && (u.create.Building? ==> u.create.built <= |u.parts|)
  }

  /** The part requests exist and wait for the user thread. */
  predicate Ready(u: Upload) {
    && u.close == NotSent && u.closing == None
    && match u.user
       case Polling => u.state == Sending
       case SawSending => u.state == Sending
       case StoredProcessing => u.state == Processing
       case _ => false
  }

  /** Part callbacks are at work. */
  predicate Working(u: Upload) {
    && (forall k {:trigger u.parts[k]} | 0 <= k < |u.parts| :: u.parts[k] != Unsent)
    && u.close == NotSent && u.user == Polling && (u.state == Processing || u.state == Aborted)
    && (u.state == Aborted ==> NamesFailure(u))
    && (u.closing.Some? ==> u.outstanding == 0)
  }

  /** The closing request exists and the state has been published. */
  predicate Closed(u: Upload) {
    && u.closing.Some? && u.outstanding == 0
    && if u.close == NotSent then
         match u.user
         case Polling => u.state == Validating
         case SawValidating => u.state == Validating
         case StoredDefault => u.state == Default
         case _ => false
       else u.state == Default && u.user == Polling
  }

  /** Which phase of its life the upload is in. */
  predicate PhaseInv(u: Upload) {
    if !u.create.Created? then Creating(u)
    else if AllParts(u, Unsent) then Ready(u)
    else if AllParts(u, Done) then Closed(u)
    else Working(u)
  }

  ghost predicate CallbackInv(u: Upload) {
    && (u.verdict.Some? <==> Counted(u))
    && u.callbacks == (if Ended(u) then 1 else 0)
    && (u.create == CreateCounted || u.create == CreateEnded ==> !u.createAnswer && u.verdict == Some(CreateFailed))
    && (u.create.Building? || u.create.Created? ==> u.createAnswer)
    && ((u.close == CloseCounted || u.close == CloseEnded) && u.closing.Some? ==>
          u.verdict == Some(CloseVerdict(u)))
  }

  ghost predicate Inv(u: Upload) {
    && |u.outcomes| >= 1
    && |u.eTags| == |u.parts| == |u.outcomes|
    && u.outstanding == CountUnreported(u.parts)
    && PhaseInv(u)
    && CallbackInv(u)
    && (u.closing.Some? ==> RightClosing(u, u.closing.value))
    && forall k | 0 <= k < |u.parts| :: PartInv(u, k)
  }

  // ---------------------------------------------------------------- preservation

  lemma {:induction false} CountAll(parts: seq<PartPc>)
    ensures (forall k {:trigger parts[k]} | 0 <= k < |parts| :: Unreported(parts[k]))
        ==> CountUnreported(parts) == |parts|
    ensures (forall k {:trigger parts[k]} | 0 <= k < |parts| :: !Unreported(parts[k])) ==> CountUnreported(parts) == 0
  {
    if parts != [] {
      CountAll(parts[..|parts| - 1]);
    }
  }

  lemma {:induction false} CountUpdate(parts: seq<PartPc>, k: nat, pc: PartPc)
    requires k < |parts|
    ensures CountUnreported(parts[k := pc]) ==
            CountUnreported(parts) - (if Unreported(parts[k]) then 1 else 0) + (if Unreported(pc) then 1 else 0)
  {
    var m := |parts| - 1;
    if k == m {
      assert parts[k := pc][..m] == parts[..m];
    } else {
      assert parts[k := pc][..m] == parts[..m][k := pc];
      CountUpdate(parts[..m], k, pc);
    }
  }

  /** If one part is unreported it is counted, and if it is the only one counted no other is unreported. */
  lemma {:induction false} CountKnows(parts: seq<PartPc>, k: nat)
    requires k < |parts| && Unreported(parts[k])
    ensures CountUnreported(parts) >= 1
    ensures CountUnreported(parts) == 1 ==>
              forall j {:trigger parts[j]} | 0 <= j < |parts| && j != k :: !Unreported(parts[j])
  {
    CountUpdate(parts, k, Done);
    var rest := parts[k := Done];
    forall j {:trigger parts[j]} | 0 <= j < |parts| && j != k && CountUnreported(parts) == 1
      ensures !Unreported(parts[j])
    {
      CountUpdate(rest, j, Done);
      assert rest[j] == parts[j];
    }
  }

  lemma FreshInv(u: Upload)
    requires Fresh(u)
    ensures Inv(u)
  {
    CountAll(u.parts);
    assert u.parts[0] == Unsent;
  }

  lemma CreateKeeps(u: Upload, u': Upload)
    requires Inv(u) && CreateStep(u, u')
    ensures Inv(u')
  {
    forall k | 0 <= k < |u'.parts| ensures PartInv(u', k) {
      assert PartInv(u, k);
    }
  }

  lemma UserKeeps(u: Upload, u': Upload)
    requires Inv(u) && UserStep(u, u')
    ensures Inv(u')
  {
    if u.user.StoredProcessing? {
      SendPartsKeeps(u, u');
    } else {
      forall k | 0 <= k < |u'.parts| ensures PartInv(u', k) {
        assert PartInv(u, k);
      }
    }
  }

  lemma SendPartsKeeps(u: Upload, u': Upload)
    requires Inv(u) && UserStep(u, u') && u.user.StoredProcessing?
    ensures Inv(u')
  {
    CountAll(u.parts);
    CountAll(u'.parts);
    assert u'.parts[0] == InFlight;
  }

  lemma CloseKeeps(u: Upload, u': Upload)
    requires Inv(u) && CloseStep(u, u')
    ensures Inv(u')
  {
    forall k | 0 <= k < |u'.parts| ensures PartInv(u', k) {
      assert PartInv(u, k);
    }
  }

  lemma PartKeeps(u: Upload, u': Upload, k: nat)
    requires Inv(u) && k < |u.parts| && PartStep(u, u', k)
    ensures Inv(u')
  {
    assert PartInv(u, k);
    CountUpdate(u.parts, k, u'.parts[k]);
    match u.parts[k] {
      case Report => ReportKeeps(u, u', k);
      case Decide => CloserKeeps(u, u', k);
      case Store(_) => CloserKeeps(u, u', k);
      case Validate => CloserKeeps(u, u', k);
      case _ => RecordKeeps(u, u', k);
    }
  }

  /** While some part callback is at work, the upload is in its working phase. */
  lemma BusyIsWorking(u: Upload, k: nat)
    requires Inv(u) && k < |u.parts| && u.parts[k] != Unsent && u.parts[k] != Done
    ensures u.create.Created? && Working(u)
  {
  }

  /** A step of part `k` that leaves it at work keeps the phase if it keeps what the phase says. */
  lemma StaysWorking(u: Upload, k: nat)
    requires k < |u.parts| && u.parts[k] != Unsent && u.parts[k] != Done && u.create.Created? && Working(u)
    ensures PhaseInv(u)
  {
  }

  lemma RecordKeeps(u: Upload, u': Upload, k: nat)
    requires Inv(u) && k < |u.parts| && PartStep(u, u', k) && Unreported(u.parts[k]) && !u.parts[k].Report?
    requires u'.outstanding == CountUnreported(u'.parts)
    ensures Inv(u')
  {
    CountKnows(u.parts, k);
    BusyIsWorking(u, k);
    assert PartInv(u, k);
    StaysWorking(u', k);
    forall j | 0 <= j < |u'.parts| ensures PartInv(u', j) {
      assert PartInv(u, j);
    }
  }

  /** The decrement that reaches zero appoints the closer: by then every other callback is done. */
  lemma ReportKeeps(u: Upload, u': Upload, k: nat)
    requires Inv(u) && k < |u.parts| && PartStep(u, u', k) && u.parts[k].Report?
    requires u'.outstanding == CountUnreported(u'.parts)
    ensures Inv(u')
  {
    CountKnows(u.parts, k);
    BusyIsWorking(u, k);
    assert PartInv(u, k);
    forall j {:trigger u.parts[j]} | 0 <= j < |u.parts| && j != k
      ensures u.outstanding == 1 ==> u.parts[j] == Done
    {
      assert PartInv(u, j);
    }
    forall j | 0 <= j < |u'.parts| ensures PartInv(u', j) {
      assert PartInv(u, j);
    }
    if u.outstanding == 1 {
      StaysWorking(u', k);
    } else {
      var j := SomeUnreported(u'.parts);
      StaysWorking(u', j);
    }
  }

  lemma {:induction false} SomeUnreported(parts: seq<PartPc>) returns (k: nat)
    requires CountUnreported(parts) >= 1
    ensures k < |parts| && Unreported(parts[k])
  {
    k := |parts| - 1;
    if !Unreported(parts[k]) {
      k := SomeUnreported(parts[..k]);
    }
  }

  lemma CloserKeeps(u: Upload, u': Upload, k: nat)
    requires Inv(u) && k < |u.parts| && PartStep(u, u', k) && Closer(u.parts[k])
    requires u'.outstanding == CountUnreported(u'.parts)
    ensures Inv(u')
  {
    BusyIsWorking(u, k);
    assert PartInv(u, k);
    if u.parts[k].Decide? && u.state != Aborted {
      forall j | 0 <= j < |u.outcomes| ensures u.outcomes[j] == Tag(u.eTags[j]) {
        assert PartInv(u, j) && Recorded(u.parts[j]);
      }
    }
    forall j | 0 <= j < |u'.parts| ensures PartInv(u', j) {
      assert PartInv(u, j);
    }
    if u.parts[k].Validate? {
      assert u'.parts[k] == Done && AllParts(u', Done);
    } else {
      StaysWorking(u', k);
    }
  }

  /** No step changes what the server answers. */
  predicate SameAnswers(u: Upload, v: Upload) {
    u.outcomes == v.outcomes && u.createAnswer == v.createAnswer && u.closeAnswer == v.closeAnswer
  }

  lemma StepKeeps(u: Upload, u': Upload)
    requires Inv(u) && Step(u, u')
    ensures Inv(u') && SameAnswers(u', u)
  {
    hide Inv;
    if CreateStep(u, u') {
      CreateKeeps(u, u');
    } else if UserStep(u, u') {
      UserKeeps(u, u');
    } else if CloseStep(u, u') {
      CloseKeeps(u, u');
    } else {
      var k: nat :| k < |u.parts| && PartStep(u, u', k);
      PartKeeps(u, u', k);
    }
  }

  // ---------------------------------------------------------------- what the protocol guarantees

  /** The steps lead from `u` to `v`. */
  ghost predicate Path(run: seq<Upload>, u: Upload, v: Upload) {
    && |run| >= 1 && run[0] == u && run[|run| - 1] == v
    && forall i | 0 <= i < |run| - 1 :: Step(run[i], run[i + 1])
  }

  lemma PathCons(u: Upload, run: seq<Upload>, v: Upload, w: Upload)
    requires Path(run, v, w) && Step(u, v)
    ensures Path([u] + run, u, w)
  {
    hide Step;
    var r := [u] + run;
    forall i | 0 <= i < |r| - 1 ensures Step(r[i], r[i + 1]) {
      if i > 0 {
        assert r[i] == run[i - 1] && r[i + 1] == run[i];
      }
    }
  }

  lemma {:induction false} PathKeeps(run: seq<Upload>, u: Upload, v: Upload)
    requires Inv(u) && Path(run, u, v)
    ensures Inv(v) && SameAnswers(v, u)
    decreases |run|
  {
    hide Inv, Step;
    var n := |run| - 1;
    if n > 0 {
      PathKeeps(run[..n], u, run[n - 1]);
      StepKeeps(run[n - 1], v);
    }
  }

  ghost predicate Run(run: seq<Upload>) {
    && |run| >= 1
    && Fresh(run[0])
    && forall i | 0 <= i < |run| - 1 :: Step(run[i], run[i + 1])
  }

  lemma {:induction false} RunKeepsInv(run: seq<Upload>, n: nat)
    requires Run(run) && n < |run|
    ensures Inv(run[n]) && SameAnswers(run[n], run[0])
  {
    if n == 0 {
      FreshInv(run[0]);
    } else {
      RunKeepsInv(run, n - 1);
      StepKeeps(run[n - 1], run[n]);
    }
  }

  /**
   Whenever the closing request exists, every part has reported; it completes the upload, with the
   tag of every part in order, if and only if every part succeeded, and otherwise aborts it.
   */
  lemma ClosingIsRight(run: seq<Upload>, n: nat)
    requires Run(run) && n < |run| && run[n].closing.Some?
    ensures forall k | 0 <= k < |run[n].parts| :: run[n].parts[k] == Done || run[n].parts[k] == Validate
    ensures run[n].closing.value.Complete? <==> AllTagged(run[0])
    ensures AllTagged(run[0]) ==>
              run[n].closing.value == Complete(seq(|run[0].outcomes|, k requires 0 <= k < |run[0].outcomes|
                 && run[0].outcomes[k].Tag? => run[0].outcomes[k].eTag))
    ensures !AllTagged(run[0]) ==> NamesFailure(run[n])
  {
    RunKeepsInv(run, n);
    var u := run[n];
    forall k | 0 <= k < |u.parts| ensures u.parts[k] == Done || u.parts[k] == Validate {
      assert PartInv(u, k);
      if Unreported(u.parts[k]) {
        CountKnows(u.parts, k);
      }
    }
  }

  /** The closing request is built once: no later step replaces it. */
  lemma ClosingIsFinal(u: Upload, u': Upload)
    requires Inv(u) && Step(u, u') && u.closing.Some?
    ensures u'.closing == u.closing
  {
    if !CreateStep(u, u') && !UserStep(u, u') && !CloseStep(u, u') {
      var k: nat :| k < |u.parts| && PartStep(u, u', k);
      assert PartInv(u, k);
    }
  }

  /** A thread that reads the state Validating finds the closing request, until it has been sent. */
  lemma ValidatingHasClosing(run: seq<Upload>, n: nat)
    requires Run(run) && n < |run|
    requires run[n].state == Validating || run[n].user == SawValidating || run[n].user == StoredDefault
    ensures run[n].closing.Some? && run[n].close == NotSent && AllParts(run[n], Done)
  {
    RunKeepsInv(run, n);
  }

  /** Part requests are queued only by the one thread that moved the state on, and only never sent ones. */
  lemma PartsQueuedOnce(run: seq<Upload>, n: nat)
    requires Run(run) && n < |run|
    requires run[n].state == Sending || run[n].user == SawSending || run[n].user == StoredProcessing
    ensures run[n].create == Created && AllParts(run[n], Unsent) && run[n].close == NotSent
  {
    RunKeepsInv(run, n);
  }

  /** What the server's answers amount to; exactly one verdict kind is true of them. */
  predicate Truth(u: Upload, v: Verdict) {
    match v
    case CreateFailed => !u.createAnswer
    case PartFailed(k) => u.createAnswer && k < |u.outcomes| && u.outcomes[k].Failed?
    case ClosingFailed => u.createAnswer && AllTagged(u) && !u.closeAnswer
    case Success => u.createAnswer && AllTagged(u) && u.closeAnswer
  }

  /**
   When the upload has ended the user callback ran once, and what it was told is the truth: success
   exactly if the server accepted the create request, all parts and the complete request, otherwise the
   request that failed.
   */
  lemma VerdictIsTrue(run: seq<Upload>, n: nat)
    requires Run(run) && n < |run| && Ended(run[n])
    ensures run[n].callbacks == 1 && run[n].verdict.Some? && Truth(run[0], run[n].verdict.value)
    ensures run[n].verdict.value == Success <==> run[0].createAnswer && AllTagged(run[0]) && run[0].closeAnswer
    ensures run[n].verdict.value == CreateFailed <==> !run[0].createAnswer
    ensures run[n].verdict.value.PartFailed? <==> run[0].createAnswer && !AllTagged(run[0])
    ensures run[n].verdict.value == ClosingFailed <==>
              run[0].createAnswer && AllTagged(run[0]) && !run[0].closeAnswer
  {
    RunKeepsInv(run, n);
    if run[n].create.Created? {
      ClosingIsRight(run, n);
    }
  }

  // ---------------------------------------------------------------- every upload ends

  function Rank(pc: PartPc): nat {
    match pc
    case Unsent => 8 case InFlight => 7 case StoreError => 6 case StoreAborted => 5 case StoreTag => 5
    case Report => 4 case Decide => 3 case Store(_) => 2 case Validate => 1 case Done => 0
  }

  function SumRank(parts: seq<PartPc>): nat {
    if parts == [] then 0 else SumRank(parts[..|parts| - 1]) + Rank(parts[|parts| - 1])
  }

  lemma {:induction false} SumUpdate(parts: seq<PartPc>, k: nat, pc: PartPc)
    requires k < |parts|
    ensures SumRank(parts[k := pc]) == SumRank(parts) - Rank(parts[k]) + Rank(pc)
  {
    var m := |parts| - 1;
    if k == m {
      assert parts[k := pc][..m] == parts[..m];
    } else {
      assert parts[k := pc][..m] == parts[..m][k := pc];
      SumUpdate(parts[..m], k, pc);
    }
  }

  lemma {:induction false} SumAll(parts: seq<PartPc>, pc: PartPc)
    requires forall k {:trigger parts[k]} | 0 <= k < |parts| :: parts[k] == pc
    ensures SumRank(parts) == |parts| * Rank(pc)
  {
    if parts != [] {
      SumAll(parts[..|parts| - 1], pc);
    }
  }

  function UserRank(u: Upload): nat {
    match u.user
    case SawSending => 5
    case StoredProcessing => 4
    case SawValidating => 2
    case StoredDefault => 1
    case Polling => if AllParts(u, Unsent) then 6 else if u.close == NotSent then 3 else 0
  }

  function Measure(u: Upload): nat {
    (match u.create
     case NotQueued => |u.parts| + 4 case CreateInFlight => |u.parts| + 3
     case Building(k) => if k <= |u.parts| then |u.parts| - k + 1 else 0
     case CreateCounted => 1 case CreateEnded => 0 case Created => 0)
    + UserRank(u)
    + (match u.close case NotSent => 3 case CloseInFlight => 2 case CloseCounted => 1 case CloseEnded => 0)
    + SumRank(u.parts)
  }

  lemma StepDecreases(u: Upload, u': Upload)
    requires Inv(u) && Step(u, u')
    ensures Measure(u') < Measure(u)
  {
    if CreateStep(u, u') {
    } else if UserStep(u, u') {
      UserDecreases(u, u');
    } else if CloseStep(u, u') {
      assert u.user == Polling;
    } else {
      var k: nat :| k < |u.parts| && PartStep(u, u', k);
      PartDecreases(u, u', k);
    }
  }

  lemma PartDecreases(u: Upload, u': Upload, k: nat)
    requires Inv(u) && k < |u.parts| && PartStep(u, u', k)
    ensures Measure(u') < Measure(u)
  {
    SumUpdate(u.parts, k, u'.parts[k]);
    BusyIsWorking(u, k);
    assert u'.parts[k] != Unsent;
  }

  lemma UserDecreases(u: Upload, u': Upload)
    requires Inv(u) && UserStep(u, u')
    ensures Measure(u') < Measure(u)
  {
    assert u.parts[0] == Unsent || u.parts[0] != Unsent;
    if u.user.StoredProcessing? {
      SumAll(u.parts, Unsent);
      SumAll(u'.parts, InFlight);
      assert u'.parts[0] == InFlight;
    }
  }

  /** An upload that has not ended can always take another step. */
  lemma NeverStuck(u: Upload) returns (u': Upload)
    requires Inv(u) && !Ended(u)
    ensures Step(u, u')
  {
    if !u.create.Created? {
      u' := match u.create
        case NotQueued => u.(create := CreateInFlight)
        case CreateInFlight =>
          if u.createAnswer then u.(create := Building(0))
          else u.(create := CreateCounted, verdict := Some(CreateFailed))
        case CreateCounted => u.(create := CreateEnded, callbacks := u.callbacks + 1)
        case Building(k) =>
          if k < |u.parts| then u.(create := Building(k + 1)) else u.(create := Created, state := Sending);
    } else if AllParts(u, Unsent) {
      u' := match u.user
        case Polling => u.(user := SawSending)
        case SawSending => u.(user := StoredProcessing, state := Processing)
        case StoredProcessing => u.(user := Polling, parts := seq(|u.parts|, _ => InFlight));
      assert UserStep(u, u');
    } else if AllParts(u, Done) {
      u' := NeverStuckClosing(u);
    } else {
      u' := NeverStuckWorking(u);
    }
  }

  lemma NeverStuckClosing(u: Upload) returns (u': Upload)
    requires Inv(u) && !Ended(u) && Closed(u)
    ensures Step(u, u')
  {
    if u.close == NotSent {
      u' := match u.user
        case Polling => u.(user := SawValidating)
        case SawValidating => u.(user := StoredDefault, state := Default)
        case StoredDefault => u.(user := Polling, close := CloseInFlight);
      assert UserStep(u, u');
    } else {
      u' := if u.close == CloseInFlight then u.(close := CloseCounted, verdict := Some(CloseVerdict(u)))
            else u.(close := CloseEnded, callbacks := u.callbacks + 1);
      assert CloseStep(u, u');
    }
  }

  lemma NeverStuckWorking(u: Upload) returns (u': Upload)
    requires Inv(u) && Working(u) && !AllParts(u, Done)
    ensures Step(u, u')
  {
    var k: nat :| k < |u.parts| && u.parts[k] != Done;
    assert PartInv(u, k);
    u' := PartNext(u, k);
    assert PartStep(u, u', k);
  }

  ghost predicate CannotStep(u: Upload) {
    forall u' :: !Step(u, u')
  }

  /**
   Every run is finite, and a run that cannot be continued has ended with exactly one user callback:
   no interleaving loses the upload or calls the user twice.
   */
  lemma {:induction false} EveryUploadEnds(run: seq<Upload>)
    requires Run(run)
    ensures |run| + Measure(run[|run| - 1]) <= Measure(run[0]) + 1
    ensures run[|run| - 1].callbacks <= 1
    ensures CannotStep(run[|run| - 1]) ==> Ended(run[|run| - 1]) && run[|run| - 1].callbacks == 1
  {
    var n := |run| - 1;
    RunKeepsInv(run, n);
    if n > 0 {
      assert run[..n][n - 1] == run[n - 1];
      EveryUploadEnds(run[..n]);
      RunKeepsInv(run, n - 1);
      StepDecreases(run[n - 1], run[n]);
    }
    if !Ended(run[n]) {
      var next := NeverStuck(run[n]);
    }
  }

  // ---------------------------------------------------------------- uploads without parts

  /** An upload without parts whose create request succeeds: its parts are sent, and that was all. */
  lemma NoPartsGetStuck(u: Upload) returns (run: seq<Upload>, v: Upload)
    requires Initial(u) && |u.outcomes| == 0 && u.createAnswer
    ensures Path(run, u, v) && CannotStep(v) && !Ended(v)
    ensures v == u.(create := Created, state := Processing)
  {
    var u1 := u.(create := CreateInFlight);
    var u2 := u1.(create := Building(0));
    var u3 := u2.(create := Created, state := Sending);
    var u4 := u3.(user := SawSending);
    var u5 := u4.(user := StoredProcessing, state := Processing);
    v := u5.(user := Polling, parts := []);
    run := [u, u1, u2, u3, u4, u5, v];
    assert UserStep(u3, u4) && UserStep(u4, u5) && UserStep(u5, v);
  }

  /** Until it ends, an upload whose create request fails is in one of these states. */
  ghost predicate Failing(u: Upload) {
    && u.state == Default && u.user == Polling && u.close == NotSent && u.parts == [] && !u.createAnswer
    && (u.create == NotQueued || u.create == CreateInFlight || u.create == CreateCounted || u.create == CreateEnded)
  }

  lemma {:induction false} RefusedEnds(run: seq<Upload>, u: Upload, v: Upload)
    requires Failing(u) && Path(run, u, v)
    ensures Failing(v) && (CannotStep(v) ==> Ended(v))
    decreases |run|
  {
    var n := |run| - 1;
    if n > 0 {
      RefusedEnds(run[..n], u, run[n - 1]);
      assert Step(run[n - 1], run[n]);
    }
    if !Ended(v) {
      var w := if v.create == NotQueued then v.(create := CreateInFlight)
               else if v.create == CreateInFlight then v.(create := CreateCounted, verdict := Some(CreateFailed))
               else v.(create := CreateEnded, callbacks := v.callbacks + 1);
      assert CreateStep(v, w) && Step(v, w);
    }
  }

  /**
   All ways an upload can go come to an end with the user callback if and only if it has parts or its create
   request fails.
   */
  lemma EndsIff(u: Upload)
    requires Initial(u)
    ensures (forall run, v :: Path(run, u, v) && CannotStep(v) ==> Ended(v))
            <==> |u.outcomes| >= 1 || !u.createAnswer
  {
    hide Inv, Step;
    if |u.outcomes| >= 1 {
      forall run, v | Path(run, u, v) && CannotStep(v) ensures Ended(v) {
        EveryUploadEnds(run);
      }
    } else if !u.createAnswer {
      forall run, v | Path(run, u, v) && CannotStep(v) ensures Ended(v) {
        RefusedEnds(run, u, v);
      }
    } else {
      var run, v := NoPartsGetStuck(u);
    }
  }
}
