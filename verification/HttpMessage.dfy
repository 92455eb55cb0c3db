/**
 One HTTP round trip, `HTTPMessage::execute` and `reset` (`src/network/http_message.cpp`), over any
 schedule of the kernel: partial writes and reads, errors, time-outs and failing connects.
 */
module HttpMessage {
  import opened Wrappers
  import opened Kernel
  import opened Sequences
  import opened DataVector
  import opened HttpResponse
  import opened HttpHelper

  datatype State = Init | InitSending | Sending | InitReceiving | Receiving | Finished | Aborted

  /** What the pointer of a request points to. */
  datatype Buffer = FromMessage(offset: int) | FromPut(offset: int) | IntoReceive(offset: int)

  /**
   `length` is the requested length until the kernel overwrites it with its result; `timed` tells whether
   the request was issued with a time-out.
   */
  datatype Request = Request(data: Buffer, length: int, fd: int, timed: bool)

  const FAILURES_MAX := 32
  const CONNECTION_FAILURES_MAX := 4

  /** The cause noted for what `finished` answers. */
  function Verdict(p: Progress): set<Failure> {
    if p.Throws? || (p.done && !CheckSuccess(p.info.response.code)) then {HttpFailure} else {}
  }

  /** The info is what `detect` finds in the first chunk; only a chunked body changes its length later. */
  ghost predicate From(first: string, info: Info, memory: nat) {
    && DetectSpec(first, memory).Ok?
    && var d := DetectSpec(first, memory).value;
       && info.response == d.response && info.headerLength == d.headerLength && info.encoding == d.encoding
       && (info.encoding == ContentLength ==> info == d)
  }

  /** The next bytes of what is to be sent, taken from the message or from the data behind it. */
  lemma TotalGoesOn(message: string, putData: string, n: nat, k: nat)
    ensures n + k <= |message| ==> (message + putData)[..n] + message[n..][..k] == (message + putData)[..n + k]
    ensures |message| <= n && n + k <= |message| + |putData| ==>
              (message + putData)[..n] + putData[n - |message|..][..k] == (message + putData)[..n + k]
  {
  }

  class Message {
    const chunkSize: nat
    const putData: string
    const supportsResigning: bool
    const receive: DataVector<char>
    var message: string
    var state: State
    var request: Option<Request>
    var sendBufferOffset: int
    var receiveBufferOffset: int
    var failures: nat
    var failureCode: set<Failure>
    var info: Option<Info>
    var response: Option<Info>
    /** The connects so far and, in order, the descriptors they gave and those that were disconnected. */
    ghost var connects: nat
    var obtained: seq<int>
    ghost var closed: seq<int>
    /** The traffic reported with the last disconnect, unless it forced a shutdown. */
    ghost var reused: Option<int>
    /** What the peer took and sent in this connection attempt, and whether a write failed for good. */
    ghost var accepted: string
    ghost var received: string
    ghost var sendFailed: bool
    /** The chunk in which the header was read, and what uninitialised header info held then. */
    ghost var first: string
    ghost var memory: nat
    /** The number of requests handed to the socket, and of times the message was signed anew. */
    ghost var issued: nat
    ghost var signings: nat

    /** Everything one attempt has to send. */
    ghost function Total(): string
      reads this`message
    {
      message + putData
    }

    /** An attempt holds a connection. */
    ghost predicate Connected()
      reads this`state
    {
      state == Sending || state == InitReceiving || state == Receiving
    }

    /** Every descriptor is new, and all but the one in use were disconnected, once each and in order. */
    ghost predicate Handles()
      reads this`state, this`request, this`obtained, this`closed
    {
      && (Connected() ==> request.Some? && request.value.fd >= 0 && obtained == closed + [request.value.fd])
      && (!Connected() ==> obtained == closed)
      && (state == Init && request.Some? ==> request.value.fd == -1)
      && Distinct(obtained)
    }

    /** How failures bound the connects. */
    ghost predicate Counts()
      reads this`state, this`failures, this`connects, this`obtained
    {
      && failures <= 34 && connects <= 34 && |obtained| <= connects
      && (state == Init ==> connects == failures <= 33)
      && (Connected() || state == Finished ==> connects == failures + 1 <= 34 && obtained != [])
      && (obtained == [] && state == Init ==> failures <= 5)
      && (obtained == [] && state == Aborted ==> connects == 6)
    }

    /** The request on its way writes the next bytes, never none. */
    ghost predicate WaitsToSend()
      reads this`message, this`request, this`sendBufferOffset, this`accepted
      requires request.Some?
    {
      var r := request.value;
      && |accepted| == sendBufferOffset < |Total()| && accepted == Total()[..|accepted|]
      && r.length > 0 && (r.timed <==> r.length <= chunkSize)
      && match r.data
         case FromMessage(o) => 0 <= o && o + r.length == |message| && o == sendBufferOffset
         case FromPut(o) => 0 <= o && o + r.length == |putData| && |message| + o == sendBufferOffset
         case IntoReceive(_) => false
    }

    /** The write completed; `length` is the kernel's answer. */
    ghost predicate SendCompleted()
      reads this`message, this`request, this`sendBufferOffset, this`accepted, this`sendFailed
      requires request.Some?
    {
      var result := request.value.length;
      && 0 <= sendBufferOffset < |Total()|
      && |accepted| == sendBufferOffset + Max(result, 0) <= |Total()|
      && accepted == Total()[..|accepted|]
      && (sendFailed <==> result <= 0 && !Soft(result) && !TimedOut(result))
    }

    /** Reading starts only after everything was sent, or after a write failed for good. */
    ghost predicate AllSent()
      reads this`message, this`accepted, this`sendFailed, this`sendBufferOffset
    {
      && sendBufferOffset == |accepted| <= |Total()| && accepted == Total()[..|accepted|]
      && (sendFailed || accepted == Total())
    }

    /** The buffer holds what was received and has room for one more chunk behind it. */
    ghost predicate WaitsToReceive()
      reads this`request, this`receiveBufferOffset, this`received, receive, receive.data
      requires request.Some?
    {
      && request.value.data == IntoReceive(receiveBufferOffset) && request.value.length == chunkSize
         && request.value.timed
      && receive.size == receiveBufferOffset + chunkSize <= receive.Capacity()
      && receiveBufferOffset == |received| && receive.data[..|received|] == received
    }

    ghost predicate ReceiveCompleted()
      reads this`request, this`receiveBufferOffset, this`received, receive, receive.data
      requires request.Some?
    {
      var result := request.value.length;
      && result <= chunkSize
      && 0 <= receiveBufferOffset && receive.size == receiveBufferOffset + chunkSize <= receive.Capacity()
      && |received| == receiveBufferOffset + Max(result, 0)
      && receive.data[..|received|] == received
    }

    /** The header info is there as soon as bytes are, and it did not call the response complete. */
    ghost predicate Incomplete(sofar: string)
      reads this`info, this`first, this`memory
    {
      && (info.None? <==> sofar == "")
      && (info.Some? ==> FinishedWith(sofar, info.value) == Answer(false, info.value))
      && (info.Some? ==> first <= sofar && From(first, info.value, memory))
    }

    ghost predicate Basics()
      reads this`message, this`state, this`request, this`obtained, this`closed, this`reused, this`failures,
          this`connects
      reads receive
    {
      && 0 < chunkSize && message != "" && receive.Valid()
      && Handles() && Counts() && state != InitSending
      && (!Ended() ==> reused.None?)
    }

    /** One request is on its way. */
    ghost predicate Waiting()
      reads this, receive, receive.data
    {
      && Basics() && (state == Sending || state == Receiving)
      && (state == Sending ==> WaitsToSend() && info.None? && !sendFailed)
      && (state == Receiving ==> AllSent() && WaitsToReceive() && Incomplete(received))
    }

    /** `Execute` may be called: at the start, when the request has completed, or when all is over. */
    ghost predicate Ready()
      reads this, receive, receive.data
    {
      && Basics()
      && (state == Init ==> info.None?)
      && (state == Sending ==> SendCompleted() && info.None?)
      && (state == InitReceiving ==>
            AllSent() && info.None? && received == "" && receiveBufferOffset == 0 && receive.size == 0)
      && (state == Receiving ==> AllSent() && ReceiveCompleted() && Incomplete(received[..receiveBufferOffset]))
      && (Ended() ==> Final())
    }

    ghost predicate Ended()
      reads this`state
    {
      state == Finished || state == Aborted
    }

    /** How a round trip ends: a connection is given back for reuse only after a complete, successful response. */
    ghost predicate Final()
      reads this, receive, receive.data
    {
      && (state == Finished ==>
            && AllSent() && reused == Some(|accepted| + |received|)
            && receive.Valid() && receive.Contents() == received
            && response.Some? && CheckSuccess(response.value.response.code)
            && FinishedWith(received, response.value) == Answer(true, response.value)
            && first <= received && From(first, response.value, memory))
      && (state == Aborted ==> reused.None? && failureCode != {} && GivenUp())
    }

    /** A task is given up at its 34th failure, from its 6th on if it cannot connect, or for what the server said. */
    ghost predicate GivenUp()
      reads this`failures, this`failureCode, this`response
    {
      || failures >= 34
      || (failures >= 6 && SocketFailure in failureCode)
      || (response.Some? && !CheckSuccess(response.value.response.code) && HttpFailure in failureCode)
    }

    constructor (message: string, putData: string, chunkSize: nat, supportsResigning: bool)
      requires message != "" && chunkSize > 0
      ensures Ready() && state == Init && failures == connects == 0 && obtained == closed == []
      ensures signings == issued == 0 && fresh(receive) && fresh(receive.data)
    {
      this.message, this.putData, this.chunkSize, this.supportsResigning := message, putData, chunkSize,
         supportsResigning;
      receive := new DataVector();
      state, request, info, response := Init, None, None, None;
      sendBufferOffset, receiveBufferOffset, failures, failureCode := 0, 0, 0, {};
      connects, obtained, closed, reused, accepted, received, sendFailed, issued := 0, [], [], None, "", "", false, 0;
      first, memory, signings := "", 0, 0;
    }

    /** The connection manager takes the descriptor back, to cache it or to shut it down. */
    method Disconnect(bytes: int, shutdown: bool)
      requires request.Some?
      modifies this`closed, this`reused
      ensures closed == old(closed) + [request.value.fd] && reused == if shutdown then None else Some(bytes)
    {
      closed := closed + [request.value.fd];
      reused := if shutdown then None else Some(bytes);
    }

    /** `reset`. */
    method Reset(aborted: bool)
      requires request.Some? && request.value.fd >= 0 ==> obtained == closed + [request.value.fd]
      requires request.Some? && request.value.fd < 0 ==> obtained == closed && request.value.fd == -1
      requires request.None? ==> obtained == closed
      requires message != "" && (reused.None? || (request.Some? && request.value.fd >= 0))
      modifies this`state, this`message, this`request, this`sendBufferOffset, this`receiveBufferOffset, this`info
      modifies this`closed, this`reused, this`signings, receive`size
      ensures state == if aborted then Aborted else Init
      ensures message != "" && (signings == old(signings) ==> message == old(message))
      ensures signings == old(signings) + if HttpFailure in failureCode && supportsResigning then 1 else 0
      ensures obtained == closed && reused.None? && request.Some? == old(request).Some?
      ensures request.Some? ==> request.value.fd == -1
      ensures !aborted ==> info.None? && receiveBufferOffset == sendBufferOffset == receive.size == 0
      ensures receive.size <= old(receive.size)
    {
      if !aborted {
        receive.Clear();
        receiveBufferOffset := 0;
        sendBufferOffset := 0;
        info := None;
        state := Init;
      } else {
        state := Aborted;
      }
      if HttpFailure in failureCode && supportsResigning {
        // The provider signs the request anew; a request is never empty.
        var signed: string :| signed != "";
        message, signings := signed, signings + 1;
      }
      if request.Some? && request.value.fd >= 0 {
        Disconnect(0, true);
        request := Some(request.value.(fd := -1));
      }
    }

    /** The common failure path: note the cause, count it, and start over unless there were too many. */
    method Fail(cause: Failure, max: nat)
      requires Handles() && (Connected() || state == Init) && reused.None?
      requires chunkSize > 0 && message != "" && receive.Valid()
      requires connects == failures + 1 <= 34 && |obtained| <= connects
      requires max == CONNECTION_FAILURES_MAX || (max == FAILURES_MAX && obtained != [])
      requires obtained == [] ==> failures <= 5
      requires max == CONNECTION_FAILURES_MAX ==> cause == SocketFailure
      modifies this`state, this`message, this`request, this`sendBufferOffset, this`receiveBufferOffset, this`info
      modifies this`closed, this`reused, this`failures, this`failureCode, this`signings, receive`size
      ensures Ready() && state == (if old(failures) > max then Aborted else Init) && failures == old(failures) + 1
      ensures failureCode == old(failureCode) + {cause}
      ensures signings == old(signings) + if HttpFailure in failureCode && supportsResigning then 1 else 0
    {
      failureCode := failureCode + {cause};
      var aborted := failures > max;
      failures := failures + 1;
      Reset(aborted);
    }

    /** A failed attempt is repeated, unless it was the 34th. */
    ghost predicate Retried(before: nat)
      reads this`state, this`failures
    {
      failures == before + 1 && state == if failures >= 34 then Aborted else Init
    }

    /** A connected attempt fails. */
    method Retry(cause: Failure)
      requires Basics() && Connected()
      modifies this`state, this`message, this`request, this`sendBufferOffset, this`receiveBufferOffset, this`info
      modifies this`closed, this`reused, this`failures, this`failureCode, this`signings, receive`size
      ensures Ready() && Retried(old(failures)) && failureCode == old(failureCode) + {cause}
      ensures signings == old(signings) + if HttpFailure in failureCode && supportsResigning then 1 else 0
    {
      hide Message.Ready;
      Fail(cause, FAILURES_MAX);
    }

    /** `connect` threw. */
    method Refused()
      requires Handles() && state == Init && reused.None? && chunkSize > 0 && message != "" && receive.Valid()
      requires connects == failures + 1 <= 34 && |obtained| <= connects && (obtained == [] ==> failures <= 5)
      modifies this`state, this`message, this`request, this`sendBufferOffset, this`receiveBufferOffset, this`info
      modifies this`closed, this`reused, this`failures, this`failureCode, this`signings, receive`size
      ensures Ready() && failures == old(failures) + 1 && failureCode == old(failureCode) + {SocketFailure}
      ensures state == if failures >= 6 then Aborted else Init
    {
      if request.Some? {
        request := Some(request.value.(fd := -1));
      }
      Fail(SocketFailure, CONNECTION_FAILURES_MAX);
    }

    /** The `Init` case: a new connection, or a failure. */
    method Connect()
      requires Ready() && state == Init
      modifies this`state, this`message, this`request, this`sendBufferOffset, this`receiveBufferOffset, this`info
      modifies this`closed, this`reused, this`failures, this`failureCode, this`signings, receive`size
      modifies this`connects, this`obtained, this`accepted, this`sendFailed, this`issued
      ensures state == Sending ==>
            Waiting() && failures == old(failures) && issued == old(issued) + 1 && sendBufferOffset == 0
      ensures failureCode == old(failureCode) + if state == Sending then {} else {SocketFailure}
      ensures state != Sending ==>
                Ready() && failures == old(failures) + 1 && issued == old(issued)
                && state == if failures >= 6 then Aborted else Init
    {
      hide FinishedWith, From, Message.WaitsToSend, Message.SendCompleted, Message.WaitsToReceive,
          Message.ReceiveCompleted;
      hide Message.AllSent, Message.Incomplete, Message.Final, Distinct, Cause, Verdict, Soft, TimedOut;
      connects := connects + 1;
      accepted, sendFailed := "", false;
      // The connection manager gives a descriptor nobody has, or throws.
      var fd: int := *;
      if fd < 0 || fd in obtained {
        Refused();
        return;
      }
      DistinctMore(obtained, fd);
      obtained := obtained + [fd];
      state := InitSending;
      sendBufferOffset := 0;
      IssueSend(fd);
    }

    /** The tail of the sending case: the next write, from the message or from the data behind it. */
    method IssueSend(fd: int)
      requires chunkSize > 0 && message != "" && receive.Valid() && reused.None?
      requires fd >= 0 && obtained == closed + [fd] && Distinct(obtained)
      requires connects == failures + 1 <= 34 && |obtained| <= connects
      requires |accepted| == sendBufferOffset < |Total()| && accepted == Total()[..|accepted|]
      requires info.None? && !sendFailed
      modifies this`state, this`request, this`issued
      ensures Waiting() && state == Sending && issued == old(issued) + 1
    {
      state := Sending;
      var ptr, length := FromMessage(sendBufferOffset), |message| - sendBufferOffset;
      if |putData| > 0 && sendBufferOffset >= |message| {
        ptr := FromPut(sendBufferOffset - |message|);
        length := |putData| + |message| - sendBufferOffset;
      }
      request := Some(Request(ptr, length, fd, length <= chunkSize));
      issued := issued + 1;
    }

    /** The `Sending` case up to the next write: move on, give up on this attempt, or carry on. */
    method AfterSend() returns (again: bool)
      requires Ready() && state == Sending
      modifies this`state, this`message, this`request, this`sendBufferOffset, this`receiveBufferOffset, this`info
      modifies this`closed, this`reused, this`failures, this`failureCode, this`signings, this`received, this`issued
      modifies receive`size
      ensures again ==> Ready() && issued == old(issued)
      ensures !again ==> Waiting() && state == Sending && issued == old(issued) + 1
      ensures failureCode == old(failureCode) + Cause(old(request.value.length), SendFailure)
      ensures var result, sent := old(request.value.length), old(|accepted|);
              && (again <==> (result <= 0 && !Soft(result)) || sent == old(|Total()|))
              && (again && result <= 0 && TimedOut(result) ==>
                    Retried(old(failures)))
              && (again && !(result <= 0 && TimedOut(result)) ==> failures == old(failures) && state == InitReceiving)
              && (!again ==> failures == old(failures) && sendBufferOffset == sent)
    {
      hide FinishedWith, From, FinishedSpec;
      var fd, result := request.value.fd, request.value.length;
      if result > 0 {
        sendBufferOffset := sendBufferOffset + result;
      } else if !Soft(result) {
        if TimedOut(result) {
          Retry(TimeoutFailure);
        } else {
          failureCode := failureCode + {SendFailure};
          StartReceiving();
        }
        return true;
      }
      if sendBufferOffset >= |message| + |putData| {
        StartReceiving();
        return true;
      }
      IssueSend(fd);
      again := false;
    }

    method StartReceiving()
      modifies this`state, this`receiveBufferOffset, this`received, receive`size
      ensures state == InitReceiving && receiveBufferOffset == 0 && received == "" && receive.size == 0
    {
      state := InitReceiving;
      receiveBufferOffset := 0;
      receive.Clear();
      received := "";
    }

    /** The `Receiving` case up to the next read; `garbage` is what uninitialised header info holds. */
    method AfterReceive(garbage: nat) returns (again: bool)
      requires Ready() && state == Receiving && request.Some?
      modifies this`state, this`message, this`request, this`sendBufferOffset, this`receiveBufferOffset, this`info
      modifies this`closed, this`reused, this`failures, this`failureCode, this`signings, this`response, receive
      modifies this`first, this`memory
      ensures again ==> Ready() && issued == old(issued)
      ensures !again ==> Basics() && state == Receiving && AllSent() && Incomplete(received)
      ensures !again ==> receive.size == receiveBufferOffset == |received| && receive.data[..|received|] == received
      ensures !again ==> request == old(request)
      ensures var result := old(request.value.length);
              failureCode == old(failureCode) +
                             if result == 0 then {EmptyFailure}
                             else if result < 0 then Cause(result, RecvFailure)
                             else Verdict(FinishedSpec(received, old(info), garbage))
      ensures var result := old(request.value.length);
              && received == old(received)
              && (Soft(result) ==> !again && info == old(info) && failures == old(failures))
              && (result <= 0 && !Soft(result) ==> again && Retried(old(failures)))
              && (result > 0 ==>
                    match FinishedSpec(received, old(info), garbage)
                    case Throws => again && Retried(old(failures))
                    case Answer(true, i) =>
                      again && response == Some(i) && failures == old(failures)
                      && state == (if CheckSuccess(i.response.code) then Finished else Aborted)
                    case Answer(false, i) => !again && info == Some(i) && failures == old(failures))
      ensures receive.data == old(receive.data) || fresh(receive.data)
    {
      hide FinishedWith, From, FinishedSpec, CheckSuccess, Message.Handles, Message.Counts, Message.WaitsToSend,
          Message.SendCompleted;
      hide Message.WaitsToReceive, Message.Total, Message.Final;
      var result := request.value.length;
      if result == 0 {
        Retry(EmptyFailure);
        return true;
      } else if result > 0 {
        receive.Resize(receive.size - (chunkSize - result));
        receiveBufferOffset := receiveBufferOffset + result;
        again := Examine(garbage);
        if again {
          return;
        }
      } else if !Soft(result) {
        Retry(if TimedOut(result) then TimeoutFailure else RecvFailure);
        return true;
      } else {
        receive.Resize(receive.size - chunkSize);
        assert received[..receiveBufferOffset] == received;
      }
      hide Message.Basics, Message.Ready, Message.AllSent, Message.Incomplete, Message.ReceiveCompleted;
      Grow();
      again := false;
    }

    /** Asks whether the response is complete and ends the task if it is. */
    method Examine(garbage: nat) returns (again: bool)
      requires Basics() && state == Receiving && AllSent()
      requires receive.size == receiveBufferOffset == |received| && receive.data[..|received|] == received != ""
      requires info.Some? ==> first <= received && From(first, info.value, memory)
      modifies this`state, this`message, this`request, this`sendBufferOffset, this`receiveBufferOffset, this`info
      modifies this`first, this`memory
      modifies this`closed, this`reused, this`failures, this`failureCode, this`signings, this`response, receive`size
      ensures again ==> Ready()
      ensures !again ==> Basics() && state == Receiving && AllSent() && Incomplete(received) && request == old(request)
      ensures !again ==> receive.size == receiveBufferOffset == |received| && receive.data[..|received|] == received
      ensures failureCode == old(failureCode) + Verdict(FinishedSpec(received, old(info), garbage))
      ensures match FinishedSpec(received, old(info), garbage)
              case Throws => again && Retried(old(failures))
              case Answer(true, i) =>
                again && response == Some(i) && failures == old(failures)
                && state == (if CheckSuccess(i.response.code) then Finished else Aborted)
              case Answer(false, i) => !again && info == Some(i) && failures == old(failures)
    {
      hide FinishedWith, From, FinishedSpec, Message.Ready, Message.Handles;
      var progress := HttpHelper.Finished(receive.data[..receiveBufferOffset], info, garbage);
      match progress {
        case Throws =>
          Retry(HttpFailure);
          again := true;
        case Answer(done, i) =>
          if info.None? {
            first, memory := received, garbage;
          }
          info := Some(i);
          AnswerIsOwn(received, old(info), garbage, first, memory);
          if done {
            Conclude();
          }
          again := done;
      }
    }

    /** The response is complete: it is handed over and the connection given back. */
    method Conclude()
      requires Basics() && state == Receiving && AllSent() && info.Some?
      requires FinishedWith(received, info.value) == Answer(true, info.value)
      requires first <= received && From(first, info.value, memory)
      requires receive.size == receiveBufferOffset == |received| && receive.data[..|received|] == received
      modifies this`state, this`info, this`closed, this`reused, this`failureCode, this`response
      ensures Ready() && response == old(info) && info == None
      ensures state == if CheckSuccess(old(info).value.response.code) then Finished else Aborted
      ensures failureCode == old(failureCode) + if state == Aborted then {HttpFailure} else {}
    {
      hide FinishedWith, From, Message.WaitsToSend, Message.SendCompleted, Message.WaitsToReceive,
          Message.ReceiveCompleted;
      hide Message.Incomplete, Message.Total, Distinct;
      assert receive.Contents() == received;
      hide CheckSuccess, Soft, TimedOut;
      response := info;
      info := None;
      var success := CheckSuccess(response.value.response.code);
      Disconnect(sendBufferOffset + receiveBufferOffset, !success);
      if success {
        state := Finished;
      } else {
        failureCode := failureCode + {HttpFailure};
        state := Aborted;
      }
    }

    /** What the buffer has to hold before the next read: the announced length if it is known. */
    function Needed(): nat
      requires info.Some?
      reads this`info, receive
    {
      Max((info.value.length + info.value.headerLength + chunkSize) % U64, receive.Capacity() + receive.Capacity() / 2)
    }

    /** Makes room for the announced length once it is known, if the next chunk does not fit. */
    method Grow()
      requires receive.Valid()
      modifies receive`data
      ensures var cap := old(receive.Capacity());
              && cap <= receive.Capacity()
              && (cap >= receive.size + chunkSize || info.None? ==> receive.data == old(receive.data))
              && (cap < receive.size + chunkSize && info.Some? ==>
                    && receive.Capacity() >= (info.value.length + info.value.headerLength + chunkSize) % U64
                    && receive.Capacity() >= cap + cap / 2
                    && receive.Capacity() == old(Needed()))
      ensures receive.Valid() && receive.Contents() == old(receive.Contents())
      ensures receive.data == old(receive.data) || fresh(receive.data)
    {
      if receive.Capacity() < receive.size + chunkSize && info.Some? {
        receive.Reserve(Needed());
      }
    }

    /** The tail of the receiving case: room for one more chunk and the next read. */
    method IssueReceive()
      requires Basics() && (state == InitReceiving || state == Receiving) && AllSent() && Incomplete(received)
      requires receive.size == receiveBufferOffset == |received| && receive.data[..|received|] == received
      modifies this`state, this`request, this`issued, receive
      ensures request.Some? && receiveBufferOffset == old(receiveBufferOffset)
      ensures Waiting() && state == Receiving && issued == old(issued) + 1
      ensures receive.data == old(receive.data) || fresh(receive.data)
    {
      hide FinishedWith, From, Distinct, Message.WaitsToSend, Message.SendCompleted, Message.ReceiveCompleted;
      hide Message.Total, Message.Final;
      receive.Resize(receive.size + chunkSize);
      request := Some(Request(IntoReceive(receiveBufferOffset), chunkSize, request.value.fd, true));
      issued := issued + 1;
      state := Receiving;
    }

    /** How far the recursion of `execute` still is from its end. */
    ghost function Rank(): nat
      reads this`state
    {
      if state == Sending || state == Receiving then 2 else if state == InitReceiving then 1 else 0
    }

    /** A new attempt was made, or no more are. */
    ghost predicate Restarted(before: nat)
      reads this`state, this`failures
    {
      failures > before && (state == Sending || state == Aborted)
    }

    /** What follows a completed write with this result, `sent` of `all` bytes and so many failures before. */
    ghost predicate SendStep(result: int, sent: int, all: int, before: nat)
      reads this`state, this`failures, this`sendBufferOffset, this`receiveBufferOffset, this`failureCode
    {
      Cause(result, SendFailure) <= failureCode &&
      if result <= 0 && TimedOut(result) then Restarted(before)
      else
        && failures == before
        && if (result <= 0 && !Soft(result)) || sent == all then state == Receiving && receiveBufferOffset == 0
           else state == Sending && sendBufferOffset == sent
    }

    /** What follows a completed read, by what was received in this attempt. */
    ghost predicate ReceiveStep(result: int, got: string, cached: Option<Info>, garbage: nat, before: nat)
      reads this`state, this`failures, this`received, this`info, this`response, this`failureCode
    {
      && (result > 0 ==> Verdict(FinishedSpec(got, cached, garbage)) <= failureCode)
      && (result < 0 ==> Cause(result, RecvFailure) <= failureCode) && (result == 0 ==> EmptyFailure in failureCode)
      &&
      if Soft(result) then state == Receiving && failures == before && received == got && info == cached
      else if result <= 0 then Restarted(before)
      else match FinishedSpec(got, cached, garbage)
           case Throws => Restarted(before)
           case Answer(true, i) =>
             response == Some(i) && received == got && state
                == if CheckSuccess(i.response.code) then Finished else Aborted
           case Answer(false, i) => state == Receiving && failures == before && received == got && info == Some(i)
    }

    /** One request is out, or the task has ended and none is. */
    ghost predicate Executed(issuedBefore: nat)
      reads this, receive, receive.data
    {
      if state == Sending || state == Receiving then Waiting() && issued == issuedBefore + 1
      else Ready() && Ended() && issued == issuedBefore
    }

    /**
     `execute`. It comes back with exactly one request issued, or with the task ended and none; what it
     did follows from the result of the request that completed.
     */
    method Execute(garbage: nat) returns (s: State)
      requires Ready()
      modifies this, receive
      ensures s == state && old(failures) <= failures && Executed(old(issued)) && old(failureCode) <= failureCode
      ensures old(state) == Sending ==>
                SendStep(old(request.value.length), old(|accepted|), old(|Total()|), old(failures))
      ensures old(state) == Receiving ==>
                ReceiveStep(old(request.value.length), old(received), old(info), garbage, old(failures))
      ensures old(state) == Init ==> s == Sending || s == Aborted
      ensures old(state) == InitReceiving ==> s == Receiving && failures == old(failures) && receiveBufferOffset == 0
      ensures old(Ended()) ==> s == old(state) && response == old(response) && received == old(received)
      ensures receive.data == old(receive.data) || fresh(receive.data)
      decreases 34 - failures, Rank(), 1
    {
      hide FinishedWith, From, FinishedSpec, CheckSuccess, Distinct, Message.SendStep, Message.ReceiveStep;
      match state {
        case Init =>
          Connect();
          if state == Sending {
            return state;
          }
          s := Execute(garbage);
        case Sending =>
          s := ExecuteSending(garbage);
        case InitReceiving =>
          IssueReceive();
          s := state;
        case Receiving =>
          s := ExecuteReceiving(garbage);
        case _ =>
          s := state;
      }
    }

    method ExecuteSending(garbage: nat) returns (s: State)
      requires Ready() && state == Sending
      modifies this, receive
      ensures s == state && old(failures) <= failures && Executed(old(issued)) && old(failureCode) <= failureCode
      ensures SendStep(old(request.value.length), old(|accepted|), old(|Total()|), old(failures))
      ensures receive.data == old(receive.data) || fresh(receive.data)
      decreases 34 - failures, Rank(), 0
    {
      hide FinishedWith, From, FinishedSpec, CheckSuccess, Distinct, Message.ReceiveStep;
      var again := AfterSend();
      if again {
        s := Execute(garbage);
      } else {
        s := state;
      }
    }

    method ExecuteReceiving(garbage: nat) returns (s: State)
      requires Ready() && state == Receiving
      modifies this, receive
      ensures s == state && old(failures) <= failures && Executed(old(issued)) && old(failureCode) <= failureCode
      ensures ReceiveStep(old(request.value.length), old(received), old(info), garbage, old(failures))
      ensures receive.data == old(receive.data) || fresh(receive.data)
      decreases 34 - failures, Rank(), 0
    {
      hide FinishedWith, From, FinishedSpec, CheckSuccess, Distinct, Message.SendStep;
      var again := AfterReceive(garbage);
      if again {
        s := Execute(garbage);
      } else {
        IssueReceive();
        s := state;
      }
    }

    /** The bytes an outstanding write offers. */
    ghost function Offered(): string
      reads this`message, this`request, this`sendBufferOffset, this`accepted
      requires request.Some? && WaitsToSend()
    {
      var r := request.value;
      match r.data
      case FromMessage(o) => message[o..o + r.length]
      case FromPut(o) => putData[o..o + r.length]
    }

    /** The kernel ends a write: it took some of the bytes it was offered, or failed. */
    method CompleteWrite(result: int)
      requires Waiting() && state == Sending && result <= request.value.length
      modifies this`request, this`accepted, this`sendFailed
      ensures Ready() && accepted == old(accepted + Offered()[..Max(result, 0)])
      ensures request == Some(old(request.value).(length := result))
      ensures sendFailed <==> result <= 0 && !Soft(result) && !TimedOut(result)
    {
      hide FinishedWith, From, Distinct, Message.Counts, Message.WaitsToReceive, Message.ReceiveCompleted;
      hide Message.AllSent, Message.Incomplete, Message.Final, Soft, TimedOut;
      TotalGoesOn(message, putData, |accepted|, Max(result, 0));
      accepted := accepted + Offered()[..Max(result, 0)];
      sendFailed := result <= 0 && !Soft(result) && !TimedOut(result);
      request := Some(request.value.(length := result));
    }

    /** The kernel ends a read: it put bytes where the request points to, or failed, or the peer closed. */
    method CompleteRead(result: int, bytes: string)
      requires Waiting() && state == Receiving && result <= request.value.length && |bytes| == Max(result, 0)
      modifies this`request, this`received, receive.data
      ensures Ready() && received == old(received) + bytes
      ensures request == Some(old(request.value).(length := result))
    {
      hide FinishedWith, From, Distinct, Message.Counts, Message.AllSent;
      ghost var before := received;
      Fill(receive.data, receiveBufferOffset, bytes);
      received := received + bytes;
      request := Some(request.value.(length := result));
      assert received[..|before|] == before;
    }

    /** The kernel puts bytes where the pointer of the request points to. */
    static method Fill(data: array<char>, at: nat, bytes: string)
      requires at + |bytes| <= data.Length
      modifies data
      ensures data[..at + |bytes|] == old(data[..at]) + bytes
    {
      var i := 0;
      while i < |bytes|
        invariant i <= |bytes| && data[..at] == old(data[..at]) && data[at..at + i] == bytes[..i]
      {
        data[at + i] := bytes[i];
        i := i + 1;
      }
      assert data[..at + i] == data[..at] + data[at..at + i];
    }

    /** Whatever request is out, the kernel ends it in some way its contract allows. */
    method Complete()
      requires Waiting()
      modifies this`request, this`accepted, this`sendFailed, this`received, receive.data
      ensures Ready() && !Ended()
    {
      hide FinishedWith, From, Distinct;
      var result: int, bytes: string := *, *;
      if result > request.value.length || |bytes| != Max(result, 0) {
        result, bytes := -EAGAIN, "";
      }
      if state == Sending {
        CompleteWrite(result);
      } else {
        CompleteRead(result, bytes);
      }
    }

    /**
     The life of a task, as far as so many completed requests take it. When it is over, every descriptor
     it ever got was disconnected exactly once, after at most 34 connects, or 6 if none succeeded.
     */
    method RoundTrip(steps: nat) returns (over: bool)
      requires Ready() && state == Init && connects == 0
      modifies this, receive, receive.data
      ensures over ==> Ready() && Ended() && obtained == closed
      ensures !over ==> Waiting() && issued == old(issued) + steps + 1
      ensures Distinct(obtained) && connects <= 34 && (obtained == [] ==> connects <= 6)
    {
      var i := 0;
      while true
        invariant Ready() && i <= steps && issued == old(issued) + i
        invariant receive.data == old(receive.data) || fresh(receive.data)
        decreases steps - i
      {
        var garbage: nat := *;
        var s := Execute(garbage);
        over := s != Sending && s != Receiving;
        if over || i == steps {
          return;
        }
        Complete();
        i := i + 1;
      }
    }

    /**
     If the first chunk announced a length, the task reads on exactly as long as there are fewer bytes than
     the threshold says, so a response it hands over is complete if header and body fit the machine's
     numbers. If they do not fit 64 bits, the task hands over a response that is not.
     */
    lemma FinishedMeansComplete()
      requires (Waiting() && state == Receiving && received != "") || (Ready() && state == Finished)
      requires Announces(first, memory)
      ensures first <= received && Parse(first).Ok? && HeaderValue(first).Some?
      ensures var info, number := DetectSpec(first, memory).value, HeaderValue(first).value;
              && (IsNumber(number) ==> info.length == Number(number))
              && (state == Finished <==> |received| >= Threshold(info))
              && (state == Finished ==> response == Some(info) && receive.Contents() == received)
              && (Fits(first, info) || |first| >= Whole(first, info) ==>
                    (state == Finished <==> |received| >= Whole(first, info)))
              && (Parse(first).value.1 < U32 && Whole(first, info) >= U64 && |received| < U64 ==>
                    state == Finished && |received| < Whole(first, info))
    {
      hide DetectSpec, FinishedWith, Parse, HeaderValue, IsNumber, Number, Threshold, Whole, Fits;
      var more := received[|first|..];
      assert received == first + more;
      FinishedIffComplete(first, more, memory);
      var i := DetectSpec(first, memory).value;
      assert FinishedSpec(received, Some(i), memory) == FinishedWith(received, i);
    }
  }

  /** The answer of `finished` is one about the info it returns, and that info is the first chunk's. */
  lemma AnswerIsOwn(data: string, cached: Option<Info>, garbage: nat, first: string, memory: nat)
    requires FinishedSpec(data, cached, garbage).Answer?
    requires if cached.Some? then From(first, cached.value, memory) else first == data && memory == garbage
    ensures var p := FinishedSpec(data, cached, garbage); FinishedWith(data, p.info) == p && From(first, p.info, memory)
  {
    hide DetectSpec;
  }
}
