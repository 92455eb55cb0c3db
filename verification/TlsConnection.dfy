/**
 The shadow layer between OpenSSL and the socket, `TLSConnection::process` and `operationHelper`
 (`src/network/tls_connection.cpp`). The BIO pair is a queue of bytes that OpenSSL wants sent and a number
 of bytes that it asks for; OpenSSL and the kernel answer whatever their contracts allow.
 */
module TlsConnection {
  import opened Wrappers
  import opened Kernel

  datatype Progress = Init | SendingInit | Sending | ReceivingInit | Receiving | InProgress | Finished | Aborted

  /**
   `offset` is the position in the buffer; `length` is overwritten with the result; `timed` tells whether
   the request was issued with a time-out.
   */
  datatype Request = Request(write: bool, offset: int, length: int, timed: bool)

  /** What an SSL operation answers. */
  datatype SslAnswer = Done(status: int) | WantsIo | Fails(status: int)

  /** The last `r` bytes of the stream are in the buffer; `n` of them, and all before, are sent. */
  ghost predicate InRound(buffer: string, r: int, taken: string, sent: string, n: int) {
    && 0 < r <= |buffer| && r <= |taken| && 0 <= n <= r
    && buffer[..r] == taken[|taken| - r..] && sent == taken[..|taken| - r + n]
  }

  /** The next `k` bytes of the buffer are the next `k` of the stream. */
  lemma RoundGoesOn(buffer: string, r: int, taken: string, sent: string, n: int, k: nat)
    requires InRound(buffer, r, taken, sent, n) && n + k <= r
    ensures InRound(buffer, r, taken, sent + buffer[n..n + k], n + k)
  {
    var base := |taken| - r;
    assert taken[base..][n..n + k] == taken[base + n..base + n + k];
    assert buffer[..r][n..n + k] == buffer[n..n + k];
    assert taken[..base + n] + taken[base + n..base + n + k] == taken[..base + n + k];
  }

  class Connection {
    const chunkSize: nat
    const buffer: array<char>
    var internalBioWrite: nat
    var networkBioRead: int
    var socketWrite: int
    var internalBioRead: nat
    var networkBioWrite: int
    var socketRead: int
    var progress: Progress
    var request: Option<Request>
    var failureCode: set<Failure>
    /** The network side of the BIO pair: what OpenSSL wants sent and how much it asks for. */
    var pending: string
    var readRequest: nat
    /** Over the whole life: what was taken from the BIO and what the socket took, */
    ghost var taken: string
    ghost var sent: string
    /** what the socket gave and what was handed to the BIO, */
    ghost var got: string
    ghost var handed: string
    /** the number of requests issued, and what the SSL operations answered. */
    ghost var issued: nat
    ghost var operations: seq<SslAnswer>

    /** The bytes taken from the BIO in this round are in the buffer; `n` of them are with the socket. */
    ghost predicate Round(n: int)
      reads this`networkBioRead, this`taken, this`sent, buffer
    {
      InRound(buffer[..], networkBioRead, taken, sent, n)
    }

    ghost predicate WaitsToSend()
      reads this, buffer
    {
      && Round(socketWrite) && socketWrite < networkBioRead && internalBioWrite > 0 && handed == got
      && networkBioWrite == 0 && socketRead == 0
      && request == Some(Request(true, socketWrite, networkBioRead - socketWrite, true))
    }

    ghost predicate WaitsToReceive()
      reads this
    {
      && sent == taken && handed == got && networkBioWrite == 0 && socketRead == 0 && internalBioRead > 0
      && request == Some(Request(false, 0, Min(chunkSize, internalBioRead), true))
    }

    ghost predicate SendCompleted()
      reads this, buffer
    {
      && request.Some? && request.value.write && request.value.length <= networkBioRead - socketWrite
      && 0 <= socketWrite < networkBioRead && internalBioWrite > 0 && handed == got
      && networkBioWrite == 0 && socketRead == 0
      && Round(socketWrite + Max(request.value.length, 0))
    }

    ghost predicate ReceiveCompleted()
      reads this, buffer
    {
      && request.Some? && !request.value.write && request.value.length <= Min(chunkSize, internalBioRead)
      && sent == taken && networkBioWrite == 0 && socketRead == 0 && internalBioRead > 0
      && chunkSize <= buffer.Length && got == handed + buffer[..Max(request.value.length, 0)]
    }

    /** Between two rounds nothing is under way: both streams have arrived completely. */
    ghost predicate Quiet()
      reads this
    {
      sent == taken && handed == got
    }

    ghost predicate Basics()
      reads this
    {
      0 < chunkSize == buffer.Length
    }

    /** One request is out, and it has a time-out. */
    ghost predicate Waiting()
      reads this, buffer
    {
      && Basics() && (progress == Sending || progress == Receiving)
      && (progress == Sending ==> WaitsToSend()) && (progress == Receiving ==> WaitsToReceive())
    }

    /** The layer may be called: between rounds, or when its request has completed. */
    ghost predicate Ready()
      reads this, buffer
    {
      && Basics() && progress != SendingInit && progress != ReceivingInit && progress != InProgress
      && (progress == Sending ==> SendCompleted()) && (progress == Receiving ==> ReceiveCompleted())
      && (progress == Init || progress == Finished ==> Quiet())
      && (progress == Aborted ==> sent <= taken && handed == got)
    }

    constructor (chunkSize: nat)
      requires chunkSize > 0
      ensures Ready() && progress == Init && taken == sent == got == handed == ""
    {
      this.chunkSize, buffer := chunkSize, new char[chunkSize];
      internalBioWrite, networkBioRead, socketWrite, internalBioRead, networkBioWrite, socketRead := 0, 0, 0, 0, 0, 0;
      progress, request, failureCode, pending, readRequest := Init, None, {}, "", 0;
      taken, sent, got, handed, issued, operations := "", "", "", "", 0, [];
    }

    /** `BIO_read` on the network side, when bytes are pending: takes some of them, in order. */
    method BioRead(readSize: nat) returns (n: int)
      requires 0 < readSize <= |pending| && readSize <= buffer.Length
      modifies this`pending, this`taken, buffer
      ensures 0 < n <= readSize && taken == old(taken) + old(pending)[..n] && pending == old(pending)[n..]
      ensures buffer[..n] == old(pending)[..n]
    {
      n := *;
      if n <= 0 || n > readSize {
        n := readSize;
      }
      var i := 0;
      while i < n
        invariant 0 <= i <= n && buffer[..i] == pending[..i]
        modifies buffer
      {
        buffer[i] := pending[i];
        i := i + 1;
      }
      taken := taken + pending[..n];
      pending := pending[n..];
    }

    /** `BIO_write` on the network side: takes what it asked for. */
    method BioWrite(offset: int, length: int) returns (n: int)
      requires 0 <= offset <= offset + length <= buffer.Length
      modifies this`handed
      ensures n == length && handed == old(handed) + buffer[offset..offset + length]
    {
      handed := handed + buffer[offset..offset + length];
      n := length;
    }

    /** `SendingInit`: starts a round and takes what OpenSSL wants sent, as much as fits the buffer. */
    method StartRound()
      requires Basics() && progress == SendingInit && Quiet()
      modifies this`internalBioWrite, this`networkBioRead, this`socketWrite, this`internalBioRead, this`networkBioWrite
      modifies this`socketRead, this`pending, this`taken, buffer
      ensures Basics() && handed == got && socketWrite == 0 && networkBioWrite == 0 && socketRead == 0
      ensures internalBioWrite == |old(pending)| && (internalBioWrite == 0 ==> sent == taken)
      ensures internalBioWrite > 0 ==> Round(0)
    {
      internalBioWrite, networkBioRead, socketWrite, internalBioRead, networkBioWrite, socketRead := 0, 0, 0, 0, 0, 0;
      internalBioWrite := |pending|;
      if internalBioWrite > 0 {
        var readSize := if chunkSize > internalBioWrite then internalBioWrite else chunkSize;
        networkBioRead := BioRead(readSize);
      }
    }

    /**
     `Sending`: accounts for the completed write, if there was one, and issues the next. It falls through
     only once the socket has taken every byte of the round; after a failed write it sends the rest again.
     */
    method SendStage() returns (falls: bool)
      requires Basics() && (progress == SendingInit || progress == Sending) && handed == got
      requires progress == SendingInit ==>
                 if internalBioWrite > 0 then Round(0) && socketWrite == 0 else sent == taken
      requires progress == SendingInit ==> networkBioWrite == 0 && socketRead == 0
      requires progress == Sending ==> SendCompleted()
      modifies this`socketWrite, this`progress, this`failureCode, this`request, this`issued
      ensures failureCode == old(failureCode) +
                             if old(progress) == Sending then Cause(old(request.value.length), SendFailure) else {}
      ensures falls ==> progress == ReceivingInit && sent == taken && issued == old(issued)
      ensures networkBioWrite == 0 && socketRead == 0
      ensures old(progress) == SendingInit ==> (falls <==> internalBioWrite == 0)
      ensures old(progress) == Sending ==>
                var result := old(request.value.length);
                && (progress == Aborted <==> result <= 0 && TimedOut(result))
                && (falls <==>
                      !(result <= 0 && TimedOut(result)) && old(socketWrite) + Max(result, 0) == networkBioRead)
      ensures !falls && progress != Aborted ==> progress == Sending && Waiting() && issued == old(issued) + 1
      ensures !falls && progress == Aborted ==>
                Ready() && issued == old(issued) && old(progress) == Sending && TimedOut(old(request.value.length))
    {
      if internalBioWrite > 0 {
        if progress == Sending {
          var aborted := AccountWrite();
          if aborted {
            return false;
          }
        }
        hide Soft, TimedOut, Cause, Connection.Round;
        RoundIsOver();
        if networkBioRead >= 0 && networkBioRead != socketWrite {
          IssueWrite();
          return false;
        }
      }
      progress := ReceivingInit;
      falls := true;
    }

    method IssueWrite()
      requires Basics() && Round(socketWrite) && socketWrite != networkBioRead && internalBioWrite > 0
      requires handed == got && networkBioWrite == 0 && socketRead == 0
      modifies this`progress, this`request, this`issued
      ensures progress == Sending && Waiting() && issued == old(issued) + 1
    {
      progress := Sending;
      var writeSize := networkBioRead - socketWrite;
      request := Some(Request(true, socketWrite, writeSize, writeSize <= chunkSize));
      issued := issued + 1;
    }

    lemma RoundIsOver()
      requires exists n :: Round(n)
      ensures networkBioRead > 0 && (Round(networkBioRead) ==> sent == taken)
    {
    }

    /** What becomes of a completed write, before the next is issued. */
    method AccountWrite() returns (aborted: bool)
      requires Basics() && progress == Sending && SendCompleted()
      modifies this`socketWrite, this`progress, this`failureCode
      ensures failureCode == old(failureCode) + Cause(request.value.length, SendFailure)
      ensures aborted <==> request.value.length <= 0 && TimedOut(request.value.length)
      ensures aborted ==> progress == Aborted && sent <= taken
      ensures !aborted ==>
            (progress == Sending || progress == ReceivingInit)
            && socketWrite == old(socketWrite) + Max(request.value.length, 0) && Round(socketWrite)
    {
      var result := request.value.length;
      if result > 0 {
        socketWrite := socketWrite + result;
      } else if !Soft(result) {
        if TimedOut(result) {
          failureCode := failureCode + {TimeoutFailure};
          progress := Aborted;
          return true;
        }
        failureCode := failureCode + {SendFailure};
        progress := ReceivingInit;
      }
      aborted := false;
    }

    /**
     `ReceivingInit` and `Receiving`: hands the bytes of the completed read to the BIO, or issues a read
     if OpenSSL asked for bytes.
     */
    method ReceiveStage()
      requires Basics() && (progress == ReceivingInit || progress == Receiving)
      requires progress == ReceivingInit ==> Quiet() && networkBioWrite == 0 && socketRead == 0
      requires progress == Receiving ==> ReceiveCompleted()
      modifies this`internalBioRead, this`networkBioWrite, this`socketRead, this`progress, this`failureCode
      modifies this`request, this`issued, this`handed
      ensures failureCode == old(failureCode) +
                             if old(progress) == ReceivingInit then {}
                             else if old(request.value.length) == 0 then {EmptyFailure}
                             else Cause(old(request.value.length), RecvFailure)
      ensures progress == Receiving ==> Waiting() && issued == old(issued) + 1
      ensures progress != Receiving ==>
            Ready() && issued == old(issued) && (progress == Finished || progress == Aborted)
      ensures old(progress) == ReceivingInit ==> progress == if old(readRequest) > 0 then Receiving else Finished
      ensures old(progress) == Receiving ==>
                var result := old(request.value.length);
                progress == if result > 0 then Finished else if Soft(result) then Receiving else Aborted
      ensures progress == Finished && old(progress) == Receiving ==>
                handed == old(handed) + buffer[..old(request.value.length)]
    {
      if progress == ReceivingInit {
        internalBioRead := readRequest;
      }
      if internalBioRead == 0 {
        progress := Finished;
        return;
      }
      if progress == Receiving {
        var result := request.value.length;
        if result == 0 {
          failureCode := failureCode + {EmptyFailure};
          progress := Aborted;
          return;
        } else if result > 0 {
          var n := BioWrite(socketRead, result);
          networkBioWrite := networkBioWrite + n;
          socketRead := socketRead + result;
          assert networkBioWrite == socketRead;
        } else if !Soft(result) {
          failureCode := failureCode + {if TimedOut(result) then TimeoutFailure else RecvFailure};
          progress := Aborted;
          return;
        }
      }
      if networkBioWrite == 0 || networkBioWrite != socketRead {
        progress := Receiving;
        var readSize := if chunkSize > internalBioRead - socketRead then internalBioRead - socketRead else chunkSize;
        request := Some(Request(false, socketRead, readSize, true));
        issued := issued + 1;
      } else {
        progress := Finished;
      }
    }

    /**
     `process`. It answers `Sending` or `Receiving` exactly if it issued one request, and enters the
     receive stage only when the socket has every byte of the round.
     */
    method Process() returns (p: Progress)
      requires if progress == SendingInit then Basics() && Quiet() else Ready()
      modifies this, buffer
      ensures p == progress && readRequest == old(readRequest) && operations == old(operations)
      ensures p == Sending || p == Receiving ==> Waiting() && issued == old(issued) + 1
      ensures p != Sending && p != Receiving ==> Ready() && issued == old(issued)
      ensures old(progress) == SendingInit ==>
                p == if old(pending) != "" then Sending else if old(readRequest) > 0 then Receiving else Finished
      ensures old(progress) == Init || old(progress) == Finished || old(progress) == Aborted ==> p == old(progress)
      ensures old(progress) == Sending ==>
                var result := old(request.value.length);
                p == if result <= 0 && TimedOut(result) then Aborted
                     else if old(socketWrite) + Max(result, 0) < old(networkBioRead) then Sending
                     else if old(readRequest) > 0 then Receiving else Finished
      ensures old(progress) == Receiving ==>
                var result := old(request.value.length);
                p == if result > 0 then Finished else if Soft(result) then Receiving else Aborted
    {
      hide Connection.Round, Connection.WaitsToSend, Connection.WaitsToReceive, Connection.ReceiveCompleted;
      if progress == SendingInit {
        StartRound();
      }
      if progress == SendingInit || progress == Sending {
        var falls := SendStage();
        if !falls {
          return progress;
        }
      }
      if progress == ReceivingInit || progress == Receiving {
        ReceiveStage();
      }
      p := progress;
    }

    /** The kernel ends a write: it took some of the bytes, or failed. */
    method CompleteWrite(result: int)
      requires Waiting() && progress == Sending && result <= request.value.length
      modifies this`request, this`sent
      ensures Ready() && progress == Sending && request.value.length == result
      ensures sent == old(sent) + buffer[socketWrite..socketWrite + Max(result, 0)]
    {
      RoundGoesOn(buffer[..], networkBioRead, taken, sent, socketWrite, Max(result, 0));
      assert buffer[..][socketWrite..socketWrite + Max(result, 0)] == buffer[socketWrite..socketWrite + Max(result, 0)];
      hide InRound;
      sent := sent + buffer[socketWrite..socketWrite + Max(result, 0)];
      request := Some(request.value.(length := result));
    }

    /** A write on a connection that the peer has closed fails for good, but the same bytes are sent once more. */
    method BrokenPipe() returns (p: Progress)
      requires Waiting() && progress == Sending
      modifies this, buffer
      ensures p == Sending && Waiting() && issued == old(issued) + 1
    {
      hide Connection.Round;
      CompleteWrite(-EPIPE);
      p := Process();
    }

    /** The kernel ends a read: it put bytes into the buffer, or failed, or the peer closed. */
    method CompleteRead(result: int, bytes: string)
      requires Waiting() && progress == Receiving && result <= request.value.length && |bytes| == Max(result, 0)
      modifies this`request, this`got, buffer
      ensures Ready() && progress == Receiving && request.value.length == result && got == old(got) + bytes
    {
      var i := 0;
      while i < |bytes|
        invariant i <= |bytes| && buffer[..i] == bytes[..i]
        modifies buffer
      {
        buffer[i] := bytes[i];
        i := i + 1;
      }
      got := got + bytes;
      request := Some(request.value.(length := result));
    }

    /**
     An SSL operation, which runs only when the last round has delivered everything. It may produce bytes
     to send; if it wants I/O there is something to send or to read.
     */
    method Ssl() returns (answer: SslAnswer)
      requires Quiet()
      modifies this`pending, this`readRequest, this`operations
      ensures operations == old(operations) + [answer]
      ensures answer.WantsIo? ==> pending != "" || readRequest > 0
    {
      var more: string := *;
      pending := pending + more;
      readRequest := *;
      answer := *;
      if answer.WantsIo? && pending == "" && readRequest == 0 {
        answer := Done(0);
      }
      operations := operations + [answer];
    }

    /** What the completed request makes of its round: it goes on, it is over, or it is given up. */
    ghost function RoundAfter(): Progress
      reads this
    {
      if request.None? then progress
      else
        var result := request.value.length;
        match progress
        case Sending =>
          if result == -ECANCELED || result == -EINTR then Aborted
          else if socketWrite + Max(result, 0) < networkBioRead then Sending
          else if readRequest > 0 then Receiving
          else Finished
        case Receiving =>
          if result > 0 then Finished
          else if result == -EINPROGRESS || result == -EAGAIN then Receiving
          else Aborted
        case _ => progress
    }

    lemma RequestIsThere()
      requires Ready()
      ensures progress == Sending || progress == Receiving ==> request.Some?
      ensures progress != SendingInit && progress != ReceivingInit && progress != InProgress
    {
    }

    /**
     `operationHelper`. It answers `InProgress` exactly if one request is out. Between two rounds, or when the
     round is over with its completed request, it runs the operation once, and its answer is that of the
     operation: finished or failed with its status, or in progress with the next round. A round that is
     given up runs no operation.
     */
    method OperationHelper() returns (p: Progress, result: Option<int>)
      requires Ready()
      modifies this, buffer
      ensures p == InProgress || p == Finished || p == Aborted
      ensures p == InProgress <==> issued == old(issued) + 1
      ensures p == InProgress ==> Waiting()
      ensures p != InProgress ==> Ready() && issued == old(issued)
      ensures p == Finished ==> Quiet() && result.Some?
      ensures old(operations) <= operations
      ensures |operations| == |old(operations)| +
                              if old(RoundAfter() == Init || RoundAfter() == Finished) then 1 else 0
      ensures if |operations| > |old(operations)| then
                match operations[|old(operations)|]
                case Done(status) => p == Finished && result == Some(status)
                case Fails(status) => p == Aborted && result == Some(status)
                case WantsIo => p == InProgress && result == None
              else
                result == None && p == if old(RoundAfter()) == Aborted then Aborted else InProgress
      decreases if progress == Sending || progress == Receiving then 1 else 0
    {
      hide Connection.WaitsToSend, Connection.WaitsToReceive, Connection.SendCompleted, Connection.ReceiveCompleted;
      RequestIsThere();
      result := None;
      if progress == Finished || progress == Init {
        var answer := Ssl();
        match answer {
          case Done(status) =>
            return Finished, Some(status);
          case Fails(status) =>
            return Aborted, Some(status);
          case WantsIo =>
            progress := SendingInit;
            var q := Process();
            p := if q != Aborted then InProgress else Aborted;
        }
      } else if progress == Aborted {
        p := Aborted;
      } else {
        var q := Process();
        if progress != Finished && progress != Aborted {
          p := InProgress;
        } else {
          p, result := OperationHelper();
        }
      }
    }
  }
}
