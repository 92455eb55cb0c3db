/**
 How a message takes the time-outs of the socket on top of `poll`: the two components do not use the same
 error number (`src/network/poll_socket.cpp`, `src/network/http_message.cpp`).
 */
module Timeouts {
  import opened Kernel
  import PollSocket
  import HttpMessage

  /**
   A write the socket answers. A failed one is tried again with a new connection exactly if its result is
   one of the two the message takes for a time-out. The socket's own time-out is neither: the task notes a
   send failure and waits for the response to a request that it did not send.
   */
  method AnswerWrite(m: HttpMessage.Message, p: PollSocket.PollFd, result: int, garbage: nat)
    returns (s: HttpMessage.State)
    requires m.Waiting() && m.state == HttpMessage.Sending
    requires PollSocket.Answered(p, m.request.value.length, result)
    modifies m, m.receive
    ensures result <= 0 && result != -EINPROGRESS && result != -EAGAIN ==>
              if result == -ECANCELED || result == -EINTR then
                m.Restarted(old(m.failures)) && TimeoutFailure in m.failureCode
              else
                && s == HttpMessage.Receiving && m.failures == old(m.failures) && SendFailure in m.failureCode
    ensures !p.inOut && !p.error ==>
              && s == HttpMessage.Receiving && m.Waiting() && m.failures == old(m.failures)
              && SendFailure in m.failureCode && m.issued == old(m.issued) + 1
    ensures result == -EINPROGRESS || result == -EAGAIN ==>
              && s == HttpMessage.Sending && m.Waiting() && m.failures == old(m.failures)
              && m.sendBufferOffset == old(m.sendBufferOffset)
  {
    m.CompleteWrite(result);
    s := m.Execute(garbage);
  }

  /**
   A read the socket answers with nothing or a failure. Unless there was just nothing to read yet, the attempt
   is repeated; only the two results are noted as a time-out, and one the socket gave up on is not.
   */
  method AnswerRead(m: HttpMessage.Message, p: PollSocket.PollFd, result: int, garbage: nat)
    returns (s: HttpMessage.State)
    requires m.Waiting() && m.state == HttpMessage.Receiving && result <= 0
    requires PollSocket.Answered(p, m.request.value.length, result)
    modifies m, m.receive, m.receive.data
    ensures if result == -EINPROGRESS || result == -EAGAIN then
              s == HttpMessage.Receiving && m.Waiting() && m.failures == old(m.failures)
            else
              && m.Restarted(old(m.failures))
              && (if result == 0 then EmptyFailure
                  else if result == -ECANCELED || result == -EINTR then TimeoutFailure
                  else RecvFailure) in m.failureCode
    ensures !p.inOut && !p.error ==> RecvFailure in m.failureCode
  {
    m.CompleteRead(result, "");
    s := m.Execute(garbage);
  }

  /** The socket's answer to an expired request, as the message reads it. */
  lemma ExpiredIs(p: PollSocket.PollFd, asked: int, result: int)
    requires PollSocket.Answered(p, asked, result)
    ensures !p.inOut && !p.error ==>
              result == -ETIMEDOUT && !TimedOut(result) && Cause(result, SendFailure) == {SendFailure}
    ensures result <= 0 && !Soft(result) ==>
              (TimeoutFailure in Cause(result, SendFailure) <==> result == -ECANCELED || result == -EINTR)
  {
  }
}
