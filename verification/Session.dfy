/** Sending a whole buffer through a channel that takes part of it at a time, or nothing. */
module Session {
  import opened Basics

  const SEND_RETRY_LIMIT: nat := 2000

  datatype SendFailure = WantRead | WantWrite | WindowFull | Rekeying | OtherFailure
  {
    predicate Retryable() {
      !OtherFailure?
    }
  }

  /** One call of the SSH library's send: it takes extra + 1 bytes, or all it was offered if
      that is fewer, or nothing. */
  datatype Attempt = Accepted(extra: nat) | Refused(failure: SendFailure)

  /** An SSH channel with a history: what each call will do, how many were made, and the bytes
      they took. */
  class Channel {
    const attempts: nat -> Attempt
    var calls: nat
    var sent: seq<byte>

    constructor (attempts: nat -> Attempt)
      ensures this.attempts == attempts && calls == 0 && sent == []
    {
      this.attempts := attempts;
      calls, sent := 0, [];
    }

    /** A positive result is the number of bytes taken from the front of the data. */
    method Send(data: seq<byte>) returns (result: nat, failure: SendFailure)
      requires data != []
      modifies this
      ensures calls == old(calls) + 1
      ensures match attempts(old(calls))
              case Accepted(extra) => result == Min(extra, |data| - 1) + 1 && sent == old(sent) + data[..result]
              case Refused(f) => result == 0 && failure == f && sent == old(sent)
    {
      var attempt := attempts(calls);
      calls := calls + 1;
      match attempt
      case Accepted(extra) =>
        result, failure := Min(extra, |data| - 1) + 1, OtherFailure;
        sent := sent + data[..result];
      case Refused(f) =>
        result, failure := 0, f;
    }
  }

  predicate Stalls(a: Attempt) {
    a.Refused? && a.failure.Retryable()
  }

  /** Call number i ends the attempt to send: it fails for good, or it is the last of more
      refusals in a row than the limit, counted from call number `first`. */
  predicate GivesUp(attempts: nat -> Attempt, first: nat, i: nat) {
    || (attempts(i).Refused? && !Stalls(attempts(i)))
    || (first + 2000 <= i && forall j: nat | i - 2000 <= j <= i :: Stalls(attempts(j)))
  }

  /** What was taken is always a prefix of the buffer, the whole of it exactly on success;
      failure comes with the first call that gives up and not before; and there are at most
      2000 stalls for every byte. */
  method SendAll(channel: Channel, buffer: seq<byte>) returns (success: bool, stalls: nat)
    modifies channel
    ensures channel.calls >= old(channel.calls)
    ensures old(channel.sent) <= channel.sent
    ensures channel.sent[|old(channel.sent)|..] <= buffer
    ensures success <==> channel.sent == old(channel.sent) + buffer
    ensures !success ==> channel.calls > old(channel.calls) && GivesUp(channel.attempts, old(channel.calls), channel.calls - 1)
    ensures forall i: nat | old(channel.calls) <= i < (if success then channel.calls else channel.calls - 1) ::
              !GivesUp(channel.attempts, old(channel.calls), i)
    ensures stalls <= 2000 * |buffer|
  {
    var offset, retry := 0, 0;
    stalls := 0;
    ghost var first := channel.calls;
    while offset < |buffer|
      invariant 0 <= offset <= |buffer| && channel.calls >= first + retry
      invariant channel.sent == old(channel.sent) + buffer[..offset]
      invariant retry <= SEND_RETRY_LIMIT && (offset == |buffer| ==> retry == 0)
      invariant forall j: nat | channel.calls - retry <= j < channel.calls :: Stalls(channel.attempts(j))
      invariant channel.calls - retry > first ==> !Stalls(channel.attempts(channel.calls - retry - 1))
      invariant forall i: nat | first <= i < channel.calls :: !GivesUp(channel.attempts, first, i)
      invariant stalls <= SEND_RETRY_LIMIT * offset + retry
      decreases |buffer| - offset, SEND_RETRY_LIMIT - retry
    {
      var result, failure := channel.Send(buffer[offset..]);
      if result > 0 {
        assert buffer[..offset] + buffer[offset..][..result] == buffer[..offset + result];
        offset := offset + result;
        retry := 0;
        continue;
      }
      retry := retry + 1;
      if !failure.Retryable() || retry > SEND_RETRY_LIMIT {
        success := false;
        assert channel.sent[|old(channel.sent)|..] == buffer[..offset];
        return;
      }
      stalls := stalls + 1;
    }
    assert buffer[..offset] == buffer;
    success := true;
  }
}
