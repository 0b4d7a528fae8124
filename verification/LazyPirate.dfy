/**
 The request client: send, poll, and on silence throw the socket away and send again. The
 REQ socket is modelled as section "The REQ Socket Type" of ZeroMQ RFC 28/REQREP has it: a
 second send without an intervening reply is refused, and a request gets at most one reply.
 */
module LazyPirate {
  import opened Text

  datatype Outcome = Replied | GaveUp | Threw

  /** What the server sends back to the k-th message of a call, if anything, within the poll. */
  function ReplyTo(replies: seq<Option<string>>, k: nat): Option<string> {
    if k < |replies| then replies[k] else None
  }

  predicate Useful(replies: seq<Option<string>>, k: nat) {
    ReplyTo(replies, k).Some? && ReplyTo(replies, k).value != ""
  }

  /** The first of `limit` messages to get a non-empty reply, or `limit` if none does. */
  function FirstUseful(replies: seq<Option<string>>, limit: nat): (k: nat)
    ensures k <= limit && (k < limit ==> Useful(replies, k))
    ensures forall j: nat | j < k :: !Useful(replies, j)
  {
    if limit == 0 then 0
    else
      var k := FirstUseful(replies, limit - 1);
      if k < limit - 1 || Useful(replies, limit - 1) then k else limit
  }

  /** A quiet client abandons at the first silence; otherwise every retry is used. */
  function Limit(retries: nat, verbosity: int): nat {
    if verbosity == 0 && retries > 1 then 1 else retries
  }

  class Client {
    const verbosity: int
    var buff: string
    /** The socket has sent a request and has had no reply to it. */
    var awaiting: bool
    /** Messages handed to sockets, and sockets thrown away, so far. */
    ghost var sent: nat
    ghost var resets: nat

    constructor (verbosity: int)
      ensures this.verbosity == verbosity && buff == "" && !awaiting && sent == 0 && resets == 0
    {
      this.verbosity := verbosity;
      buff, awaiting, sent, resets := "", false, 0, 0;
    }

    method Reset()
      modifies this
      ensures !awaiting && resets == old(resets) + 1 && buff == old(buff) && sent == old(sent)
    {
      awaiting := false;
      resets := resets + 1;
    }

    /** Sending on the current socket, which must owe no reply. */
    method Transmit()
      requires !awaiting
      modifies this
      ensures awaiting && sent == old(sent) + 1 && buff == old(buff) && resets == old(resets)
    {
      awaiting := true;
      sent := sent + 1;
    }

    /**
     The outcome is that of the first useful reply among the messages allowed; as many are
     sent as that takes, each but the first on a socket of its own.
     */
    method Send(retries: nat, replies: seq<Option<string>>) returns (r: Outcome)
      modifies this
      ensures r == Threw <==> old(awaiting) && retries > 0
      ensures r == Threw ==> sent == old(sent) && awaiting
      ensures r != Threw ==>
        var limit := Limit(retries, verbosity);
        var k := FirstUseful(replies, limit);
        && (r == Replied <==> k < limit)
        && (r == Replied ==> buff == replies[k].value != "" && !awaiting)
        && sent - old(sent) == (if k < limit then k + 1 else limit) <= retries
        && (limit > 0 ==> resets - old(resets) == sent - old(sent) - 1)
        && (r == GaveUp && limit > 0 ==> awaiting == ReplyTo(replies, limit - 1).None?)
      ensures r != Threw && verbosity != 0 ==>
        && (r == GaveUp ==> sent == old(sent) + retries)
        && (forall k: nat | k < retries && k < |replies| && replies[k].Some? && replies[k].value != "" ::
              r == Replied && sent - old(sent) <= k + 1)
      ensures r != Threw && verbosity == 0 && retries > 0 ==>
        sent == old(sent) + 1 && (r == Replied <==> Useful(replies, 0))
      ensures r == Replied ==> 0 < sent - old(sent) <= retries && Some(buff) == ReplyTo(replies, sent - old(sent) - 1)
    {
      assert forall k: nat | k < |replies| && replies[k].Some? && replies[k].value != "" :: Useful(replies, k);
      var left := retries;
      var message: nat := 0;
      while left != 0
        invariant message == 0 ==>
          left == retries && sent == old(sent) && resets == old(resets) && awaiting == old(awaiting)
        invariant message > 0 ==>
          && left == 0 && retries > 0 && !old(awaiting)
          && message == Limit(retries, verbosity) == FirstUseful(replies, Limit(retries, verbosity))
          && sent == old(sent) + message && resets == old(resets) + message - 1
          && awaiting == ReplyTo(replies, message - 1).None?
        decreases left
      {
        if awaiting {
          return Threw;
        }
        Transmit();
        message := 1;
        var expectReply := true;
        ghost var limit := Limit(retries, verbosity);
        while expectReply
          invariant !old(awaiting)
          invariant expectReply ==> 0 < left && message == retries - left + 1 <= limit
          invariant !expectReply ==> left == 0 && message == limit && limit == FirstUseful(replies, limit)
          invariant sent == old(sent) + message && resets == old(resets) + message - 1
          invariant forall j: nat | j < message - 1 :: !Useful(replies, j)
          invariant expectReply && !awaiting ==> ReplyTo(replies, message - 1) == Some("")
          invariant !expectReply ==> awaiting == ReplyTo(replies, message - 1).None?
          decreases left, expectReply, awaiting
        {
          var reply := if awaiting then ReplyTo(replies, message - 1) else None;
          if reply.Some? {
            buff := reply.value;
            awaiting := false;
            if buff != "" {
              assert Useful(replies, message - 1);
              return Replied;
            }
          } else {
            left := left - 1;
            if left == 0 || verbosity == 0 {
              left := 0;
              expectReply := false;
              assert message == limit;
            } else {
              Reset();
              Transmit();
              message := message + 1;
            }
          }
        }
      }
      return GaveUp;
    }
  }

  /** The message whose reply ends a call, or how many it sends in vain. */
  function LastMessage(replies: seq<Option<string>>, retries: nat, verbosity: int): nat {
    FirstUseful(replies, Limit(retries, verbosity))
  }

  /**
   More retries never turn a reply away: a call that is answered is answered to the same
   message. One that is not gains from them exactly if a useful reply comes to one of the
   further messages they allow.
   */
  lemma {:induction false} RetriesOnlyHelp(replies: seq<Option<string>>, fewer: nat, more: nat, verbosity: int)
    requires fewer <= more
    ensures LastMessage(replies, fewer, verbosity) < Limit(fewer, verbosity) ==>
      LastMessage(replies, more, verbosity) == LastMessage(replies, fewer, verbosity) < Limit(more, verbosity)
    ensures LastMessage(replies, fewer, verbosity) == Limit(fewer, verbosity) ==>
      (LastMessage(replies, more, verbosity) < Limit(more, verbosity) <==>
       exists k: nat :: Limit(fewer, verbosity) <= k < Limit(more, verbosity) && Useful(replies, k))
  {
    var few, many := LastMessage(replies, fewer, verbosity), LastMessage(replies, more, verbosity);
    assert few < Limit(fewer, verbosity) ==> !(few < many) && !(many < few);
    if few == Limit(fewer, verbosity) && many < Limit(more, verbosity) {
      assert many >= few && Useful(replies, many);
    }
  }

  /** A client that reports what it does is answered by the first reply to any of its messages. */
  lemma EveryRetryIsUsed(replies: seq<Option<string>>, retries: nat, verbosity: int, k: nat)
    requires verbosity != 0 && k < retries && Useful(replies, k)
    ensures LastMessage(replies, retries, verbosity) <= k < Limit(retries, verbosity) == retries
  {
    assert LastMessage(replies, retries, verbosity) <= k;
  }

  /** A quiet client never uses a retry past the first. */
  lemma QuietClientTriesOnce(replies: seq<Option<string>>, retries: nat)
    requires retries > 0
    ensures Limit(retries, 0) == 1
    ensures LastMessage(replies, retries, 0) == if Useful(replies, 0) then 0 else 1
  {
    assert FirstUseful(replies, 0) == 0;
  }
}
