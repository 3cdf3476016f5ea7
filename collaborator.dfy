/**
 * The collaborators the subscribers and the mailer forward to (a broker, a
 * cache, a repo, a mailer, the SMTP transport) are seen only through the calls
 * they receive and the errors they answer with. A `Recorder` keeps the
 * arguments of every call in order and answers call number k with the k-th of
 * a fixed list of replies (nil once the list is used up).
 */
module Collaborator {
  import opened Wrappers

  /** The reply to call number `k`. */
  function ReplyAt(replies: seq<Option<Error>>, k: nat): Option<Error> {
    if k < |replies| then replies[k] else None
  }

  /**
   * How many of `n` calls, starting at call number `start`, a loop that
   * returns on the first error makes: all of them, or up to and including the
   * first that fails.
   */
  function Attempts(replies: seq<Option<Error>>, start: nat, n: nat): (k: nat)
    ensures k <= n
    ensures n > 0 ==> k > 0
    decreases n
  {
    if n == 0 then 0
    else if ReplyAt(replies, start) != None then 1
    else 1 + Attempts(replies, start + 1, n - 1)
  }

  /** What such a loop returns: the first error, or nil when every call succeeds. */
  function Outcome(replies: seq<Option<Error>>, start: nat, n: nat): Option<Error>
    decreases n
  {
    if n == 0 then None
    else if ReplyAt(replies, start) != None then ReplyAt(replies, start)
    else Outcome(replies, start + 1, n - 1)
  }

  /** After `i` successful calls the loop goes on as if it had started there. */
  lemma {:induction false} AfterSuccesses(replies: seq<Option<Error>>, start: nat, n: nat, i: nat)
    requires i <= n
    requires forall k :: start <= k < start + i ==> ReplyAt(replies, k) == None
    ensures Attempts(replies, start, n) == i + Attempts(replies, start + i, n - i)
    ensures Outcome(replies, start, n) == Outcome(replies, start + i, n - i)
    decreases i
  {
    if i > 0 {
      assert ReplyAt(replies, start) == None;
      AfterSuccesses(replies, start + 1, n - 1, i - 1);
    }
  }

  /**
   * The loop makes every call and returns nil exactly when no call fails;
   * otherwise it stops at the first failing call and returns that call's error.
   */
  lemma {:induction false} StopsAtFirstError(replies: seq<Option<Error>>, start: nat, n: nat)
    ensures Outcome(replies, start, n) == None
            <==> forall k :: start <= k < start + n ==> ReplyAt(replies, k) == None
    ensures Outcome(replies, start, n) == None ==> Attempts(replies, start, n) == n
    ensures Outcome(replies, start, n) != None ==>
              var last := start + Attempts(replies, start, n) - 1;
              && Outcome(replies, start, n) == ReplyAt(replies, last)
              && forall k :: start <= k < last ==> ReplyAt(replies, k) == None
    decreases n
  {
    if n > 0 && ReplyAt(replies, start) == None {
      StopsAtFirstError(replies, start + 1, n - 1);
    }
  }

  /** A collaborator that records the argument of each call and answers from `replies`. */
  class Recorder<T> {
    var calls: seq<T>
    const replies: seq<Option<Error>>

    constructor (replies: seq<Option<Error>>)
      ensures calls == [] && this.replies == replies
    {
      calls := [];
      this.replies := replies;
    }

    method Call(x: T) returns (err: Option<Error>)
      modifies this
      ensures calls == old(calls) + [x]
      ensures err == ReplyAt(replies, |old(calls)|)
    {
      err := ReplyAt(replies, |calls|);
      calls := calls + [x];
    }
  }
}
