/**
 * The alert sender (lib/SMS.js): every `send` overwrites the message body and
 * bumps a counter, and only the first `maxMessages` calls post the message.
 */
module Sms {
  import opened Optional
  import opened Bounds

  const VERBOSE: bool := false
  const MAX_MESSAGES: int := 6

  /** The options object a caller may pass; every entry may be left out. */
  datatype SmsOptions = SmsOptions(verbose: Option<bool>, maxMessages: Option<int>)

  /** A message as handed to the SMS gateway. */
  datatype Message = Message(to: string, from: string, body: string)

  /** `options.maxMessages || MAX_MESSAGES`: absent or zero falls back to the default. */
  function ResolveMaxMessages(given: Option<int>): (m: int)
    ensures m != 0
    ensures given.Some? && given.value != 0 ==> m == given.value
    ensures m != MAX_MESSAGES ==> given == Some(m)
  {
    if given.Some? && given.value != 0 then given.value else MAX_MESSAGES
  }

  /**
   * The bodies posted when `send` is called with `bodies` in order: the call
   * numbered `k` (from 0) posts iff `k < maxMessages`.
   */
  function Posted(bodies: seq<string>, maxMessages: int): (posted: seq<string>)
    ensures |posted| == Min(|bodies|, Max0(maxMessages))
    ensures forall k :: 0 <= k < |posted| ==> posted[k] == bodies[k]
    decreases |bodies|
  {
    if bodies == [] then []
    else
      var earlier := bodies[..|bodies| - 1];
      var before := Posted(earlier, maxMessages);
      assert forall k :: 0 <= k < |before| ==> before[k] == earlier[k] == bodies[k];
      before + (if |earlier| < maxMessages then [bodies[|bodies| - 1]] else [])
  }

  /** The posts are exactly the first `maxMessages` calls, in order; so never more than `maxMessages`. */
  lemma {:induction false} PostedIsPrefix(bodies: seq<string>, maxMessages: int)
    ensures Posted(bodies, maxMessages) == bodies[..Min(|bodies|, Max0(maxMessages))]
    ensures |Posted(bodies, maxMessages)| <= Max0(maxMessages)
    decreases |bodies|
  {
    if bodies != [] {
      var earlier := bodies[..|bodies| - 1];
      var last := bodies[|bodies| - 1];
      var m := Min(|earlier|, Max0(maxMessages));
      PostedIsPrefix(earlier, maxMessages);
      assert Posted(bodies, maxMessages)
          == Posted(earlier, maxMessages) + (if |earlier| < maxMessages then [last] else []);
      assert earlier[..m] == bodies[..m];
      if |earlier| < maxMessages {
        assert m == |earlier| && Min(|bodies|, Max0(maxMessages)) == |bodies|;
        assert bodies[..m] + [last] == bodies[..|bodies|];
      } else {
        assert m == Max0(maxMessages) && Min(|bodies|, Max0(maxMessages)) == m;
      }
    }
  }

  class SMS {
    const to: string
    const from: string
    const maxMessages: int
    const verbose: bool
    /** Number of `send` calls so far. */
    var counter: nat
    /** `message.body`: the body of the latest `send`, absent before the first. */
    var body: Option<string>
    /** Body of every `send` call, in order. */
    ghost var calls: seq<string>
    /** Messages handed to the gateway, in order. */
    ghost var posts: seq<Message>

    ghost predicate Valid()
      reads this
    {
      && maxMessages != 0
      && counter == |calls|
      && body == (if calls == [] then None else Some(calls[|calls| - 1]))
      && |posts| == |Posted(calls, maxMessages)|
      && forall k :: 0 <= k < |posts| ==> posts[k] == Message(to, from, Posted(calls, maxMessages)[k])
    }

    constructor (options: SmsOptions, to: string, from: string)
      ensures Valid()
      ensures this.to == to && this.from == from
      ensures maxMessages == ResolveMaxMessages(options.maxMessages)
      ensures verbose <==> options.verbose == Some(true)
      ensures counter == 0 && body == None && calls == [] && posts == []
    {
      this.to := to;
      this.from := from;
      maxMessages := ResolveMaxMessages(options.maxMessages);
      verbose := options.verbose == Some(true);
      counter := 0;
      body := None;
      calls := [];
      posts := [];
    }

    /** `send(url, body)`; the url plays no part in what is posted. */
    method Send(url: string, body: string)
      requires Valid()
      modifies this
      ensures Valid()
      ensures counter == old(counter) + 1 && this.body == Some(body)
      ensures calls == old(calls) + [body]
      ensures posts == old(posts) + if old(counter) < maxMessages then [Message(to, from, body)] else []
    {
      this.body := Some(body);
      var previous := counter;
      counter := counter + 1;
      calls := calls + [body];
      assert calls[..|calls| - 1] == old(calls);
      if previous < maxMessages {
        posts := posts + [Message(to, from, body)];
      }
    }
  }
}
