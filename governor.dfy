/** The rate-limit governor that wraps every directory fetch: re-send on 429
    after waiting Retry-After seconds, and slow down when the remaining quota
    is low. The server is a sequence of responses, one per POST in order. */
module Governor {
  import opened Types

  /** At or below this RateLimit-Remaining value the governor slows down. */
  const LowWaterMark := 7

  /** The number of 429 answers before the first other answer: the number of
      waits-and-retries the client performs. */
  function Leading429(rs: seq<Response>): (k: nat)
    ensures k <= |rs|
    ensures forall i :: 0 <= i < k ==> rs[i].status == TooManyRequests
    ensures k < |rs| ==> rs[k].status != TooManyRequests
    decreases |rs|
  {
    if rs == [] || rs[0].status != TooManyRequests then 0 else 1 + Leading429(rs[1..])
  }

  /** The Retry-After values of the given responses, in order (section 10.2.3
      of RFC 9110, delay-seconds form). */
  function RetryAfters(rs: seq<Response>): (w: seq<int>)
    ensures |w| == |rs|
    ensures forall i :: 0 <= i < |rs| ==> w[i] == rs[i].retryAfter
    decreases |rs|
  {
    if rs == [] then [] else RetryAfters(rs[..|rs| - 1]) + [rs[|rs| - 1].retryAfter]
  }

  /** The proactive wait after a non-429 answer, as the code is written: the
      assignment expression binds `remaining` to the comparison itself, so the
      divisor is the boolean True (1) whenever the wait happens at all. */
  function ProactiveWait(resp: Response): (w: seq<int>)
    ensures |w| <= 1
    ensures w != [] <==> resp.remaining <= LowWaterMark
    ensures w != [] ==> w[0] == resp.reset
  {
    var remaining := if resp.remaining <= LowWaterMark then 1 else 0;
    if remaining != 0 then [resp.reset / remaining] else []
  }

  /** One governed request. Returns how many POSTs were issued, every wait in
      order, and the answer handed to the caller (None while the server has
      only answered 429 so far). */
  method ApiRequestWait(responses: seq<Response>) returns (posts: nat, waits: seq<int>, yielded: Option<Response>)
    ensures var k := Leading429(responses);
      if k < |responses| then
        && posts == k + 1
        && yielded == Some(responses[k])
        && waits == RetryAfters(responses[..k]) + ProactiveWait(responses[k])
      else
        && posts == k
        && yielded == None
        && waits == RetryAfters(responses)
    ensures yielded.Some? ==> yielded.value.status != TooManyRequests
  {
    posts, waits, yielded := 0, [], None;
    var i := 0;
    while i < |responses|
      invariant 0 <= i <= |responses|
      invariant posts == i
      invariant forall j :: 0 <= j < i ==> responses[j].status == TooManyRequests
      invariant waits == RetryAfters(responses[..i])
      invariant yielded == None
    {
      var resp := responses[i];
      posts := posts + 1;
      if resp.status == TooManyRequests {
        waits := waits + [resp.retryAfter];
        i := i + 1;
      } else {
        waits := waits + ProactiveWait(resp);
        yielded := Some(resp);
        return;
      }
    }
    assert responses[..i] == responses;
  }
}
