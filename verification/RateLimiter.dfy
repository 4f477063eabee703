/** The token bucket in front of the API: 30 tokens at most, refilled by 30 a second, whole tokens only. */
module RateLimiter {
  const MAX_REQUESTS_PER_SECOND := 30

  datatype Bucket = Bucket(tokens: int, lastAccess: real)

  const EMPTY := Bucket(0, 0.0)

  datatype Request = Request(api: bool, at: real)

  /** int(x) */
  function Trunc(x: real): int {
    if x >= 0.0 then x.Floor else -(-x).Floor
  }

  function Refilled(b: Bucket, now: real): int {
    var tokens := b.tokens + Trunc((now - b.lastAccess) * MAX_REQUESTS_PER_SECOND as real);
    if tokens < MAX_REQUESTS_PER_SECOND then tokens else MAX_REQUESTS_PER_SECOND
  }

  /** The bucket after a request, and whether the request is passed on. */
  function Dispatch(b: Bucket, r: Request): (Bucket, bool) {
    if !r.api then (b, true)
    else
      var tokens := Refilled(b, r.at);
      if tokens < 1 then (Bucket(tokens, r.at), false) else (Bucket(tokens - 1, r.at), true)
  }

  function After(b: Bucket, rs: seq<Request>): Bucket {
    if rs == [] then b else Dispatch(After(b, rs[..|rs| - 1]), rs[|rs| - 1]).0
  }

  /** How many API requests of rs are passed on. */
  function Accepted(b: Bucket, rs: seq<Request>): nat {
    if rs == [] then 0
    else
      var front, last := rs[..|rs| - 1], rs[|rs| - 1];
      Accepted(b, front) + if last.api && Dispatch(After(b, front), last).1 then 1 else 0
  }

  /** Time does not run backwards. */
  ghost predicate Ordered(start: real, rs: seq<Request>) {
    && (forall i | 0 <= i < |rs| :: start <= rs[i].at)
    && (forall i, j | 0 <= i < j < |rs| :: rs[i].at <= rs[j].at)
  }

  ghost predicate Until(rs: seq<Request>, now: real) { forall i | 0 <= i < |rs| :: rs[i].at <= now }

  predicate InRange(b: Bucket) { 0 <= b.tokens <= MAX_REQUESTS_PER_SECOND }

  lemma TruncIsNoMore(x: real)
    requires x >= 0.0
    ensures 0 <= Trunc(x) && Trunc(x) as real <= x
  {
  }

  /** After any requests the tokens are in range, and what was accepted has been paid for by tokens or by time. */
  lemma {:induction false} Paid(b: Bucket, rs: seq<Request>, now: real)
    requires InRange(b) && b.lastAccess <= now && Ordered(b.lastAccess, rs) && Until(rs, now)
    ensures var after := After(b, rs);
      && InRange(after) && b.lastAccess <= after.lastAccess <= now
      && (after.lastAccess == b.lastAccess || exists i | 0 <= i < |rs| :: after.lastAccess == rs[i].at)
      && Accepted(b, rs) as real + after.tokens as real <= b.tokens as real + 30.0 * (after.lastAccess - b.lastAccess)
  {
    if rs != [] {
      var front, last := rs[..|rs| - 1], rs[|rs| - 1];
      Paid(b, front, last.at);
      if last.api {
        var before := After(b, front);
        TruncIsNoMore((last.at - before.lastAccess) * 30.0);
      }
    }
  }

  lemma StaysInRange(rs: seq<Request>)
    requires Ordered(0.0, rs)
    ensures InRange(After(EMPTY, rs))
  {
    Paid(EMPTY, rs, if rs == [] then 0.0 else rs[|rs| - 1].at);
  }

  lemma {:induction false} AfterConcat(b: Bucket, a: seq<Request>, c: seq<Request>)
    ensures After(b, a + c) == After(After(b, a), c)
    ensures Accepted(b, a + c) == Accepted(b, a) + Accepted(After(b, a), c)
  {
    if c == [] {
      assert a + c == a;
    } else {
      AfterConcat(b, a, c[..|c| - 1]);
      assert (a + c)[..|a + c| - 1] == a + c[..|c| - 1];
    }
  }

  lemma AfterOne(b: Bucket, r: Request)
    ensures After(b, [r]) == Dispatch(b, r).0
    ensures Accepted(b, [r]) == if r.api && Dispatch(b, r).1 then 1 else 0
  {
    assert [r][..0] == [];
  }

  lemma WindowFrom(b: Bucket, first: Request, rest: seq<Request>, now: real)
    requires InRange(b) && b.lastAccess <= first.at <= now && first.api
    requires Ordered(first.at, rest) && Until(rest, now)
    ensures Accepted(b, [first] + rest) as real <= 30.0 + 30.0 * (now - first.at)
  {
    AfterConcat(b, [first], rest);
    AfterOne(b, first);
    TruncIsNoMore((first.at - b.lastAccess) * 30.0);
    Paid(Dispatch(b, first).0, rest, now);
  }

  lemma PartIsOrdered(start: real, rs: seq<Request>, i: nat, j: nat)
    requires Ordered(start, rs) && i <= j < |rs|
    ensures Ordered(start, rs[..i]) && Ordered(rs[i].at, rs[i + 1..j + 1]) && start <= rs[i].at <= rs[j].at
    ensures Until(rs[..i], rs[i].at) && Until(rs[i + 1..j + 1], rs[j].at)
  {
  }

  /** The same from an API request on. */
  lemma WindowFromApi(rs: seq<Request>, i: nat, j: nat)
    requires Ordered(0.0, rs) && i <= j < |rs| && rs[i].api
    ensures 0.0 <= (Accepted(EMPTY, rs[..j + 1]) - Accepted(EMPTY, rs[..i])) as real <= 30.0 + 30.0 * (rs[j].at - rs[i].at)
  {
    hide Ordered, Until, Accepted, After, Dispatch, Refilled;
    var before, rest := rs[..i], rs[i + 1..j + 1];
    PartIsOrdered(0.0, rs, i, j);
    assert rs[..j + 1] == before + ([rs[i]] + rest);
    Paid(EMPTY, before, rs[i].at);
    WindowFrom(After(EMPTY, before), rs[i], rest, rs[j].at);
    AfterConcat(EMPTY, before, [rs[i]] + rest);
  }

  lemma OneMore(rs: seq<Request>, i: nat)
    requires i < |rs|
    ensures rs[..i + 1] == rs[..i] + [rs[i]] && (!rs[i].api ==> Accepted(EMPTY, rs[..i + 1]) == Accepted(EMPTY, rs[..i]))
  {
    assert rs[..i + 1][..i] == rs[..i];
  }

  /** Between any two requests, at times s and t, at most 30 + 30 * (t - s) API requests are passed on. */
  lemma {:induction false} WindowIsBounded(rs: seq<Request>, i: nat, j: nat)
    requires Ordered(0.0, rs) && i <= j < |rs|
    ensures 0.0 <= (Accepted(EMPTY, rs[..j + 1]) - Accepted(EMPTY, rs[..i])) as real <= 30.0 + 30.0 * (rs[j].at - rs[i].at)
    decreases j - i
  {
    hide Accepted;
    if rs[i].api {
      WindowFromApi(rs, i, j);
    } else {
      OneMore(rs, i);
      if i < j { WindowIsBounded(rs, i + 1, j); }
    }
  }

  /** A request is refused exactly when the bucket is empty and less than a thirtieth of a second has passed. */
  lemma RefusedWhen(b: Bucket, r: Request)
    requires InRange(b) && b.lastAccess <= r.at && r.api
    ensures !Dispatch(b, r).1 <==> b.tokens == 0 && 30.0 * (r.at - b.lastAccess) < 1.0
  {
  }

  /** As many API requests at the time t pass as there are tokens by then: one for every thirtieth of a second of the pause, and 30 at most. */
  lemma {:induction false} Burst(b: Bucket, rs: seq<Request>, t: real)
    requires InRange(b) && b.lastAccess <= t && rs != [] && forall r <- rs :: r.api && r.at == t
    ensures var tokens := b.tokens + (30.0 * (t - b.lastAccess)).Floor;
      var passing := if tokens < 30 then tokens else 30;
      && Accepted(b, rs) == (if |rs| < passing then |rs| else passing)
      && After(b, rs) == Bucket(if |rs| < passing then passing - |rs| else 0, t)
  {
    var front, last := rs[..|rs| - 1], rs[|rs| - 1];
    assert last.api && last.at == t;
    if front != [] { Burst(b, front, t); }
  }

  function OfApi(rs: seq<Request>): seq<Request> {
    if rs == [] then [] else OfApi(rs[..|rs| - 1]) + if rs[|rs| - 1].api then [rs[|rs| - 1]] else []
  }

  lemma AfterSnoc(b: Bucket, rs: seq<Request>, r: Request)
    ensures After(b, rs + [r]) == Dispatch(After(b, rs), r).0
    ensures Accepted(b, rs + [r]) == Accepted(b, rs) + if r.api && Dispatch(After(b, rs), r).1 then 1 else 0
    ensures OfApi(rs + [r]) == OfApi(rs) + if r.api then [r] else []
  {
    assert (rs + [r])[..|rs|] == rs;
  }

  lemma NoRequests(b: Bucket)
    ensures OfApi([]) == [] && After(b, []) == b && Accepted(b, []) == 0
  {
  }

  /** Other requests all pass, and the bucket is as if they had not come. */
  lemma {:induction false} OnlyApiCounts(b: Bucket, rs: seq<Request>)
    ensures After(b, rs) == After(b, OfApi(rs)) && Accepted(b, rs) == Accepted(b, OfApi(rs))
    ensures forall i | 0 <= i < |rs| && !rs[i].api :: Dispatch(After(b, rs[..i]), rs[i]).1
  {
    hide After, Accepted, OfApi, Refilled;
    if rs == [] {
      NoRequests(b);
    } else {
      var front, last := rs[..|rs| - 1], rs[|rs| - 1];
      OnlyApiCounts(b, front);
      AfterSnoc(b, front, last);
      AfterSnoc(b, OfApi(front), last);
      assert front + [last] == rs && OfApi(front) + [] == OfApi(front);
      forall i | 0 <= i < |rs| && !rs[i].api ensures Dispatch(After(b, rs[..i]), rs[i]).1 { if i < |front| { assert rs[..i] == front[..i]; } }
    }
  }

  /** API requests that follow each other, and the time before them, in less than a thirtieth of a second. */
  ghost predicate Hurried(start: real, rs: seq<Request>) {
    rs == [] ||
    (var front, last := rs[..|rs| - 1], rs[|rs| - 1];
     && Hurried(start, front) && last.api
     && 0.0 <= 30.0 * (last.at - if front == [] then start else front[|front| - 1].at) < 1.0)
  }

  /** Every request resets the clock, so a client that never pauses that long is refused for ever. */
  lemma {:induction false} NeverServed(b: Bucket, rs: seq<Request>)
    requires b.tokens == 0 && Hurried(b.lastAccess, rs)
    ensures Accepted(b, rs) == 0
    ensures After(b, rs) == if rs == [] then b else Bucket(0, rs[|rs| - 1].at)
  {
    if rs != [] {
      NeverServed(b, rs[..|rs| - 1]);
      RefusedWhen(After(b, rs[..|rs| - 1]), rs[|rs| - 1]);
    }
  }

  class RateLimitMiddleware {
    var tokens: int
    var lastAccessTime: real

    ghost function Contents(): Bucket
      reads this
    {
      Bucket(tokens, lastAccessTime)
    }

    constructor ()
      ensures Contents() == EMPTY && tokens == 0 && lastAccessTime == 0.0
    {
      tokens, lastAccessTime := 0, 0.0;
    }

    /** dispatch, up to the decision; passed means that the next middleware is called. */
    method HandleRequest(r: Request) returns (passed: bool)
      modifies this
      ensures (Contents(), passed) == Dispatch(old(Contents()), r)
    {
      if !r.api { return true; }
      var elapsed := r.at - lastAccessTime;
      var toAdd := Trunc(elapsed * MAX_REQUESTS_PER_SECOND as real);
      tokens := if tokens + toAdd < MAX_REQUESTS_PER_SECOND then tokens + toAdd else MAX_REQUESTS_PER_SECOND;
      lastAccessTime := r.at;
      if tokens < 1 { return false; }
      tokens := tokens - 1;
      return true;
    }
  }
}
