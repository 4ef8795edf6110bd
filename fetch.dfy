/**
 * `fetchWithRetry` (src/utils.js, and its copy in index.js): up to `retries`
 * GET attempts with a linear back-off, returning the payload of the first
 * 2xx response or null.
 *
 * The network is an oracle: `net(i)` is the outcome of attempt `i + 1`.
 * Sleeping is recorded, not performed: the method returns the list of
 * pauses, in milliseconds, in the order they are taken.
 */
module Fetch {
  import opened Wrappers

  /** The default number of attempts. */
  const MAX_RETRIES := 4

  /** What `axios.get` does on one attempt: a response with a status code
      and a body, or an exception (network error, timeout, ...). */
  datatype Outcome<T> = Response(status: int, data: T) | Thrown

  /** The HTTP client is configured with `validateStatus: status >= 200 &&
      status < 500`: any other status makes the request reject, which the
      retry loop sees as an exception. */
  predicate Resolves<T>(o: Outcome<T>) {
    o.Response? && 200 <= o.status < 500
  }

  /** The attempt delivered the payload. */
  predicate Succeeds<T>(o: Outcome<T>) {
    Resolves(o) && 200 <= o.status < 300
  }

  function Min(a: int, b: int): int {
    if a <= b then a else b
  }

  /** An attempt that ended with `o` is followed by a pause: every
      outcome but a success or a 3xx response. */
  predicate NeedsPause<T>(o: Outcome<T>) {
    !(Succeeds(o) || (Resolves(o) && 300 <= o.status < 400))
  }

  /** The length of that pause after attempt number `n` (1-based):
      `min(5000, 500 n)` after a 429, and `500 n` otherwise. */
  function Delay<T>(o: Outcome<T>, n: nat): (d: nat)
    ensures d <= 500 * n
  {
    if Resolves(o) && o.status == 429 then Min(5000, 500 * n) else 500 * n
  }

  /** The pause taken after attempt number `n` ended with `o`, if any. */
  function Pause<T>(o: Outcome<T>, n: nat): (p: seq<nat>)
    ensures |p| <= 1
  {
    if NeedsPause(o) then [Delay(o, n)] else []
  }

  /** The pauses of the first `k` attempts, in order. */
  function Pauses<T>(net: nat -> Outcome<T>, k: nat): seq<nat> {
    if k == 0 then [] else Pauses(net, k - 1) + Pause(net(k - 1), k)
  }

  /** The retry loop. `data` is the payload of the first successful
      attempt, if there is one within `retries` attempts; `attempts` is how
      many requests were made; `sleeps` lists every pause, including the one
      after the final failed attempt. A non-positive `retries` makes no
      request at all. */
  method FetchWithRetry<T>(net: nat -> Outcome<T>, retries: int) returns (data: Option<T>, attempts: nat, sleeps: seq<nat>)
    ensures attempts <= (if retries > 0 then retries else 0)
    ensures forall i :: 0 <= i && i + 1 < attempts ==> !Succeeds(net(i))
    ensures data.Some? ==> attempts > 0 && Succeeds(net(attempts - 1)) && data.value == net(attempts - 1).data
    ensures data.None? ==> attempts == (if retries > 0 then retries else 0) && forall i :: 0 <= i < attempts ==> !Succeeds(net(i))
    ensures sleeps == Pauses(net, attempts)
  {
    attempts := 0;
    data := None;
    sleeps := [];
    while attempts < retries
      invariant attempts <= (if retries > 0 then retries else 0)
      invariant forall i :: 0 <= i < attempts ==> !Succeeds(net(i))
      invariant sleeps == Pauses(net, attempts)
      decreases retries - attempts
    {
      attempts := attempts + 1;
      var o := net(attempts - 1);
      if Resolves(o) {
        if o.status == 429 {
          sleeps := sleeps + [Min(5000, 500 * attempts)];
          continue;
        }
        if 200 <= o.status < 300 {
          data := Some(o.data);
          return;
        }
        if o.status >= 400 {
          sleeps := sleeps + [500 * attempts];
          continue;
        }
      } else {
        sleeps := sleeps + [500 * attempts];
      }
    }
  }

  function Sum(s: seq<nat>): nat {
    if s == [] then 0 else Sum(s[..|s| - 1]) + s[|s| - 1]
  }

  lemma {:induction false} SumAppend(a: seq<nat>, b: seq<nat>)
    requires |b| <= 1
    ensures Sum(a + b) == Sum(a) + Sum(b)
  {
    if b != [] {
      assert (a + b)[..|a + b| - 1] == a;
      assert Sum(b) == Sum(b[..0]) + b[0];
    } else {
      assert a + b == a;
    }
  }

  /** 1 + 2 + ... + k. */
  function Triangle(k: nat): nat {
    if k == 0 then 0 else Triangle(k - 1) + k
  }

  /** One attempt pauses at most once, for at most 500 n milliseconds. */
  lemma PauseBounded<T>(o: Outcome<T>, n: nat)
    ensures |Pause(o, n)| <= 1 && Sum(Pause(o, n)) <= 500 * n
  {
    var p := Pause(o, n);
    if p != [] {
      assert p[..0] == [];
    }
  }

  /** At most one pause per attempt. */
  lemma {:induction false} PausesCount<T>(net: nat -> Outcome<T>, k: nat)
    ensures |Pauses(net, k)| <= k
  {
    if k > 0 {
      PausesCount(net, k - 1);
    }
  }

  /** The total waiting time of `k` attempts is bounded by
      500 (1 + 2 + ... + k) milliseconds. */
  lemma {:induction false} PausesBounded<T>(net: nat -> Outcome<T>, k: nat)
    ensures Sum(Pauses(net, k)) <= 500 * Triangle(k)
  {
    if k > 0 {
      PausesBounded(net, k - 1);
      PauseBounded(net(k - 1), k);
      SumStep(Pauses(net, k - 1), Pause(net(k - 1), k), Triangle(k - 1), k);
    }
  }

  lemma SumStep(prev: seq<nat>, last: seq<nat>, t: nat, k: nat)
    requires |last| <= 1 && Sum(prev) <= 500 * t && Sum(last) <= 500 * k
    ensures Sum(prev + last) <= 500 * (t + k)
  {
    SumAppend(prev, last);
  }

  /** With the default of four attempts the crawler waits at most five
      seconds in total for one URL. */
  lemma DefaultBackoffBudget<T>(net: nat -> Outcome<T>)
    ensures Sum(Pauses(net, MAX_RETRIES)) <= 5000
  {
    PausesBounded(net, MAX_RETRIES);
    assert Triangle(4) == 10;
  }

  /** Three rate-limited answers followed by a success: the pauses grow
      linearly, 500, 1000 and 1500 ms, and the fourth attempt delivers. */
  lemma RateLimitedThenOk(net: nat -> Outcome<int>)
    requires forall i :: i < 3 ==> net(i) == Response(429, 0)
    requires net(3) == Response(200, 7)
    ensures Pauses(net, 4) == [500, 1000, 1500]
    ensures Succeeds(net(3)) && forall i :: 0 <= i < 3 ==> !Succeeds(net(i))
  {
    assert net(0) == Response(429, 0) && net(1) == Response(429, 0) && net(2) == Response(429, 0);
    assert Pauses(net, 1) == [500];
    assert Pauses(net, 2) == [500, 1000];
    assert Pauses(net, 3) == [500, 1000, 1500];
  }

  /** A long run of rate limits is capped at five seconds per pause. */
  lemma RateLimitCap(net: nat -> Outcome<int>, n: nat)
    requires n >= 10 && net(n - 1) == Response(429, 0)
    ensures Pauses(net, n) == Pauses(net, n - 1) + [5000]
  {
  }
}
