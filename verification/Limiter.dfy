/** api/rate_limit.py: the limiter around the script, and what a run of requests can and
    cannot get out of it. */
module Limiter {
  import opened Seqs
  import opened RateLimit

  datatype Decision = Decision(allowed: bool, limit: nat, remaining: nat, resetSeconds: nat, degraded: bool)

  /** `max(1, ceil(ms / 1000))`. */
  function ResetSeconds(resetMs: nat): (s: nat)
    ensures s >= 1 && 1000 * s >= resetMs
    ensures s > 1 ==> 1000 * (s - 1) < resetMs
  {
    var s := (resetMs + 999) / 1000;
    if s < 1 then 1 else s
  }

  /** What becomes of a call to Redis: an answer, an error before the script has run, or an
      error after it has run, when only the answer is lost. */
  datatype Call = Answers | NeverReached | AnswerLost

  /** `RateLimiter` for one caller.  A failed call is answered by policy, whatever the script
      has made of it. */
  class RateLimiter {
    const failOpen: bool
    const bucket: Bucket
    var degraded: bool

    constructor (bucket: Bucket, failOpen: bool)
      ensures this.bucket == bucket && this.failOpen == failOpen && !degraded
    {
      this.bucket, this.failOpen, degraded := bucket, failOpen, false;
    }

    method Check(now: nat, member: string, call: Call) returns (d: Decision)
      requires bucket.Valid() && bucket.clock <= now && member !in bucket.used
      modifies this, bucket
      ensures bucket.Valid() && degraded == d.degraded == !call.Answers? && d.limit == bucket.limit
      ensures !call.Answers? ==> d == Decision(failOpen, bucket.limit, 0, bucket.window / 1000, true)
      ensures bucket.log == if call.NeverReached? then old(bucket.log)
                            else Logged(old(bucket.log), now, bucket.window, bucket.limit)
      ensures call.Answers? ==>
        var verdict := Decide(old(bucket.log), now, bucket.window, bucket.limit);
        && d.allowed == verdict.allowed
        && d.remaining == (if verdict.remaining < 0 then 0 else verdict.remaining)
        && d.resetSeconds == ResetSeconds(verdict.resetMs)
    {
      if call.NeverReached? {
        degraded := true;
        return Decision(failOpen, bucket.limit, 0, bucket.window / 1000, true);
      }
      var verdict := bucket.Script(now, member);
      if call.AnswerLost? {
        degraded := true;
        return Decision(failOpen, bucket.limit, 0, bucket.window / 1000, true);
      }
      degraded := false;
      d := Decision(verdict.allowed, bucket.limit, if verdict.remaining < 0 then 0 else verdict.remaining,
                    ResetSeconds(verdict.resetMs), false);
    }
  }

  // ----- runs of requests

  predicate Sorted(log: seq<nat>) {
    forall i, j :: 0 <= i <= j < |log| ==> log[i] <= log[j]
  }

  predicate UpTo(log: seq<nat>, t: nat) {
    forall i :: 0 <= i < |log| ==> log[i] <= t
  }

  /** The log after requests at the given times. */
  function RunLog(times: seq<nat>, window: nat, limit: nat): seq<nat> {
    if times == [] then []
    else Logged(RunLog(times[..|times| - 1], window, limit), times[|times| - 1], window, limit)
  }

  /** Of any `limit + 1` admissions in a row the last comes a window after the first. */
  predicate Spaced(log: seq<nat>, window: nat, limit: nat) {
    forall i :: limit <= i < |log| ==> log[i - limit] + window <= log[i]
  }

  /** A sorted log seen through a window is a suffix of it. */
  lemma {:induction false} LaterIsSuffix(log: seq<nat>, cutoff: int) returns (b: nat)
    requires Sorted(log)
    ensures b <= |log| && Later(log, cutoff) == log[b..]
    ensures forall i :: 0 <= i < b ==> log[i] <= cutoff
    ensures forall i :: b <= i < |log| ==> log[i] > cutoff
  {
    if log == [] { return 0; }
    var rest := log[1..];
    assert forall i :: 0 <= i < |rest| ==> rest[i] == log[i + 1];
    var c := LaterIsSuffix(rest, cutoff);
    if log[0] > cutoff {
      forall i | 0 <= i < |rest| ensures rest[i] > cutoff { assert log[0] <= log[i + 1]; }
      b := 0;
    } else {
      b := c + 1;
      forall i | 0 <= i < b ensures log[i] <= cutoff { if i > 0 { assert log[i] == rest[i - 1]; } }
      forall i | b <= i < |log| ensures log[i] > cutoff { assert log[i] == rest[i - 1]; }
    }
  }

  lemma SpacedAt(log: seq<nat>, window: nat, limit: nat, i: nat)
    requires Spaced(log, window, limit) && limit <= i < |log|
    ensures log[i - limit] + window <= log[i]
  {
  }

  lemma SpacedSnoc(log: seq<nat>, window: nat, limit: nat, now: nat)
    requires Spaced(log, window, limit) && limit > 0
    requires |log| >= limit ==> log[|log| - limit] + window <= now
    ensures Spaced(log + [now], window, limit)
  {
    var after := log + [now];
    forall i | limit <= i < |after| ensures after[i - limit] + window <= after[i] {
      if i < |log| { SpacedAt(log, window, limit, i); }
    }
  }

  lemma LoggedKeeps(log: seq<nat>, now: nat, window: nat, limit: nat)
    requires window > 0 && Sorted(log) && Spaced(log, window, limit) && UpTo(log, now)
    ensures var after := Logged(log, now, window, limit);
      Sorted(after) && Spaced(after, window, limit) && UpTo(after, now)
  {
    if Allows(log, now, window, limit) {
      var b := LaterIsSuffix(log, now - window);
      if |log| >= limit { assert log[|log| - limit] <= now - window; }
      SpacedSnoc(log, window, limit, now);
    }
  }

  lemma {:induction false} RunKeeps(times: seq<nat>, window: nat, limit: nat)
    requires window > 0 && Sorted(times)
    ensures var log := RunLog(times, window, limit);
      Sorted(log) && Spaced(log, window, limit) && forall t | UpTo(times, t) :: UpTo(log, t)
  {
    if times != [] {
      var n := |times| - 1;
      RunKeeps(times[..n], window, limit);
      assert UpTo(times[..n], times[n]);
      LoggedKeeps(RunLog(times[..n], window, limit), times[n], window, limit);
    }
  }

  /** Admissions at `from` or later and before `to`. */
  function CountIn(log: seq<nat>, from: nat, to: nat): nat {
    if log == [] then 0 else (if from <= log[0] < to then 1 else 0) + CountIn(log[1..], from, to)
  }

  lemma {:induction false} CountBetween(log: seq<nat>, from: nat, to: nat)
    requires from <= to
    ensures CountIn(log, from, to) == |Later(log, from - 1)| - |Later(log, to - 1)|
  {
    if log != [] { CountBetween(log[1..], from, to); }
  }

  /** Counting back from the last admission up to `latest`, the one `limit` places earlier is
      out of the window. */
  lemma LimitBefore(log: seq<nat>, window: nat, limit: nat, e: nat, latest: nat, s: nat)
    requires Spaced(log, window, limit) && s <= |log| && e <= |log|
    requires forall i :: 0 <= i < e ==> log[i] <= latest
    requires forall i :: s <= i < |log| ==> log[i] > latest - window
    ensures e <= s + limit
  {
    if e > limit {
      var last := e - 1;
      assert log[last - limit] + window <= log[last];
    }
  }

  /** Over any run of requests, every half-open interval as long as the window holds at most
      `limit` admissions: there is no boundary to straddle. */
  lemma NoIntervalHoldsMore(times: seq<nat>, window: nat, limit: nat, t: nat)
    requires window > 0 && Sorted(times)
    ensures CountIn(RunLog(times, window, limit), t, t + window) <= limit
  {
    var log := RunLog(times, window, limit);
    RunKeeps(times, window, limit);
    CountBetween(log, t, t + window);
    var s := LaterIsSuffix(log, t - 1);
    var e := LaterIsSuffix(log, t + window - 1);
    LimitBefore(log, window, limit, e, t + window - 1, s);
  }

  /** A denial is exact: until `reset_ms` is over every request is denied, with the same
      moment of reset, and from then on a request is admitted.  A limit of 0 never admits. */
  lemma DenialIsExact(log: seq<nat>, now: nat, window: nat, limit: nat, later: nat)
    requires window > 0 && Sorted(log) && Spaced(log, window, limit) && UpTo(log, now)
    requires !Decide(log, now, window, limit).allowed && now <= later
    ensures var reset := now + Decide(log, now, window, limit).resetMs;
      && (Decide(log, later, window, limit).allowed <==> limit > 0 && later >= reset)
      && (limit > 0 && later < reset ==> later + Decide(log, later, window, limit).resetMs == reset)
    ensures Decide(log, now, window, limit).remaining == 0
  {
    if limit > 0 {
      var b := LaterIsSuffix(log, now - window);
      LimitBefore(log, window, limit, |log|, now, b);
      assert |log| - b == limit;
      var c := LaterIsSuffix(log, later - window);
      if b > 0 { assert log[b - 1] <= later - window; }
      assert c >= b;
    }
  }

  /** After an admission the reset is the moment the next place comes free: until then as many
      admissions count as now, and from then on fewer. */
  lemma AdmissionResetIsExact(log: seq<nat>, now: nat, window: nat, limit: nat, later: nat)
    requires window > 0 && Sorted(log) && UpTo(log, now) && now <= later
    requires Decide(log, now, window, limit).allowed
    ensures var after, reset := Logged(log, now, window, limit), now + Decide(log, now, window, limit).resetMs;
      && (later < reset ==> |Later(after, later - window)| == |Later(after, now - window)|)
      && (later >= reset ==> |Later(after, later - window)| < |Later(after, now - window)|)
  {
    PlaceComesFree(log + [now], now, window, later);
  }

  lemma PlaceComesFree(after: seq<nat>, now: nat, window: nat, later: nat)
    requires window > 0 && Sorted(after) && now <= later && after != [] && after[|after| - 1] == now
    ensures var reset := now + ResetMs(after, now, window);
      && (later < reset ==> |Later(after, later - window)| == |Later(after, now - window)|)
      && (later >= reset ==> |Later(after, later - window)| < |Later(after, now - window)|)
  {
    var b := LiveFrom(after, now, window, now);
    var c := LiveFrom(after, now, window, later);
    ResetIsOldest(after, now, window, b);
    FirstToLeave(after, now, window, later, b, c);
  }

  lemma LiveFrom(after: seq<nat>, now: nat, window: nat, t: nat) returns (b: nat)
    requires window > 0 && Sorted(after) && now <= t && after != [] && after[|after| - 1] == now
    ensures b <= |after| && |Later(after, t - window)| == |after| - b && Later(after, t - window) == after[b..]
    ensures forall i :: 0 <= i < b ==> after[i] <= t - window
    ensures forall i :: b <= i < |after| ==> after[i] > t - window
    ensures t == now ==> b < |after|
  {
    b := LaterIsSuffix(after, t - window);
  }

  lemma ResetIsOldest(after: seq<nat>, now: nat, window: nat, b: nat)
    requires b < |after| && Later(after, now - window) == after[b..] && after[b] > now - window
    ensures now + ResetMs(after, now, window) == after[b] + window
  {
    assert after[b..][0] == after[b];
  }

  lemma FirstToLeave(after: seq<nat>, now: nat, window: nat, later: nat, b: nat, c: nat)
    requires b < |after| && c <= |after| && now <= later
    requires forall i :: 0 <= i < b ==> after[i] <= now - window
    requires forall i :: b <= i < |after| ==> after[i] > now - window
    requires forall i :: 0 <= i < c ==> after[i] <= later - window
    requires forall i :: c <= i < |after| ==> after[i] > later - window
    ensures later < after[b] + window ==> c == b
    ensures later >= after[b] + window ==> c > b
  {
    var oldest, next := after[b], if c < |after| then after[c] else later;
  }

  /** The log after further requests at the given times. */
  function Onward(log: seq<nat>, times: seq<nat>, window: nat, limit: nat): seq<nat> {
    if times == [] then log
    else Logged(Onward(log, times[..|times| - 1], window, limit), times[|times| - 1], window, limit)
  }

  /** Requests from a denial on and, unless the limit is 0, before its reset. */
  predicate BeforeReset(log: seq<nat>, now: nat, window: nat, limit: nat, times: seq<nat>) {
    forall i :: 0 <= i < |times| ==>
      now <= times[i] && (limit > 0 ==> times[i] < now + Decide(log, now, window, limit).resetMs)
  }

  lemma {:induction false} TryingIsNotLogged(log: seq<nat>, now: nat, window: nat, limit: nat, times: seq<nat>)
    requires window > 0 && Sorted(log) && Spaced(log, window, limit) && UpTo(log, now)
    requires !Decide(log, now, window, limit).allowed && BeforeReset(log, now, window, limit, times)
    ensures Onward(log, times, window, limit) == log
  {
    if times != [] {
      var n := |times| - 1;
      TryingIsNotLogged(log, now, window, limit, times[..n]);
      DenialIsExact(log, now, window, limit, times[n]);
    }
  }

  /** However often a denied caller tries before the reset, each request is denied and the
      reset stays where it was. */
  lemma TryingDoesNotMoveTheReset(log: seq<nat>, now: nat, window: nat, limit: nat, times: seq<nat>, i: nat)
    requires window > 0 && Sorted(log) && Spaced(log, window, limit) && UpTo(log, now)
    requires !Decide(log, now, window, limit).allowed && BeforeReset(log, now, window, limit, times)
    requires i < |times|
    ensures var verdict := Decide(Onward(log, times[..i], window, limit), times[i], window, limit);
      && !verdict.allowed
      && (limit > 0 ==> times[i] + verdict.resetMs == now + Decide(log, now, window, limit).resetMs)
  {
    TryingIsNotLogged(log, now, window, limit, times[..i]);
    DenialIsExact(log, now, window, limit, times[i]);
  }

  /** Waiting the advertised seconds after a denial, however often the caller tried before
      the reset, is enough exactly when the limit is not 0. */
  lemma AdvertisedWaitSufficesIff(log: seq<nat>, now: nat, window: nat, limit: nat, times: seq<nat>, later: nat)
    requires window > 0 && Sorted(log) && Spaced(log, window, limit) && UpTo(log, now)
    requires !Decide(log, now, window, limit).allowed && BeforeReset(log, now, window, limit, times)
    requires later >= now + 1000 * ResetSeconds(Decide(log, now, window, limit).resetMs)
    ensures Decide(Onward(log, times, window, limit), later, window, limit).allowed <==> limit > 0
  {
    TryingIsNotLogged(log, now, window, limit, times);
    DenialIsExact(log, now, window, limit, later);
  }

  /** The log after `k` more requests at one instant. */
  function Burst(log: seq<nat>, now: nat, window: nat, limit: nat, k: nat): seq<nat> {
    if k == 0 then log else Logged(Burst(log, now, window, limit, k - 1), now, window, limit)
  }

  lemma {:induction false} BurstFills(log: seq<nat>, now: nat, window: nat, limit: nat, k: nat)
    requires window > 0 && |Later(log, now - window)| <= limit
    ensures |Later(Burst(log, now, window, limit, k), now - window)|
         == if |Later(log, now - window)| + k <= limit then |Later(log, now - window)| + k else limit
  {
    if k > 0 {
      BurstFills(log, now, window, limit, k - 1);
      LaterSnoc(Burst(log, now, window, limit, k - 1), now, now - window);
    }
  }

  /** After an admission, `remaining` is exactly how many more requests at that instant would
      be admitted: those, and none after them. */
  lemma RemainingIsExact(log: seq<nat>, now: nat, window: nat, limit: nat, k: nat)
    requires window > 0 && Decide(log, now, window, limit).allowed
    ensures var after, remaining := Logged(log, now, window, limit), Decide(log, now, window, limit).remaining;
      && remaining >= 0
      && (Decide(Burst(after, now, window, limit, k), now, window, limit).allowed <==> k < remaining)
  {
    LaterSnoc(log, now, now - window);
    BurstFills(Logged(log, now, window, limit), now, window, limit, k);
  }
}
