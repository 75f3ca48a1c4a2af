/** api/rate_limit.py: the sliding-window log behind every request.

    Redis runs the script atomically; the clock of one key never goes back; every request
    brings a member of its own.  Times are milliseconds. */
module RateLimit {
  import opened Seqs

  // ----- the plain log: what the limiter is meant to do

  /** The logged times later than `cutoff`. */
  function Later(log: seq<nat>, cutoff: int): seq<nat> {
    if log == [] then [] else (if log[0] > cutoff then [log[0]] else []) + Later(log[1..], cutoff)
  }

  datatype Verdict = Verdict(allowed: bool, remaining: int, resetMs: nat)

  predicate Allows(log: seq<nat>, now: nat, window: nat, limit: nat) {
    |Later(log, now - window)| < limit
  }

  /** The log after a request at `now`. */
  function Logged(log: seq<nat>, now: nat, window: nat, limit: nat): seq<nat> {
    if Allows(log, now, window, limit) then log + [now] else log
  }

  /** Time until the oldest admission in the window leaves it; the whole window if there is
      none. */
  function ResetMs(log: seq<nat>, now: nat, window: nat): nat {
    var live := Later(log, now - window);
    if live == [] then window else if live[0] + window < now then 0 else live[0] + window - now
  }

  function Decide(log: seq<nat>, now: nat, window: nat, limit: nat): Verdict {
    var after := Logged(log, now, window, limit);
    Verdict(Allows(log, now, window, limit), limit - |Later(after, now - window)|, ResetMs(after, now, window))
  }

  // ----- the sorted set in Redis, in the order of its scores

  datatype Entry = Entry(score: nat, member: string)

  function Scores(entries: seq<Entry>): seq<nat> {
    seq(|entries|, i requires 0 <= i < |entries| => entries[i].score)
  }

  /** ZREMRANGEBYSCORE from 0 to `cutoff`. */
  function RemoveUpTo(entries: seq<Entry>, cutoff: int): seq<Entry> {
    if entries == [] then []
    else (if 0 <= entries[0].score as int <= cutoff then [] else [entries[0]]) + RemoveUpTo(entries[1..], cutoff)
  }

  function Without(entries: seq<Entry>, member: string): seq<Entry> {
    if entries == [] then []
    else (if entries[0].member == member then [] else [entries[0]]) + Without(entries[1..], member)
  }

  function Insert(entries: seq<Entry>, entry: Entry): seq<Entry> {
    if entries == [] || entry.score < entries[0].score then [entry] + entries
    else [entries[0]] + Insert(entries[1..], entry)
  }

  /** ZADD: a member is in the set once, at the place of its score. */
  function Add(entries: seq<Entry>, score: nat, member: string): seq<Entry> {
    Insert(Without(entries, member), Entry(score, member))
  }

  lemma {:induction false} ScoresAfterRemoval(entries: seq<Entry>, cutoff: int)
    ensures Scores(RemoveUpTo(entries, cutoff)) == Later(Scores(entries), cutoff)
  {
    if entries != [] {
      ScoresAfterRemoval(entries[1..], cutoff);
      assert Scores(entries)[1..] == Scores(entries[1..]);
    }
  }

  /** Every member was used before, with a score up to `latest`. */
  predicate Known(entries: seq<Entry>, used: set<string>, latest: nat) {
    forall i :: 0 <= i < |entries| ==> entries[i].member in used && entries[i].score <= latest
  }

  lemma {:induction false} KnownAfterRemoval(entries: seq<Entry>, cutoff: int, used: set<string>, latest: nat)
    requires Known(entries, used, latest)
    ensures Known(RemoveUpTo(entries, cutoff), used, latest)
  {
    if entries != [] { KnownAfterRemoval(entries[1..], cutoff, used, latest); }
  }

  lemma {:induction false} WithoutNothing(entries: seq<Entry>, member: string)
    requires forall i :: 0 <= i < |entries| ==> entries[i].member != member
    ensures Without(entries, member) == entries
  {
    if entries != [] { WithoutNothing(entries[1..], member); }
  }

  lemma {:induction false} InsertLast(entries: seq<Entry>, entry: Entry)
    requires forall i :: 0 <= i < |entries| ==> entries[i].score <= entry.score
    ensures Insert(entries, entry) == entries + [entry]
  {
    if entries != [] { InsertLast(entries[1..], entry); }
  }

  lemma AddingTheLatest(entries: seq<Entry>, used: set<string>, now: nat, member: string)
    requires Known(entries, used, now) && member !in used
    ensures Add(entries, now, member) == entries + [Entry(now, member)]
  {
    WithoutNothing(entries, member);
    InsertLast(entries, Entry(now, member));
  }

  // ----- looking at a log through a window

  lemma {:induction false} LaterOfConcat(a: seq<nat>, b: seq<nat>, cutoff: int)
    ensures Later(a + b, cutoff) == Later(a, cutoff) + Later(b, cutoff)
  {
    if a == [] {
      assert a + b == b;
    } else {
      assert (a + b)[1..] == a[1..] + b;
      LaterOfConcat(a[1..], b, cutoff);
    }
  }

  lemma {:induction false} LaterSnoc(log: seq<nat>, now: nat, cutoff: int)
    ensures Later(log + [now], cutoff) == Later(log, cutoff) + if now > cutoff then [now] else []
  {
    LaterOfConcat(log, [now], cutoff);
    assert [now][1..] == [];
  }

  /** Looking through a window and then through a later one is looking through the later one. */
  lemma {:induction false} LaterTwice(log: seq<nat>, first: int, second: int)
    requires first <= second
    ensures Later(Later(log, first), second) == Later(log, second)
  {
    if log != [] {
      LaterTwice(log[1..], first, second);
      var head := if log[0] > first then [log[0]] else [];
      LaterOfConcat(head, Later(log[1..], first), second);
      assert head == [log[0]] ==> head[1..] == [];
    }
  }

  lemma {:induction false} NothingLater(log: seq<nat>, cutoff: int)
    requires forall i :: 0 <= i < |log| ==> log[i] <= cutoff
    ensures Later(log, cutoff) == []
  {
    if log != [] { NothingLater(log[1..], cutoff); }
  }

  /** The set after the key's expiry and the script's first command. */
  function Swept(entries: seq<Entry>, expiresAt: nat, now: nat, window: nat): seq<Entry> {
    RemoveUpTo(if now > expiresAt then [] else entries, now - window)
  }

  /** What Redis holds agrees with the log of all admissions: the set is the log seen
      through the window of the latest request, and the key outlives its members. */
  ghost predicate Consistent(window: nat, entries: seq<Entry>, expiresAt: nat, log: seq<nat>, used: set<string>,
                             clock: nat) {
    && window > 0
    && Scores(entries) == Later(log, clock - window)
    && (forall i :: 0 <= i < |log| ==> log[i] <= clock)
    && Known(entries, used, clock)
    && (entries != [] ==> clock + window <= expiresAt)
  }

  /** Expiry and eviction leave the log seen through the new window. */
  lemma SweepKeeps(window: nat, entries: seq<Entry>, expiresAt: nat, log: seq<nat>, used: set<string>, clock: nat,
                   now: nat)
    requires Consistent(window, entries, expiresAt, log, used, clock) && clock <= now
    ensures Scores(Swept(entries, expiresAt, now, window)) == Later(log, now - window)
    ensures Known(Swept(entries, expiresAt, now, window), used, now)
  {
    LaterTwice(log, clock - window, now - window);
    ScoresAfterRemoval(entries, now - window);
    KnownAfterRemoval(entries, now - window, used, clock);
    if now > expiresAt && entries != [] {
      NothingLater(log, now - window);
      assert Swept(entries, expiresAt, now, window) == [];
    }
  }

  /** The set once the script has admitted the request, or not. */
  function Admitted(entries: seq<Entry>, now: nat, member: string, limit: nat): seq<Entry> {
    if |entries| < limit then Add(entries, now, member) else entries
  }

  /** The script keeps the set in agreement with the log. */
  lemma AdmitKeeps(window: nat, entries: seq<Entry>, log: seq<nat>, used: set<string>, clock: nat, now: nat,
                   member: string, limit: nat)
    requires window > 0 && Scores(entries) == Later(log, now - window) && member !in used && clock <= now
    requires Known(entries, used, now)
    requires forall i :: 0 <= i < |log| ==> log[i] <= clock
    ensures Consistent(window, Admitted(entries, now, member, limit), now + window, Logged(log, now, window, limit),
                       used + {member}, now)
    ensures |Admitted(entries, now, member, limit)| == |entries| + if |entries| < limit then 1 else 0
  {
    ReadOff(entries, Later(log, now - window));
    if |entries| < limit {
      AddingTheLatest(entries, used, now, member);
      AddedScores(window, entries, log, now, member);
      KnownMore(entries, used, now, member);
    }
  }

  lemma AddedScores(window: nat, entries: seq<Entry>, log: seq<nat>, now: nat, member: string)
    requires window > 0 && Scores(entries) == Later(log, now - window)
    ensures Scores(entries + [Entry(now, member)]) == Later(log + [now], now - window)
  {
    LaterSnoc(log, now, now - window);
    assert Scores(entries + [Entry(now, member)]) == Scores(entries) + [now];
  }

  lemma KnownMore(entries: seq<Entry>, used: set<string>, now: nat, member: string)
    requires Known(entries, used, now)
    ensures Known(entries + [Entry(now, member)], used + {member}, now)
  {
  }

  lemma ReadOff(entries: seq<Entry>, live: seq<nat>)
    requires Scores(entries) == live
    ensures |entries| == |live| && (entries != [] ==> entries[0].score == live[0])
  {
    if entries != [] { assert Scores(entries)[0] == entries[0].score; }
  }

  /** The reset time the script reads off the set. */
  function ResetFrom(entries: seq<Entry>, now: nat, window: nat): nat {
    if entries == [] then window
    else if entries[0].score + window < now then 0 else entries[0].score + window - now
  }

  /** What the script answers is what the plain log decides. */
  lemma VerdictIs(window: nat, left: seq<Entry>, log: seq<nat>, now: nat, member: string, limit: nat)
    requires Scores(left) == Later(log, now - window)
    requires var after := Admitted(left, now, member, limit);
      Scores(after) == Later(Logged(log, now, window, limit), now - window)
    ensures Decide(log, now, window, limit).allowed == (|left| < limit)
    ensures Decide(log, now, window, limit).remaining == limit - |Admitted(left, now, member, limit)|
    ensures Decide(log, now, window, limit).resetMs == ResetFrom(Admitted(left, now, member, limit), now, window)
  {
    ReadOff(left, Later(log, now - window));
    ReadOff(Admitted(left, now, member, limit), Later(Logged(log, now, window, limit), now - window));
  }

  /** The sorted set of one caller, which disappears by itself when nobody has touched it
      for a window. */
  class Bucket {
    const window: nat
    const limit: nat
    var entries: seq<Entry>
    var expiresAt: nat

    ghost var log: seq<nat>        // every admission there ever was
    ghost var used: set<string>    // the members of all requests
    ghost var clock: nat           // the latest request

    ghost predicate Valid()
      reads this
    {
      Consistent(window, entries, expiresAt, log, used, clock)
    }

    constructor (window: nat, limit: nat)
      requires window > 0
      ensures Valid() && log == [] && used == {} && clock == 0
      ensures this.window == window && this.limit == limit
    {
      this.window, this.limit := window, limit;
      entries, expiresAt := [], 0;
      log, used, clock := [], {}, 0;
    }

    /** The script.  Its answer and the admissions are those of the plain log: neither
        eviction nor expiry can be observed. */
    method Script(now: nat, member: string) returns (verdict: Verdict)
      requires Valid() && clock <= now && member !in used
      modifies this
      ensures Valid() && clock == now && used == old(used) + {member}
      ensures verdict == Decide(old(log), now, window, limit)
      ensures log == Logged(old(log), now, window, limit)
    {
      SweepKeeps(window, entries, expiresAt, log, used, clock, now);
      entries := Swept(entries, expiresAt, now, window);
      AdmitKeeps(window, entries, log, used, clock, now, member, limit);
      VerdictIs(window, entries, log, now, member, limit);

      var count, allowed := |entries|, false;
      if count < limit {
        entries := Add(entries, now, member);
        count, allowed := count + 1, true;
      }
      expiresAt := now + window;
      log, used, clock := Logged(log, now, window, limit), used + {member}, now;

      var resetMs: int := window;
      if entries != [] { resetMs := entries[0].score + window - now; }
      if resetMs < 0 { resetMs := 0; }
      verdict := Verdict(allowed, limit - count, resetMs);
    }
  }
}
