/** What the router's counters say over every run, however the requests interleave. */
module RouterRuns {
  import opened Seqs
  import opened InferenceRouter

  // ----- rotations

  lemma TurnIs(n: nat, start: nat, i: nat)
    requires start < n && i < n
    ensures Turn(n, start, i) == if start + i < n then start + i else start + i - n
  {
    if start + i < n { DivisionIs(start + i, n, 0, start + i); } else { DivisionIs(start + i, n, 1, start + i - n); }
  }

  /** A rotation names every upstream, each once. */
  lemma RotationIsComplete(n: nat, start: nat, i: nat, j: nat)
    requires start < n && i < n && j < n
    ensures Turn(n, start, i) < n
    ensures Turn(n, start, i) == Turn(n, start, j) ==> i == j
    ensures exists k :: 0 <= k < n && Turn(n, start, k) == i
  {
    TurnIs(n, start, i);
    TurnIs(n, start, j);
    var k := if i >= start then i - start else i + n - start;
    TurnIs(n, start, k);
  }

  // ----- counting requests

  function Count(requests: seq<Request>, p: Request -> bool): nat {
    if requests == [] then 0 else (if p(requests[0]) then 1 else 0) + Count(requests[1..], p)
  }

  lemma {:induction false} CountSnoc(requests: seq<Request>, req: Request, p: Request -> bool)
    ensures Count(requests + [req], p) == Count(requests, p) + if p(req) then 1 else 0
  {
    if requests == [] {
      assert requests + [req] == [req] && [req][1..] == [];
    } else {
      assert (requests + [req])[1..] == requests[1..] + [req];
      CountSnoc(requests[1..], req, p);
    }
  }

  lemma {:induction false} CountUpdate(requests: seq<Request>, r: nat, req: Request, p: Request -> bool)
    requires r < |requests|
    ensures Count(requests[r := req], p) + (if p(requests[r]) then 1 else 0)
         == Count(requests, p) + (if p(req) then 1 else 0)
  {
    if r > 0 {
      assert requests[r := req][1..] == requests[1..][r - 1 := req];
      CountUpdate(requests[1..], r - 1, req, p);
    }
  }

  lemma {:induction false} CountNone(requests: seq<Request>, p: Request -> bool)
    requires forall r :: 0 <= r < |requests| ==> !p(requests[r])
    ensures Count(requests, p) == 0
  {
    if requests != [] { CountNone(requests[1..], p); }
  }

  /** Outstanding at upstream `u`. */
  function HeldBy(n: nat, u: nat): Request -> bool {
    (q: Request) => n > 0 && q.tries > 0 && q.Outstanding() && q.At(n) == u
  }

  /** Answered by upstream `u`. */
  function AnsweredBy(n: nat, u: nat): Request -> bool {
    (q: Request) => n > 0 && q.tries > 0 && q.phase in {Relaying, Relayed} && q.At(n) == u
  }

  /** Refused by upstream `u`: everything it was sent to has refused it but the last, and
      the last one too if it was answered with 503. */
  function RefusedAt(n: nat, u: nat): Request -> bool {
    (q: Request) => n > 0 && exists i :: 0 <= i < Refusals(q) && Turn(n, q.start, i) == u
  }

  function Refusals(q: Request): int { if q.phase == Unavailable then q.tries else q.tries - 1 }

  // ----- the counters are accounts of the requests

  ghost predicate AccountOf(n: nat, sys: System, u: nat)
    requires Sane(n, sys) && u < n
  {
    && sys.rr.upstreams[u].inFlight == Count(sys.requests, HeldBy(n, u))
    && sys.rr.upstreams[u].requests == Count(sys.requests, AnsweredBy(n, u))
    && sys.rr.upstreams[u].connectFailures == Count(sys.requests, RefusedAt(n, u))
  }

  /** The account of `u` when request `r` becomes `req`: what has to have happened to the
      counters. */
  lemma Recount(n: nat, sys: System, u: nat, r: nat, req: Request)
    requires Sane(n, sys) && u < n && AccountOf(n, sys, u) && r < |sys.requests|
    ensures var old', new' := sys.requests[r], sys.requests[r := req];
      && Count(new', HeldBy(n, u)) == sys.rr.upstreams[u].inFlight
           + (if HeldBy(n, u)(req) then 1 else 0) - (if HeldBy(n, u)(old') then 1 else 0)
      && Count(new', AnsweredBy(n, u)) == sys.rr.upstreams[u].requests
           + (if AnsweredBy(n, u)(req) then 1 else 0) - (if AnsweredBy(n, u)(old') then 1 else 0)
      && Count(new', RefusedAt(n, u)) == sys.rr.upstreams[u].connectFailures
           + (if RefusedAt(n, u)(req) then 1 else 0) - (if RefusedAt(n, u)(old') then 1 else 0)
  {
    CountUpdate(sys.requests, r, req, HeldBy(n, u));
    CountUpdate(sys.requests, r, req, AnsweredBy(n, u));
    CountUpdate(sys.requests, r, req, RefusedAt(n, u));
  }

  lemma ArrivalAccount(n: nat, sys: System, generating: bool, u: nat)
    requires Sane(n, sys) && u < n && AccountOf(n, sys, u)
    ensures Sane(n, Arrived(n, sys, generating)) && AccountOf(n, Arrived(n, sys, generating), u)
  {
    var req := Request(generating, sys.rr.next, 1, Sending);
    CountSnoc(sys.requests, req, HeldBy(n, u));
    CountSnoc(sys.requests, req, AnsweredBy(n, u));
    CountSnoc(sys.requests, req, RefusedAt(n, u));
  }

  lemma AnswerAccount(n: nat, sys: System, r: nat, u: nat)
    requires Sane(n, sys) && u < n && AccountOf(n, sys, u) && Enabled(sys, Replied(r, Answered))
    ensures Sane(n, Step(n, sys, Replied(r, Answered))) && AccountOf(n, Step(n, sys, Replied(r, Answered)), u)
  {
    var req := sys.requests[r];
    Recount(n, sys, u, r, req.(phase := Relaying));
    assert Refusals(req.(phase := Relaying)) == Refusals(req);
  }

  lemma EndAccount(n: nat, sys: System, r: nat, phase: Phase, u: nat)
    requires Sane(n, sys) && u < n && AccountOf(n, sys, u) && r < |sys.requests|
    requires
      || (phase == Relayed && sys.requests[r].phase == Relaying)
      || (phase in {GatewayTimeout, BadGateway} && sys.requests[r].phase == Sending)
    ensures Sane(n, Ended(n, sys, r, phase)) && AccountOf(n, Ended(n, sys, r, phase), u)
  {
    var req := sys.requests[r];
    Recount(n, sys, u, r, req.(phase := phase));
    assert Refusals(req.(phase := phase)) == Refusals(req);
  }

  /** One refusal more. */
  lemma RefusedOnceMore(n: nat, q: Request, q': Request, u: nat)
    requires WellFormed(n, q) && q.phase == Sending && q'.start == q.start && Refusals(q') == q.tries
    ensures !RefusedAt(n, q.At(n))(q)
    ensures RefusedAt(n, u)(q') <==> RefusedAt(n, u)(q) || q.At(n) == u
  {
    forall i | 0 <= i < Refusals(q) ensures Turn(n, q.start, i) != q.At(n) {
      RotationIsComplete(n, q.start, i, q.tries - 1);
    }
    if q.At(n) == u { assert Turn(n, q'.start, q.tries - 1) == u; }
  }

  lemma RetryAccount(n: nat, sys: System, r: nat, u: nat)
    requires Sane(n, sys) && u < n && AccountOf(n, sys, u) && Enabled(sys, Replied(r, Refused))
    ensures Sane(n, Retried(n, sys, r)) && AccountOf(n, Retried(n, sys, r), u)
  {
    if sys.requests[r].tries == n {
      LastRefusalAccount(n, sys, r, u);
    } else {
      RefusalAccount(n, sys, r, u);
    }
  }

  lemma LastRefusalAccount(n: nat, sys: System, r: nat, u: nat)
    requires Sane(n, sys) && u < n && AccountOf(n, sys, u) && Enabled(sys, Replied(r, Refused))
    requires sys.requests[r].tries == n
    ensures Sane(n, Retried(n, sys, r)) && AccountOf(n, Retried(n, sys, r), u)
  {
    var q := sys.requests[r];
    var q' := q.(phase := Unavailable);
    Recount(n, sys, u, r, q');
    RefusedOnceMore(n, q, q', u);
  }

  lemma RefusalAccount(n: nat, sys: System, r: nat, u: nat)
    requires Sane(n, sys) && u < n && AccountOf(n, sys, u) && Enabled(sys, Replied(r, Refused))
    requires sys.requests[r].tries < n
    ensures Sane(n, Retried(n, sys, r)) && AccountOf(n, Retried(n, sys, r), u)
  {
    var q := sys.requests[r];
    var q' := q.(tries := q.tries + 1);
    Recount(n, sys, u, r, q');
    RefusedOnceMore(n, q, q', u);
    RotationIsComplete(n, q.start, q.tries, q.tries - 1);
  }

  lemma StepAccount(n: nat, sys: System, e: Event, u: nat)
    requires Sane(n, sys) && u < n && AccountOf(n, sys, u)
    ensures Sane(n, Step(n, sys, e)) && AccountOf(n, Step(n, sys, e), u)
  {
    if Enabled(sys, e) {
      match e {
        case Arrive(generating) => ArrivalAccount(n, sys, generating, u);
        case RelayEnds(r) => EndAccount(n, sys, r, Relayed, u);
        case Replied(r, reply) =>
          match reply {
            case Answered => AnswerAccount(n, sys, r, u);
            case Refused => RetryAccount(n, sys, r, u);
            case TimedOut => EndAccount(n, sys, r, GatewayTimeout, u);
            case Failed => EndAccount(n, sys, r, BadGateway, u);
          }
      }
    }
  }

  /** In every run, an upstream's `in_flight` is the number of its outstanding sends and
      relays, its `requests` the number of requests it answered and its `connect_failures`
      the number of requests it refused. */
  lemma {:induction false} CountersAreAccounts(n: nat, events: seq<Event>, u: nat)
    requires n > 0 && u < n
    ensures AccountOf(n, After(n, events), u)
  {
    if events != [] {
      CountersAreAccounts(n, events[..|events| - 1], u);
      StepAccount(n, After(n, events[..|events| - 1]), events[|events| - 1], u);
    }
  }

  /** Every slot is free again when nothing is outstanding. */
  lemma QuiescenceFreesEverySlot(n: nat, events: seq<Event>, u: nat)
    requires n > 0 && u < n
    requires forall r :: 0 <= r < |After(n, events).requests| ==> !After(n, events).requests[r].Outstanding()
    ensures After(n, events).rr.upstreams[u].inFlight == 0
  {
    CountersAreAccounts(n, events, u);
    CountNone(After(n, events).requests, HeldBy(n, u));
  }

  // ----- the peak

  function Outstanding(n: nat, sys: System, u: nat): nat { Count(sys.requests, HeldBy(n, u)) }

  /** The most requests `u` ever had outstanding, over all moments of the run. */
  function MostOutstanding(n: nat, events: seq<Event>, u: nat): nat
    requires n > 0
  {
    var now := Outstanding(n, After(n, events), u);
    if events == [] then now else Max(now, MostOutstanding(n, events[..|events| - 1], u))
  }

  lemma StepPeak(n: nat, sys: System, e: Event, u: nat)
    requires Sane(n, sys) && u < n && sys.rr.upstreams[u].inFlight <= sys.rr.upstreams[u].peak
    ensures Sane(n, Step(n, sys, e))
    ensures Step(n, sys, e).rr.upstreams[u].peak
         == Max(Step(n, sys, e).rr.upstreams[u].inFlight, sys.rr.upstreams[u].peak)
  {
    StepIsSane(n, sys, e);
    if Enabled(sys, e) && e.Replied? && e.reply == Refused {
      var q := sys.requests[e.r];
      if q.tries < n { RotationIsComplete(n, q.start, q.tries, q.tries - 1); }
    }
  }

  /** `peak_in_flight` is the true maximum. */
  lemma {:induction false} PeakIsTheMaximum(n: nat, events: seq<Event>, u: nat)
    requires n > 0 && u < n
    ensures After(n, events).rr.upstreams[u].peak == MostOutstanding(n, events, u)
  {
    CountersAreAccounts(n, events, u);
    if events != [] {
      var front := events[..|events| - 1];
      PeakIsTheMaximum(n, front, u);
      CountersAreAccounts(n, front, u);
      StepPeak(n, After(n, front), events[|events| - 1], u);
    }
  }

  // ----- busy while idle

  /** A generation sent to an upstream that has one outstanding while another has none. */
  ghost predicate Queues(n: nat, requests: seq<Request>, generating: bool, u: nat) {
    && generating
    && Count(requests, HeldBy(n, u)) > 0
    && exists v :: 0 <= v < n && v != u && Count(requests, HeldBy(n, v)) == 0
  }

  /** Whether an event sends such a request.  A refused request is no longer outstanding
      when it is sent on. */
  ghost predicate Qualifies(n: nat, sys: System, e: Event)
    requires Sane(n, sys)
  {
    && Enabled(sys, e)
    && match e
       case Arrive(generating) => Queues(n, sys.requests, generating, Turn(n, sys.rr.next, 0))
       case RelayEnds(_) => false
       case Replied(r, reply) =>
         var q := sys.requests[r];
         && reply == Refused && q.tries < n
         && Queues(n, sys.requests[r := q.(phase := Unavailable)], q.generating, Turn(n, q.start, q.tries))
  }

  ghost function QualifyingSends(n: nat, events: seq<Event>): nat
    requires n > 0
  {
    if events == [] then 0
    else
      var front := events[..|events| - 1];
      QualifyingSends(n, front) + if Qualifies(n, After(n, front), events[|events| - 1]) then 1 else 0
  }

  lemma AcquireQueues(n: nat, rr: Rotation, requests: seq<Request>, generating: bool, u: nat)
    requires |rr.upstreams| == n && u < n
    requires forall v :: 0 <= v < n ==> rr.upstreams[v].inFlight == Count(requests, HeldBy(n, v))
    ensures Acquired(rr, u, generating).busyWhileIdle
         == rr.busyWhileIdle + if Queues(n, requests, generating, u) then 1 else 0
  {
    if v :| 0 <= v < n && v != u && Count(requests, HeldBy(n, v)) == 0 {
      assert rr.upstreams[v].inFlight == 0;
    }
    if SomeOtherIdle(rr.upstreams, u) {
      var v :| 0 <= v < n && v != u && rr.upstreams[v].inFlight == 0;
      assert Count(requests, HeldBy(n, v)) == 0;
    }
  }

  lemma StepBusy(n: nat, sys: System, e: Event)
    requires Sane(n, sys) && forall u :: 0 <= u < n ==> AccountOf(n, sys, u)
    ensures Sane(n, Step(n, sys, e))
    ensures Step(n, sys, e).rr.busyWhileIdle == sys.rr.busyWhileIdle + if Qualifies(n, sys, e) then 1 else 0
  {
    StepIsSane(n, sys, e);
    if Enabled(sys, e) {
      if e.Arrive? {
        RotationIsComplete(n, sys.rr.next, 0, 0);
        forall v | 0 <= v < n ensures Advanced(sys.rr).upstreams[v].inFlight == Count(sys.requests, HeldBy(n, v)) {
          assert AccountOf(n, sys, v);
        }
        AcquireQueues(n, Advanced(sys.rr), sys.requests, e.generating, Turn(n, sys.rr.next, 0));
      } else if e.Replied? && e.reply == Refused {
        var q := sys.requests[e.r];
        var released := q.(phase := Unavailable);
        var rr := RefusedBy(Released(sys.rr, q.At(n)), q.At(n));
        if q.tries < n {
          forall v | 0 <= v < n ensures rr.upstreams[v].inFlight == Count(sys.requests[e.r := released], HeldBy(n, v)) {
            assert AccountOf(n, sys, v);
            CountUpdate(sys.requests, e.r, released, HeldBy(n, v));
          }
          RotationIsComplete(n, q.start, q.tries, q.tries);
          AcquireQueues(n, rr, sys.requests[e.r := released], q.generating, Turn(n, q.start, q.tries));
        }
      }
    }
  }

  /** `busy_while_idle` counts exactly the sends that had to queue needlessly. */
  lemma {:induction false} BusyWhileIdleCounts(n: nat, events: seq<Event>)
    requires n > 0
    ensures After(n, events).rr.busyWhileIdle == QualifyingSends(n, events)
  {
    if events != [] {
      var front := events[..|events| - 1];
      BusyWhileIdleCounts(n, front);
      forall u | 0 <= u < n ensures AccountOf(n, After(n, front), u) { CountersAreAccounts(n, front, u); }
      StepBusy(n, After(n, front), events[|events| - 1]);
    }
  }

  // ----- no request is run twice

  /** `now` has gone past connecting and is where `was` was. */
  predicate Settled(was: Request, now: Request) {
    !now.Connecting() && now.start == was.start && now.tries == was.tries
  }

  lemma StepKeepsSettled(n: nat, sys: System, e: Event, r: nat, was: Request)
    requires Sane(n, sys) && r < |sys.requests| && Settled(was, sys.requests[r])
    ensures r < |Step(n, sys, e).requests| && Settled(was, Step(n, sys, e).requests[r])
  {
  }

  lemma AfterSnoc(n: nat, events: seq<Event>, e: Event)
    requires n > 0
    ensures After(n, events + [e]) == Step(n, After(n, events), e)
  {
    assert (events + [e])[..|events|] == events;
  }

  /** Once a request has got past connecting, no later event sends it anywhere again. */
  lemma {:induction false} NeverSentTwice(n: nat, events: seq<Event>, later: seq<Event>, r: nat)
    requires n > 0 && r < |After(n, events).requests| && !After(n, events).requests[r].Connecting()
    ensures r < |After(n, events + later).requests|
    ensures Settled(After(n, events).requests[r], After(n, events + later).requests[r])
  {
    if later == [] {
      assert events + later == events;
    } else {
      var front, e := later[..|later| - 1], later[|later| - 1];
      NeverSentTwice(n, events, front, r);
      assert events + later == events + front + [e];
      AfterSnoc(n, events + front, e);
      StepKeepsSettled(n, After(n, events + front), e, r, After(n, events).requests[r]);
    }
  }

  // ----- refusals

  /** Event number `t` was upstream `u` refusing request `r`, which had been sent to it. */
  predicate Refusal(n: nat, events: seq<Event>, t: nat, r: nat, u: nat)
    requires n > 0
  {
    && t < |events| && events[t] == Replied(r, Refused)
    && var sys := After(n, events[..t]);
       Enabled(sys, events[t]) && sys.requests[r].At(n) == u
  }

  predicate HasRefused(n: nat, events: seq<Event>, r: nat, u: nat)
    requires n > 0
  {
    exists t :: 0 <= t < |events| && Refusal(n, events, t, r, u)
  }

  lemma RefusalSnoc(n: nat, events: seq<Event>, e: Event, t: nat, r: nat, u: nat)
    requires n > 0
    ensures t < |events| ==> (Refusal(n, events + [e], t, r, u) <==> Refusal(n, events, t, r, u))
    ensures Refusal(n, events + [e], |events|, r, u) <==>
      e == Replied(r, Refused) && Enabled(After(n, events), e) && After(n, events).requests[r].At(n) == u
  {
    if t < |events| { assert (events + [e])[..t] == events[..t]; }
    assert (events + [e])[..|events|] == events;
  }

  /** A step makes `u` a refuser of request `r` only by its refusal. */
  lemma StepRefuses(n: nat, sys: System, e: Event, r: nat, u: nat)
    requires Sane(n, sys) && r < |sys.requests|
    ensures r < |Step(n, sys, e).requests|
    ensures RefusedAt(n, u)(Step(n, sys, e).requests[r]) <==>
      || RefusedAt(n, u)(sys.requests[r])
      || (e == Replied(r, Refused) && Enabled(sys, e) && sys.requests[r].At(n) == u)
  {
    var q, q' := sys.requests[r], Step(n, sys, e).requests[r];
    if e == Replied(r, Refused) && Enabled(sys, e) {
      RefusedOnceMore(n, q, q', u);
    } else {
      assert q'.start == q.start && Refusals(q') == Refusals(q);
    }
  }

  lemma {:induction false} NoRefusalBeforeArrival(n: nat, events: seq<Event>, r: nat, u: nat)
    requires n > 0 && r >= |After(n, events).requests|
    ensures forall t :: 0 <= t < |events| ==> !Refusal(n, events, t, r, u)
  {
    if events != [] {
      var front, e := events[..|events| - 1], events[|events| - 1];
      assert events == front + [e];
      StepIsSane(n, After(n, front), e);
      NoRefusalBeforeArrival(n, front, r, u);
      forall t | 0 <= t < |events| ensures !Refusal(n, events, t, r, u) { RefusalSnoc(n, front, e, t, r, u); }
    }
  }

  lemma HasRefusedSnoc(n: nat, events: seq<Event>, e: Event, r: nat, u: nat)
    requires n > 0
    ensures HasRefused(n, events + [e], r, u) <==>
      || HasRefused(n, events, r, u)
      || (e == Replied(r, Refused) && Enabled(After(n, events), e) && After(n, events).requests[r].At(n) == u)
  {
    var longer := events + [e];
    forall t | 0 <= t < |events| ensures Refusal(n, longer, t, r, u) <==> Refusal(n, events, t, r, u) {
      RefusalSnoc(n, events, e, t, r, u);
    }
    RefusalSnoc(n, events, e, 0, r, u);
    if HasRefused(n, events, r, u) {
      var t :| 0 <= t < |events| && Refusal(n, events, t, r, u);
      assert Refusal(n, longer, t, r, u);
    }
  }

  /** What a request remembers is what happened: `u` counts as having refused it exactly if
      there was a moment at which it did. */
  lemma {:induction false} RefusedAtIff(n: nat, events: seq<Event>, r: nat, u: nat)
    requires n > 0 && r < |After(n, events).requests|
    ensures RefusedAt(n, u)(After(n, events).requests[r]) <==> HasRefused(n, events, r, u)
  {
    if events != [] {
      var front, e := events[..|events| - 1], events[|events| - 1];
      var before := After(n, front);
      assert events == front + [e];
      HasRefusedSnoc(n, front, e, r, u);
      if r < |before.requests| {
        RefusedAtIff(n, front, r, u);
        StepRefuses(n, before, e, r, u);
      } else {
        NoRefusalBeforeArrival(n, front, r, u);
      }
    }
  }

  /** A request is answered with 503 exactly when every upstream has refused it, each at a
      moment when the request had been sent to it. */
  lemma UnavailableIffAllRefused(n: nat, events: seq<Event>, r: nat)
    requires n > 0 && r < |After(n, events).requests|
    ensures After(n, events).requests[r].phase == Unavailable <==>
      forall u :: 0 <= u < n ==> HasRefused(n, events, r, u)
  {
    var q := After(n, events).requests[r];
    assert WellFormed(n, q);
    forall u | 0 <= u < n ensures HasRefused(n, events, r, u) <==> RefusedAt(n, u)(q) {
      RefusedAtIff(n, events, r, u);
    }
    if q.phase == Unavailable {
      forall u | 0 <= u < n ensures RefusedAt(n, u)(q) { RotationIsComplete(n, q.start, u, u); }
    } else {
      LastIsNoRefuser(n, q);
      assert !HasRefused(n, events, r, q.At(n));
    }
  }

  /** The upstream a request is at has not refused it, unless all have. */
  lemma LastIsNoRefuser(n: nat, q: Request)
    requires WellFormed(n, q) && q.phase != Unavailable
    ensures q.At(n) < n && !RefusedAt(n, q.At(n))(q)
  {
    RotationIsComplete(n, q.start, q.tries - 1, q.tries - 1);
    forall i | 0 <= i < Refusals(q) ensures Turn(n, q.start, i) != q.At(n) {
      RotationIsComplete(n, q.start, i, q.tries - 1);
    }
  }

  // ----- what a request is answered

  /** Event number `t` was this reply to request `r`, which was waiting for one. */
  predicate ReplyAt(n: nat, events: seq<Event>, t: nat, r: nat, reply: Reply)
    requires n > 0
  {
    t < |events| && events[t] == Replied(r, reply) && Enabled(After(n, events[..t]), events[t])
  }

  predicate Got(n: nat, events: seq<Event>, r: nat, reply: Reply)
    requires n > 0
  {
    exists t :: 0 <= t < |events| && ReplyAt(n, events, t, r, reply)
  }

  lemma GotSnoc(n: nat, events: seq<Event>, e: Event, r: nat, reply: Reply)
    requires n > 0
    ensures Got(n, events + [e], r, reply) <==>
      Got(n, events, r, reply) || (e == Replied(r, reply) && Enabled(After(n, events), e))
  {
    var longer := events + [e];
    forall t | 0 <= t < |events| ensures ReplyAt(n, longer, t, r, reply) <==> ReplyAt(n, events, t, r, reply) {
      assert longer[..t] == events[..t];
    }
    assert longer[..|events|] == events && longer[|events|] == e;
    if Got(n, events, r, reply) {
      var t :| 0 <= t < |events| && ReplyAt(n, events, t, r, reply);
      assert ReplyAt(n, longer, t, r, reply);
    }
    if e == Replied(r, reply) && Enabled(After(n, events), e) { assert ReplyAt(n, longer, |events|, r, reply); }
  }

  /** The phase that a reply that is no refusal brings about: the answer is relayed, a timeout
      is a 504, and any other failure a 502. */
  predicate PhaseTells(n: nat, events: seq<Event>, r: nat, phase: Phase)
    requires n > 0
  {
    && (phase in {Relaying, Relayed} <==> Got(n, events, r, Answered))
    && (phase == GatewayTimeout <==> Got(n, events, r, TimedOut))
    && (phase == BadGateway <==> Got(n, events, r, Failed))
  }

  lemma AllGotSnoc(n: nat, events: seq<Event>, e: Event, r: nat)
    requires n > 0
    ensures forall reply :: Got(n, events + [e], r, reply) <==>
      Got(n, events, r, reply) || (e == Replied(r, reply) && Enabled(After(n, events), e))
  {
    forall reply: Reply
      ensures Got(n, events + [e], r, reply) <==>
        Got(n, events, r, reply) || (e == Replied(r, reply) && Enabled(After(n, events), e))
    {
      GotSnoc(n, events, e, r, reply);
    }
  }

  lemma {:induction false} NothingGotBeforeArrival(n: nat, events: seq<Event>, r: nat, reply: Reply)
    requires n > 0 && r >= |After(n, events).requests|
    ensures !Got(n, events, r, reply)
  {
    if events != [] {
      var front, e := events[..|events| - 1], events[|events| - 1];
      assert events == front + [e];
      StepIsSane(n, After(n, front), e);
      NothingGotBeforeArrival(n, front, r, reply);
      GotSnoc(n, front, e, r, reply);
    }
  }

  lemma StepTells(n: nat, sys: System, e: Event, r: nat)
    requires Sane(n, sys) && r < |Step(n, sys, e).requests|
    ensures r >= |sys.requests| ==> Step(n, sys, e).requests[r].phase == Sending
    ensures r < |sys.requests| ==>
      var was, now := sys.requests[r].phase, Step(n, sys, e).requests[r].phase;
      if e == Replied(r, Answered) && Enabled(sys, e) then was == Sending && now == Relaying
      else if e == Replied(r, TimedOut) && Enabled(sys, e) then was == Sending && now == GatewayTimeout
      else if e == Replied(r, Failed) && Enabled(sys, e) then was == Sending && now == BadGateway
      else was == now || (was == Sending && now == Unavailable) || (was == Relaying && now == Relayed)
  {
  }

  /** What a request is answered is what its upstream came to in the run: relayed if and only if
      it was answered, 504 if it timed out and 502 if it failed otherwise. */
  lemma {:induction false} AnswersTellWhatHappened(n: nat, events: seq<Event>, r: nat)
    requires n > 0 && r < |After(n, events).requests|
    ensures PhaseTells(n, events, r, After(n, events).requests[r].phase)
  {
    if events != [] {
      var front, e := events[..|events| - 1], events[|events| - 1];
      var before := After(n, front);
      assert events == front + [e];
      AllGotSnoc(n, front, e, r);
      StepTells(n, before, e, r);
      if r < |before.requests| {
        AnswersTellWhatHappened(n, front, r);
      } else {
        NothingGotBeforeArrival(n, front, r, Answered);
        NothingGotBeforeArrival(n, front, r, TimedOut);
        NothingGotBeforeArrival(n, front, r, Failed);
      }
    }
  }

  // ----- fairness

  function StartsAt(u: nat): Request -> bool { (q: Request) => q.start == u }

  /** Only an arrival takes a first turn, the one whose turn it is. */
  lemma StepStarts(n: nat, sys: System, e: Event, u: nat)
    requires Sane(n, sys)
    ensures var next := Step(n, sys, e);
      && |next.requests| == |sys.requests| + (if e.Arrive? then 1 else 0)
      && next.rr.next == (if e.Arrive? then (sys.rr.next + 1) % n else sys.rr.next)
      && Count(next.requests, StartsAt(u))
           == Count(sys.requests, StartsAt(u)) + (if e.Arrive? && u == sys.rr.next then 1 else 0)
  {
    if Enabled(sys, e) {
      match e {
        case Arrive(generating) => CountSnoc(sys.requests, Request(generating, sys.rr.next, 1, Sending), StartsAt(u));
        case Replied(k, _) => SameStart(sys.requests, k, Step(n, sys, e).requests[k], u);
        case RelayEnds(k) => SameStart(sys.requests, k, Step(n, sys, e).requests[k], u);
      }
    }
  }

  lemma {:induction false} StartsAreRoundRobin(n: nat, events: seq<Event>, u: nat) returns (q: nat, r: nat)
    requires n > 0 && u < n
    ensures |After(n, events).requests| == q * n + r && r < n && After(n, events).rr.next == r
    ensures Count(After(n, events).requests, StartsAt(u)) == q + if u < r then 1 else 0
  {
    if events == [] { return 0, 0; }
    var front, e := events[..|events| - 1], events[|events| - 1];
    assert events == front + [e];
    q, r := StartsAreRoundRobin(n, front, u);
    AfterSnoc(n, front, e);
    StepStarts(n, After(n, front), e, u);
    if e.Arrive? {
      NextTurn(n, r);
      q, r := OneTurnMore(|After(n, front).requests|, n, q, r);
    }
  }

  lemma OneTurnMore(m: nat, n: nat, q: nat, r: nat) returns (q': nat, r': nat)
    requires m == q * n + r && r < n
    ensures m + 1 == q' * n + r' && r' < n
    ensures if r + 1 == n then q' == q + 1 && r' == 0 else q' == q && r' == r + 1
  {
    OneMore(q, n);
    if r + 1 == n { q', r' := q + 1, 0; } else { q', r' := q, r + 1; }
  }

  lemma NextTurn(n: nat, r: nat)
    requires r < n
    ensures (r + 1) % n == if r + 1 == n then 0 else r + 1
  {
    if r + 1 == n { DivisionIs(n, n, 1, 0); } else { DivisionIs(r + 1, n, 0, r + 1); }
  }

  lemma SameStart(requests: seq<Request>, k: nat, req: Request, u: nat)
    requires k < |requests| && req.start == requests[k].start
    ensures Count(requests[k := req], StartsAt(u)) == Count(requests, StartsAt(u))
  {
    CountUpdate(requests, k, req, StartsAt(u));
  }

  lemma DivisionIs(m: nat, n: nat, q: nat, r: nat)
    requires n > 0 && m == q * n + r && r < n
    ensures m / n == q && m % n == r
  {
    var p := m / n;
    assert m == p * n + m % n;
    Multiples(p, q, n);
    Multiples(q, p, n);
  }

  lemma {:induction false} Multiples(a: nat, b: nat, n: nat)
    ensures a < b ==> a * n + n <= b * n
    decreases b
  {
    if a < b {
      OneMore(b - 1, n);
      Multiples(a, b - 1, n);
    }
  }

  /** After m requests each upstream has had the first turn floor(m/n) or ceil(m/n) times,
      whatever failed. */
  lemma FirstTurnsAreFair(n: nat, events: seq<Event>, u: nat)
    requires n > 0 && u < n
    ensures var m := |After(n, events).requests|;
      Count(After(n, events).requests, StartsAt(u)) == m / n + if u < m % n then 1 else 0
  {
    var q, r := StartsAreRoundRobin(n, events, u);
    DivisionIs(|After(n, events).requests|, n, q, r);
  }
}
