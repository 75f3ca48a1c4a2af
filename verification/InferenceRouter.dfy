/** inference_router/app.py: round-robin over replicas, with requests that interleave at
    every await.

    A request is outstanding from the moment it is sent until its reply has been relayed or
    it has failed.  The model has one event per await and covers the outcomes the code
    names: an answer, a refused connection, a timeout, another request error, and the end of
    a relay.  An upstream is its position in the list. */
module InferenceRouter {
  import opened Seqs

  datatype Upstream = Upstream(requests: nat, inFlight: int, peak: int, connectFailures: nat)

  datatype Rotation = Rotation(upstreams: seq<Upstream>, next: nat, busyWhileIdle: nat)

  /** The upstream a request that starts at `start` tries in its attempt number `i`. */
  function Turn(n: nat, start: nat, i: nat): nat
    requires n > 0
  {
    (start + i) % n
  }

  function Advanced(rr: Rotation): Rotation
    requires rr.upstreams != []
  {
    rr.(next := (rr.next + 1) % |rr.upstreams|)
  }

  predicate SomeOtherIdle(upstreams: seq<Upstream>, u: nat) {
    exists v :: 0 <= v < |upstreams| && v != u && upstreams[v].inFlight == 0
  }

  function Max(a: int, b: int): int { if a < b then b else a }

  function Acquired(rr: Rotation, u: nat, generating: bool): Rotation
    requires u < |rr.upstreams|
  {
    var up := rr.upstreams[u];
    var queued := generating && up.inFlight != 0 && SomeOtherIdle(rr.upstreams, u);
    rr.(busyWhileIdle := rr.busyWhileIdle + if queued then 1 else 0,
        upstreams := rr.upstreams[u := up.(inFlight := up.inFlight + 1, peak := Max(up.peak, up.inFlight + 1))])
  }

  function Released(rr: Rotation, u: nat): Rotation
    requires u < |rr.upstreams|
  {
    rr.(upstreams := rr.upstreams[u := rr.upstreams[u].(inFlight := rr.upstreams[u].inFlight - 1)])
  }

  function Served(rr: Rotation, u: nat): Rotation
    requires u < |rr.upstreams|
  {
    rr.(upstreams := rr.upstreams[u := rr.upstreams[u].(requests := rr.upstreams[u].requests + 1)])
  }

  function RefusedBy(rr: Rotation, u: nat): Rotation
    requires u < |rr.upstreams|
  {
    rr.(upstreams := rr.upstreams[u := rr.upstreams[u].(connectFailures := rr.upstreams[u].connectFailures + 1)])
  }

  function Idle(n: nat): Rotation {
    Rotation(seq(n, i => Upstream(0, 0, 0, 0)), 0, 0)
  }

  /** The counters of the program, changed in place. */
  class RoundRobin {
    var upstreams: seq<Upstream>
    var next: nat
    var busyWhileIdle: nat

    function View(): Rotation
      reads this
    {
      Rotation(upstreams, next, busyWhileIdle)
    }

    predicate Valid()
      reads this
    {
      upstreams != [] && next < |upstreams|
    }

    constructor (n: nat)
      requires n > 0
      ensures Valid() && View() == Idle(n)
    {
      upstreams := seq(n, i => Upstream(0, 0, 0, 0));
      next, busyWhileIdle := 0, 0;
    }

    /** No upstreams is an error. */
    static method Create(n: nat) returns (rr: RoundRobin?)
      ensures rr == null <==> n == 0
      ensures rr != null ==> fresh(rr) && rr.Valid() && rr.View() == Idle(n)
    {
      if n == 0 { return null; }
      rr := new RoundRobin(n);
    }

    /** This request's rotation; the next start moves once a request, not once an attempt. */
    method Order() returns (order: seq<nat>)
      requires Valid()
      modifies this`next
      ensures Valid() && View() == Advanced(old(View()))
      ensures |order| == |upstreams| && forall i :: 0 <= i < |order| ==> order[i] == Turn(|upstreams|, old(next), i)
    {
      var n, start := |upstreams|, next;
      next := (start + 1) % n;
      order := seq(n, i requires 0 <= i => (start + i) % n);
    }

    method Acquire(u: nat, generating: bool)
      requires Valid() && u < |upstreams|
      modifies this`upstreams, this`busyWhileIdle
      ensures Valid() && View() == Acquired(old(View()), u, generating)
    {
      var up := upstreams[u];
      if generating && up.inFlight != 0 && SomeOtherIdle(upstreams, u) {
        busyWhileIdle := busyWhileIdle + 1;
      }
      up := up.(inFlight := up.inFlight + 1);
      up := up.(peak := Max(up.peak, up.inFlight));
      upstreams := upstreams[u := up];
    }

    method Release(u: nat)
      requires Valid() && u < |upstreams|
      modifies this`upstreams
      ensures Valid() && View() == Released(old(View()), u)
    {
      upstreams := upstreams[u := upstreams[u].(inFlight := upstreams[u].inFlight - 1)];
    }
  }

  // ----- requests in progress

  datatype Phase = Sending | Relaying | Relayed | GatewayTimeout | BadGateway | Unavailable

  /** A request that has been sent to its first `tries` upstreams, in the order of its
      rotation; all of them but the last have refused it. */
  datatype Request = Request(generating: bool, start: nat, tries: nat, phase: Phase) {
    function At(n: nat): nat
      requires n > 0 && tries > 0
    {
      Turn(n, start, tries - 1)
    }

    /** Still trying to connect. */
    predicate Connecting() { phase == Sending }

    predicate Outstanding() { phase == Sending || phase == Relaying }
  }

  datatype System = System(rr: Rotation, requests: seq<Request>)

  datatype Reply = Answered | Refused | TimedOut | Failed

  datatype Event = Arrive(generating: bool) | Replied(r: nat, reply: Reply) | RelayEnds(r: nat)

  predicate WellFormed(n: nat, r: Request) {
    && n > 0 && r.start < n && 1 <= r.tries <= n
    && (r.phase == Unavailable ==> r.tries == n)
  }

  /** Events that cannot happen change nothing. */
  predicate Enabled(sys: System, e: Event) {
    match e
    case Arrive(_) => true
    case Replied(r, _) => r < |sys.requests| && sys.requests[r].phase == Sending
    case RelayEnds(r) => r < |sys.requests| && sys.requests[r].phase == Relaying
  }

  predicate Sane(n: nat, sys: System) {
    && n > 0 && |sys.rr.upstreams| == n && sys.rr.next < n
    && forall r :: 0 <= r < |sys.requests| ==> WellFormed(n, sys.requests[r])
  }

  function Arrived(n: nat, sys: System, generating: bool): System
    requires Sane(n, sys)
  {
    System(Acquired(Advanced(sys.rr), Turn(n, sys.rr.next, 0), generating),
           sys.requests + [Request(generating, sys.rr.next, 1, Sending)])
  }

  /** A refused request is released, counted and, without an await in between, sent to the
      next upstream of its rotation; after the last one it is answered with 503. */
  function Retried(n: nat, sys: System, r: nat): System
    requires Sane(n, sys) && r < |sys.requests|
  {
    var req := sys.requests[r];
    var rr := RefusedBy(Released(sys.rr, req.At(n)), req.At(n));
    if req.tries == n then System(rr, sys.requests[r := req.(phase := Unavailable)])
    else System(Acquired(rr, Turn(n, req.start, req.tries), req.generating),
                sys.requests[r := req.(tries := req.tries + 1)])
  }

  function Ended(n: nat, sys: System, r: nat, phase: Phase): System
    requires Sane(n, sys) && r < |sys.requests|
  {
    System(Released(sys.rr, sys.requests[r].At(n)), sys.requests[r := sys.requests[r].(phase := phase)])
  }

  function Step(n: nat, sys: System, e: Event): System
    requires Sane(n, sys)
  {
    if !Enabled(sys, e) then sys
    else match e
      case Arrive(generating) => Arrived(n, sys, generating)
      case RelayEnds(r) => Ended(n, sys, r, Relayed)
      case Replied(r, reply) =>
        match reply
        case Answered =>
          System(Served(sys.rr, sys.requests[r].At(n)), sys.requests[r := sys.requests[r].(phase := Relaying)])
        case Refused => Retried(n, sys, r)
        case TimedOut => Ended(n, sys, r, GatewayTimeout)
        case Failed => Ended(n, sys, r, BadGateway)
  }

  lemma StepIsSane(n: nat, sys: System, e: Event)
    requires Sane(n, sys)
    ensures Sane(n, Step(n, sys, e))
    ensures |Step(n, sys, e).requests| == |sys.requests| + if e.Arrive? then 1 else 0
  {
  }

  /** The system after a run of events, whatever order they come in. */
  function After(n: nat, events: seq<Event>): (sys: System)
    requires n > 0
    ensures Sane(n, sys)
  {
    if events == [] then System(Idle(n), [])
    else
      var before := After(n, events[..|events| - 1]);
      var e := events[|events| - 1];
      StepIsSane(n, before, e);
      Step(n, before, e)
  }
}
