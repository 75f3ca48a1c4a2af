/** api/routes.py: read, think, write.  An ask holds a database connection for two short
    bursts and none while the model runs; the write re-reads the conversation, commits both
    messages at once and is retried when the pool is exhausted.

    The model has one event per await.  The pool answers a request for a connection with one
    if any is free and with exhaustion if not (waiting is the event not having come yet).
    Commit gives the connection back; the refreshes after it need one again.  A commit into
    a conversation deleted since the re-read fails on its foreign key. */
module TurnStorage {
  import opened Seqs

  datatype Role = User | Assistant

  /** A stored message; `ask` is the ask that wrote it, or none for a message posted by
      itself. */
  datatype Message = Message(role: Role, ask: Option<nat>)

  datatype Conversation = Conversation(owner: nat, messages: seq<Message>)

  datatype End = Returned | NotFound | Busy | Lost | Failed

  datatype Phase =
    | Start                     // wants a connection to read with
    | Reading
    | Thinking
    | Waiting                   // wants a connection to write with
    | Checking                  // about to re-read the conversation
    | Writing                   // about to commit
    | Committed                 // wants a connection to refresh with
    | Refreshing
    | Done(end: End)

  /** `attempt` counts from 1, `copies` the commits, `late` the exhaustions that struck after
      a commit. */
  datatype Ask = Ask(user: nat, conversation: nat, phase: Phase, attempt: nat, copies: nat, late: nat) {
    predicate Holds() { phase in {Reading, Checking, Writing, Refreshing} }
  }

  datatype System = System(capacity: nat, attempts: nat, db: map<nat, Conversation>, ids: set<nat>,
                           held: int, others: nat, asks: seq<Ask>)

  datatype Event =
    | NewAsk(user: nat, conversation: nat)
    | Advance(a: nat, runSucceeds: bool)
    | Create(id: nat, owner: nat)
    | Delete(id: nat)
    | Transfer(id: nat, owner: nat)
    | Post(id: nat, role: Role)
    | OthersTake
    | OthersGive

  function Opened(capacity: nat, attempts: nat): System {
    System(capacity, attempts, map[], {}, 0, 0, [])
  }

  predicate Free(sys: System) { sys.held < sys.capacity }

  predicate Owned(sys: System, ask: Ask) {
    ask.conversation in sys.db && sys.db[ask.conversation].owner == ask.user
  }

  function Turn(a: nat): seq<Message> { [Message(User, Some(a)), Message(Assistant, Some(a))] }

  function Appended(db: map<nat, Conversation>, id: nat, messages: seq<Message>): map<nat, Conversation> {
    if id in db then db[id := db[id].(messages := db[id].messages + messages)] else db
  }

  /** No connection for attempt `attempt`: back off, or give up after the last one. */
  function Exhausted(ask: Ask, attempts: nat): Ask {
    if ask.attempt >= attempts then ask.(phase := Done(Lost)) else ask.(phase := Waiting, attempt := ask.attempt + 1)
  }

  /** The ask's next step: itself, the change in held connections, and the database. */
  function Stepped(sys: System, a: nat, runSucceeds: bool): (r: (Ask, int, map<nat, Conversation>))
    requires a < |sys.asks|
  {
    var ask := sys.asks[a];
    match ask.phase
    case Start => if Free(sys) then (ask.(phase := Reading), 1, sys.db) else (ask.(phase := Done(Busy)), 0, sys.db)
    case Reading => (ask.(phase := if Owned(sys, ask) then Thinking else Done(NotFound)), -1, sys.db)
    case Thinking =>
      (if runSucceeds then ask.(phase := Waiting, attempt := 1) else ask.(phase := Done(Failed)), 0, sys.db)
    case Waiting =>
      if Free(sys) then (ask.(phase := Checking), 1, sys.db) else (Exhausted(ask, sys.attempts), 0, sys.db)
    case Checking =>
      if Owned(sys, ask) then (ask.(phase := Writing), 0, sys.db) else (ask.(phase := Done(NotFound)), -1, sys.db)
    case Writing =>
      if ask.conversation in sys.db
      then (ask.(phase := Committed, copies := ask.copies + 1), -1, Appended(sys.db, ask.conversation, Turn(a)))
      else (ask.(phase := Done(Failed)), -1, sys.db)
    case Committed =>
      if Free(sys) then (ask.(phase := Refreshing), 1, sys.db)
      else (Exhausted(ask, sys.attempts).(late := ask.late + 1), 0, sys.db)
    case Refreshing =>
      (ask.(phase := Done(if ask.conversation in sys.db then Returned else Failed)), -1, sys.db)
    case Done(_) => (ask, 0, sys.db)
  }

  function Step(sys: System, e: Event): System {
    match e
    case NewAsk(user, conversation) => sys.(asks := sys.asks + [Ask(user, conversation, Start, 0, 0, 0)])
    case Advance(a, runSucceeds) =>
      if a >= |sys.asks| then sys
      else
        var (ask, change, db) := Stepped(sys, a, runSucceeds);
        sys.(asks := sys.asks[a := ask], held := sys.held + change, db := db)
    case Create(id, owner) =>
      if id in sys.ids then sys else sys.(db := sys.db[id := Conversation(owner, [])], ids := sys.ids + {id})
    case Delete(id) => sys.(db := sys.db - {id})
    case Transfer(id, owner) => if id in sys.db then sys.(db := sys.db[id := sys.db[id].(owner := owner)]) else sys
    case Post(id, role) => sys.(db := Appended(sys.db, id, [Message(role, None)]))
    case OthersTake => if Free(sys) then sys.(held := sys.held + 1, others := sys.others + 1) else sys
    case OthersGive => if sys.others > 0 then sys.(held := sys.held - 1, others := sys.others - 1) else sys
  }

  function After(capacity: nat, attempts: nat, events: seq<Event>): System {
    if events == [] then Opened(capacity, attempts)
    else Step(After(capacity, attempts, events[..|events| - 1]), events[|events| - 1])
  }

  // ----- connections

  function Holders(asks: seq<Ask>): nat {
    if asks == [] then 0 else (if asks[0].Holds() then 1 else 0) + Holders(asks[1..])
  }

  lemma {:induction false} HoldersUpdate(asks: seq<Ask>, a: nat, ask: Ask)
    requires a < |asks|
    ensures Holders(asks[a := ask]) + (if asks[a].Holds() then 1 else 0)
         == Holders(asks) + (if ask.Holds() then 1 else 0)
  {
    if a > 0 {
      assert asks[a := ask][1..] == asks[1..][a - 1 := ask];
      HoldersUpdate(asks[1..], a - 1, ask);
    }
  }

  lemma {:induction false} HoldersSnoc(asks: seq<Ask>, ask: Ask)
    ensures Holders(asks + [ask]) == Holders(asks) + if ask.Holds() then 1 else 0
  {
    if asks == [] {
      assert asks + [ask] == [ask] && [ask][1..] == [];
    } else {
      assert (asks + [ask])[1..] == asks[1..] + [ask];
      HoldersSnoc(asks[1..], ask);
    }
  }

  predicate PoolIsSound(sys: System) {
    sys.held == sys.others + Holders(sys.asks) && sys.held <= sys.capacity
  }

  lemma AdvanceKeepsPool(sys: System, a: nat, runSucceeds: bool)
    requires PoolIsSound(sys) && a < |sys.asks|
    ensures PoolIsSound(Step(sys, Advance(a, runSucceeds)))
  {
    HoldersUpdate(sys.asks, a, Stepped(sys, a, runSucceeds).0);
  }

  lemma StepKeepsPool(sys: System, e: Event)
    requires PoolIsSound(sys)
    ensures PoolIsSound(Step(sys, e))
  {
    match e {
      case NewAsk(user, conversation) => HoldersSnoc(sys.asks, Ask(user, conversation, Start, 0, 0, 0));
      case Advance(a, runSucceeds) =>
        if a < |sys.asks| { AdvanceKeepsPool(sys, a, runSucceeds); }
      case Create(_, _) =>
      case Delete(_) =>
      case Transfer(_, _) =>
      case Post(_, _) =>
      case OthersTake =>
      case OthersGive =>
    }
  }

  /** In every run the held connections are those of the asks that are reading, checking,
      writing or refreshing and of other handlers, never more than the pool has: an ask that
      is thinking holds none. */
  lemma {:induction false} HeldConnections(capacity: nat, attempts: nat, events: seq<Event>)
    ensures PoolIsSound(After(capacity, attempts, events))
  {
    if events != [] {
      HeldConnections(capacity, attempts, events[..|events| - 1]);
      StepKeepsPool(After(capacity, attempts, events[..|events| - 1]), events[|events| - 1]);
    }
  }

  // ----- how often a turn is stored

  /** Each attempt stores the turn at most once, and once more only after an exhaustion that
      struck behind a commit. */
  predicate CopiesAreSound(attempts: nat, ask: Ask) {
    match ask.phase
    case Start => ask.attempt == ask.copies == ask.late == 0
    case Reading => ask.attempt == ask.copies == ask.late == 0
    case Thinking => ask.attempt == ask.copies == ask.late == 0
    case Waiting => ask.copies == ask.late < ask.attempt <= attempts
    case Checking => ask.copies == ask.late < ask.attempt <= attempts
    case Writing => ask.copies == ask.late < ask.attempt <= attempts
    case Committed => ask.copies == ask.late + 1 <= ask.attempt <= attempts
    case Refreshing => ask.copies == ask.late + 1 <= ask.attempt <= attempts
    case Done(end) =>
      && ask.copies <= attempts && ask.attempt <= attempts
      && (ask.attempt == 0 ==> ask.copies == ask.late == 0)
      && (end == Returned ==> ask.copies == ask.late + 1)
      && (end in {Busy} ==> ask.copies == 0)
      && (end in {Lost, NotFound} ==> ask.copies == ask.late)
  }

  lemma StepKeepsCopies(sys: System, a: nat, runSucceeds: bool)
    requires sys.attempts > 0 && a < |sys.asks| && CopiesAreSound(sys.attempts, sys.asks[a])
    ensures CopiesAreSound(sys.attempts, Stepped(sys, a, runSucceeds).0)
  {
  }

  lemma {:induction false} EveryAskIsSound(capacity: nat, attempts: nat, events: seq<Event>, a: nat)
    requires attempts > 0 && a < |After(capacity, attempts, events).asks|
    ensures After(capacity, attempts, events).attempts == attempts
    ensures CopiesAreSound(attempts, After(capacity, attempts, events).asks[a])
  {
    AttemptsStay(capacity, attempts, events);
    if events != [] {
      var front, e := events[..|events| - 1], events[|events| - 1];
      var before := After(capacity, attempts, front);
      AttemptsStay(capacity, attempts, front);
      if a < |before.asks| {
        EveryAskIsSound(capacity, attempts, front, a);
        if e.Advance? && e.a == a { StepKeepsCopies(before, a, e.runSucceeds); }
      }
    }
  }

  lemma {:induction false} AttemptsStay(capacity: nat, attempts: nat, events: seq<Event>)
    ensures After(capacity, attempts, events).attempts == attempts
  {
    if events != [] { AttemptsStay(capacity, attempts, events[..|events| - 1]); }
  }

  predicate StepsAsk(e: Event, a: nat) { e.Advance? && e.a == a }

  /** Only its own steps change an ask. */
  lemma AskAfter(sys: System, e: Event, a: nat)
    requires a < |Step(sys, e).asks|
    ensures a >= |sys.asks| ==>
      var ask := Step(sys, e).asks[a];
      ask.phase == Start && ask.attempt == ask.copies == ask.late == 0
    ensures a < |sys.asks| ==>
      Step(sys, e).asks[a] == if StepsAsk(e, a) then Stepped(sys, a, e.runSucceeds).0 else sys.asks[a]
  {
  }

  lemma AfterFront(capacity: nat, attempts: nat, events: seq<Event>, e: Event, t: nat)
    requires t <= |events|
    ensures (events + [e])[..t] == events[..t]
    ensures After(capacity, attempts, events + [e]) == Step(After(capacity, attempts, events), e)
  {
    assert (events + [e])[..|events|] == events;
  }

  /** Event number `t` was the ask's own step after its commit, and no connection was free. */
  predicate LateAt(capacity: nat, attempts: nat, events: seq<Event>, a: nat, t: nat) {
    && t < |events| && StepsAsk(events[t], a)
    && var sys := After(capacity, attempts, events[..t]);
       a < |sys.asks| && sys.asks[a].phase == Committed && !Free(sys)
  }

  /** An exhaustion struck the ask after a commit of its own. */
  predicate StruckLate(capacity: nat, attempts: nat, events: seq<Event>, a: nat) {
    exists t :: 0 <= t < |events| && LateAt(capacity, attempts, events, a, t)
  }

  lemma StruckLateSnoc(capacity: nat, attempts: nat, events: seq<Event>, e: Event, a: nat)
    ensures StruckLate(capacity, attempts, events + [e], a)
       <==> || StruckLate(capacity, attempts, events, a)
            || LateAt(capacity, attempts, events + [e], a, |events|)
  {
    var longer := events + [e];
    forall t | 0 <= t < |events|
      ensures LateAt(capacity, attempts, longer, a, t) <==> LateAt(capacity, attempts, events, a, t)
    {
      AfterFront(capacity, attempts, events, e, t);
    }
    if StruckLate(capacity, attempts, events, a) {
      var t :| 0 <= t < |events| && LateAt(capacity, attempts, events, a, t);
      assert LateAt(capacity, attempts, longer, a, t);
    }
  }

  lemma LateStep(sys: System, a: nat, runSucceeds: bool)
    requires a < |sys.asks|
    ensures var was, now := sys.asks[a], Stepped(sys, a, runSucceeds).0;
      now.late == was.late + if was.phase == Committed && !Free(sys) then 1 else 0
  {
  }

  /** The ask's own count of late exhaustions is right. */
  lemma {:induction false} LateIff(capacity: nat, attempts: nat, events: seq<Event>, a: nat)
    requires a < |After(capacity, attempts, events).asks|
    ensures After(capacity, attempts, events).asks[a].late > 0 <==> StruckLate(capacity, attempts, events, a)
  {
    if events != [] {
      var front, e := events[..|events| - 1], events[|events| - 1];
      var before := After(capacity, attempts, front);
      assert events == front + [e];
      AfterFront(capacity, attempts, front, e, |front|);
      StruckLateSnoc(capacity, attempts, front, e, a);
      AskAfter(before, e, a);
      if a < |before.asks| {
        LateIff(capacity, attempts, front, a);
        if StepsAsk(e, a) { LateStep(before, a, e.runSucceeds); }
      } else {
        NeverLateBefore(capacity, attempts, front, a);
      }
    }
  }

  lemma {:induction false} NeverLateBefore(capacity: nat, attempts: nat, events: seq<Event>, a: nat)
    requires a >= |After(capacity, attempts, events).asks|
    ensures !StruckLate(capacity, attempts, events, a)
  {
    if events != [] {
      var front, e := events[..|events| - 1], events[|events| - 1];
      assert events == front + [e];
      AfterFront(capacity, attempts, front, e, |front|);
      NeverLateBefore(capacity, attempts, front, a);
      StruckLateSnoc(capacity, attempts, front, e, a);
    }
  }

  /** A write that returns has stored the turn exactly once if and only if no exhaustion
      struck after a commit of it; and no ask ever stores more than `attempts` copies. */
  lemma StoredOnceIff(capacity: nat, attempts: nat, events: seq<Event>, a: nat)
    requires attempts > 0 && a < |After(capacity, attempts, events).asks|
    ensures var ask := After(capacity, attempts, events).asks[a];
      && ask.copies <= attempts
      && (ask.phase == Done(Returned) ==>
            ask.copies >= 1 && (ask.copies == 1 <==> !StruckLate(capacity, attempts, events, a)))
  {
    EveryAskIsSound(capacity, attempts, events, a);
    LateIff(capacity, attempts, events, a);
  }

  // ----- both messages or neither

  /** The messages that ask `a` has in a conversation, in order. */
  function Mine(messages: seq<Message>, a: nat): seq<Message> {
    if messages == [] then []
    else (if messages[0].ask == Some(a) then [messages[0]] else []) + Mine(messages[1..], a)
  }

  /** `n` whole turns of one ask. */
  function Turns(a: nat, n: nat): seq<Message> {
    if n == 0 then [] else Turns(a, n - 1) + Turn(a)
  }

  lemma {:induction false} MineOfConcat(x: seq<Message>, y: seq<Message>, a: nat)
    ensures Mine(x + y, a) == Mine(x, a) + Mine(y, a)
  {
    if x == [] {
      assert x + y == y;
    } else {
      assert (x + y)[1..] == x[1..] + y;
      MineOfConcat(x[1..], y, a);
      Assoc(if x[0].ask == Some(a) then [x[0]] else [], Mine(x[1..], a), Mine(y, a));
    }
  }

  lemma MineOfOne(m: Message, a: nat)
    ensures Mine([m], a) == if m.ask == Some(a) then [m] else []
  {
    assert [m][1..] == [];
  }

  lemma MineOfTurn(a: nat, b: nat)
    ensures Mine(Turn(b), a) == if a == b then Turn(a) else []
  {
    var question, answer := Message(User, Some(b)), Message(Assistant, Some(b));
    assert Turn(b) == [question] + [answer];
    MineOfConcat([question], [answer], a);
    MineOfOne(question, a);
    MineOfOne(answer, a);
  }

  /** Conversation `id` holds as many whole turns of ask `a` as the ask has committed, and
      nothing of an ask that belongs elsewhere or has not come yet. */
  predicate TurnsAreWhole(sys: System, a: nat, id: nat) {
    && (id in sys.db ==> id in sys.ids)
    && (id !in sys.ids && a < |sys.asks| && sys.asks[a].conversation == id ==> sys.asks[a].copies == 0)
    && (id in sys.db ==>
          Mine(sys.db[id].messages, a)
          == if a < |sys.asks| && sys.asks[a].conversation == id then Turns(a, sys.asks[a].copies) else [])
  }

  lemma AdvanceKeepsTurns(sys: System, b: nat, runSucceeds: bool, a: nat, id: nat)
    requires TurnsAreWhole(sys, a, id) && b < |sys.asks|
    ensures TurnsAreWhole(Step(sys, Advance(b, runSucceeds)), a, id)
  {
    if sys.asks[b].phase == Writing && sys.asks[b].conversation == id && id in sys.db {
      MineOfConcat(sys.db[id].messages, Turn(b), a);
      MineOfTurn(a, b);
    }
  }

  lemma StepKeepsTurns(sys: System, e: Event, a: nat, id: nat)
    requires TurnsAreWhole(sys, a, id)
    ensures TurnsAreWhole(Step(sys, e), a, id)
  {
    match e {
      case Advance(b, runSucceeds) => if b < |sys.asks| { AdvanceKeepsTurns(sys, b, runSucceeds, a, id); }
      case Post(there, role) =>
        if there == id && id in sys.db {
          MineOfConcat(sys.db[id].messages, [Message(role, None)], a);
          MineOfOne(Message(role, None), a);
        }
      case NewAsk(_, _) =>
      case Create(_, _) =>
      case Delete(_) =>
      case Transfer(_, _) =>
      case OthersTake =>
      case OthersGive =>
    }
  }

  /** In every interleaving the two messages of a turn are in the conversation together or
      not at all: question, answer, once for every commit of the ask, and nowhere else. */
  lemma {:induction false} BothMessagesOrNeither(capacity: nat, attempts: nat, events: seq<Event>, a: nat, id: nat)
    ensures TurnsAreWhole(After(capacity, attempts, events), a, id)
  {
    if events != [] {
      BothMessagesOrNeither(capacity, attempts, events[..|events| - 1], a, id);
      StepKeepsTurns(After(capacity, attempts, events[..|events| - 1]), events[|events| - 1], a, id);
    }
  }

  lemma {:induction false} TurnsWrittenOut(a: nat, n: nat)
    ensures |Turns(a, n)| == 2 * n
    ensures forall k :: 0 <= k < n ==> IsTurnAt(Turns(a, n), a, k)
  {
    if n > 0 {
      TurnsWrittenOut(a, n - 1);
      forall k | 0 <= k < n ensures IsTurnAt(Turns(a, n), a, k) {
        if k < n - 1 { assert IsTurnAt(Turns(a, n - 1), a, k); }
      }
    }
  }

  /** Message 2k is the question of ask `a`, and behind it is the answer. */
  predicate IsTurnAt(messages: seq<Message>, a: nat, k: nat) {
    && 2 * k + 1 < |messages|
    && messages[2 * k] == Message(User, Some(a))
    && messages[2 * k + 1] == Message(Assistant, Some(a))
  }

  /** Written out: of its own conversation, while it is there, an ask has two messages for
      each commit, question and answer by turns, and of any other it has none. */
  lemma QuestionAndAnswerByTurns(capacity: nat, attempts: nat, events: seq<Event>, a: nat, id: nat)
    requires id in After(capacity, attempts, events).db
    ensures var sys := After(capacity, attempts, events); var mine := Mine(sys.db[id].messages, a);
      if a < |sys.asks| && sys.asks[a].conversation == id
      then |mine| == 2 * sys.asks[a].copies && forall k :: 0 <= k < sys.asks[a].copies ==> IsTurnAt(mine, a, k)
      else mine == []
  {
    var sys := After(capacity, attempts, events);
    BothMessagesOrNeither(capacity, attempts, events, a, id);
    if a < |sys.asks| { TurnsWrittenOut(a, sys.asks[a].copies); }
  }

  /** At the moment an ask returns, its question and answer are in its conversation. */
  lemma ReturnedMeansItIsThere(capacity: nat, attempts: nat, events: seq<Event>, e: Event, a: nat)
    requires attempts > 0 && a < |After(capacity, attempts, events).asks|
    requires After(capacity, attempts, events).asks[a].phase != Done(Returned)
    requires a < |Step(After(capacity, attempts, events), e).asks|
    requires Step(After(capacity, attempts, events), e).asks[a].phase == Done(Returned)
    ensures var sys := After(capacity, attempts, events); var id := sys.asks[a].conversation;
      id in sys.db && IsTurnAt(Mine(sys.db[id].messages, a), a, 0)
  {
    var sys := After(capacity, attempts, events);
    AskAfter(sys, e, a);
    EveryAskIsSound(capacity, attempts, events, a);
    var id := sys.asks[a].conversation;
    QuestionAndAnswerByTurns(capacity, attempts, events, a, id);
  }

  // ----- only into the asker's conversation

  /** Event number `t` was the ask's own re-read, and found the conversation its user's. */
  predicate OwnedReRead(capacity: nat, attempts: nat, events: seq<Event>, a: nat, t: nat) {
    && t < |events| && StepsAsk(events[t], a)
    && var sys := After(capacity, attempts, events[..t]);
       && a < |sys.asks| && sys.asks[a].phase == Checking
       && sys.asks[a].conversation in sys.db && sys.db[sys.asks[a].conversation].owner == sys.asks[a].user
  }

  /** An ask that is about to commit has re-read the conversation in this very attempt and
      found it still its user's: nothing it did itself lies in between. */
  lemma {:induction false} CommitFollowsOwnedReRead(capacity: nat, attempts: nat, events: seq<Event>, a: nat)
      returns (t: nat)
    requires a < |After(capacity, attempts, events).asks|
    requires After(capacity, attempts, events).asks[a].phase == Writing
    ensures OwnedReRead(capacity, attempts, events, a, t)
    ensures forall s :: t < s < |events| ==> !StepsAsk(events[s], a)
  {
    var front, e := events[..|events| - 1], events[|events| - 1];
    var before := After(capacity, attempts, front);
    assert events == front + [e];
    AskAfter(before, e, a);
    if StepsAsk(e, a) {
      t := |front|;
      OnlyReReadsWrite(before, a, e.runSucceeds);
    } else {
      t := CommitFollowsOwnedReRead(capacity, attempts, front, a);
      AfterFront(capacity, attempts, front, e, t);
      forall s | t < s < |events| ensures !StepsAsk(events[s], a) {
        if s < |front| { assert front[s] == events[s]; }
      }
    }
  }

  lemma OnlyReReadsWrite(sys: System, a: nat, runSucceeds: bool)
    requires a < |sys.asks| && Stepped(sys, a, runSucceeds).0.phase == Writing
    ensures sys.asks[a].phase == Checking && Owned(sys, sys.asks[a])
  {
  }

  /** Event number `t` was the ask's own first read, and found the conversation its user's. */
  predicate OwnedRead(capacity: nat, attempts: nat, events: seq<Event>, a: nat, t: nat) {
    && t < |events| && StepsAsk(events[t], a)
    && var sys := After(capacity, attempts, events[..t]);
       && a < |sys.asks| && sys.asks[a].phase == Reading
       && sys.asks[a].conversation in sys.db && sys.db[sys.asks[a].conversation].owner == sys.asks[a].user
  }

  /** Event number `t` was the end of the ask's agent run, and the run succeeded. */
  predicate RunSucceeded(capacity: nat, attempts: nat, events: seq<Event>, a: nat, t: nat) {
    && t < |events| && StepsAsk(events[t], a) && events[t].runSucceeds
    && var sys := After(capacity, attempts, events[..t]);
       a < |sys.asks| && sys.asks[a].phase == Thinking
  }

  lemma WhatStarts(sys: System, a: nat, runSucceeds: bool)
    requires a < |sys.asks| && CopiesAreSound(sys.attempts, sys.asks[a])
    ensures var was, now := sys.asks[a], Stepped(sys, a, runSucceeds).0;
      && (now.phase == Thinking ==> was.phase == Reading && Owned(sys, was))
      && (now.attempt > 0 && was.attempt == 0 ==> was.phase == Thinking && runSucceeds)
  {
  }

  lemma ReadStays(capacity: nat, attempts: nat, events: seq<Event>, e: Event, a: nat, t: nat)
    ensures OwnedRead(capacity, attempts, events, a, t) ==> OwnedRead(capacity, attempts, events + [e], a, t)
    ensures RunSucceeded(capacity, attempts, events, a, t) ==> RunSucceeded(capacity, attempts, events + [e], a, t)
  {
    if t < |events| { AfterFront(capacity, attempts, events, e, t); }
  }

  /** An agent runs only for a conversation that was found its user's. */
  lemma {:induction false} NoRunBeforeAnOwnedRead(capacity: nat, attempts: nat, events: seq<Event>, a: nat)
      returns (t: nat)
    requires attempts > 0 && a < |After(capacity, attempts, events).asks|
    requires After(capacity, attempts, events).asks[a].phase == Thinking
    ensures OwnedRead(capacity, attempts, events, a, t)
  {
    var front, e := events[..|events| - 1], events[|events| - 1];
    var before := After(capacity, attempts, front);
    assert events == front + [e];
    AskAfter(before, e, a);
    if a < |before.asks| { EveryAskIsSound(capacity, attempts, front, a); }
    if StepsAsk(e, a) {
      t := |front|;
      AfterFront(capacity, attempts, front, e, t);
      WhatStarts(before, a, e.runSucceeds);
    } else {
      t := NoRunBeforeAnOwnedRead(capacity, attempts, front, a);
      ReadStays(capacity, attempts, front, e, a, t);
    }
  }

  /** Only the turn of a run that succeeded is written. */
  lemma {:induction false} OnlySuccessfulRunsAreWritten(capacity: nat, attempts: nat, events: seq<Event>, a: nat)
      returns (t: nat)
    requires attempts > 0 && a < |After(capacity, attempts, events).asks|
    requires After(capacity, attempts, events).asks[a].attempt > 0
    ensures RunSucceeded(capacity, attempts, events, a, t)
  {
    var front, e := events[..|events| - 1], events[|events| - 1];
    var before := After(capacity, attempts, front);
    assert events == front + [e];
    AskAfter(before, e, a);
    if a < |before.asks| { EveryAskIsSound(capacity, attempts, front, a); }
    if StepsAsk(e, a) && before.asks[a].attempt == 0 {
      t := |front|;
      AfterFront(capacity, attempts, front, e, t);
      WhatStarts(before, a, e.runSucceeds);
    } else {
      t := OnlySuccessfulRunsAreWritten(capacity, attempts, front, a);
      ReadStays(capacity, attempts, front, e, a, t);
    }
  }

  // ----- duplicates do happen

  ghost predicate Reachable(capacity: nat, attempts: nat, sys: System) {
    exists events :: After(capacity, attempts, events) == sys
  }

  lemma Goes(sys: System, e: Event, next: System)
    requires Reachable(1, 4, sys) && Step(sys, e) == next
    ensures Reachable(1, 4, next)
  {
    var events :| After(1, 4, events) == sys;
    assert (events + [e])[..|events|] == events;
    assert After(1, 4, events + [e]) == next;
  }

  /** One conversation of user 7, whose only ask is in the given state. */
  function Snapshot(phase: Phase, attempt: nat, copies: nat, late: nat, held: nat, others: nat): System {
    System(1, 4, map[0 := Conversation(7, Turns(0, copies))], {0}, held, others,
           [Ask(7, 0, phase, attempt, copies, late)])
  }

  lemma UntilTheWait()
    ensures Reachable(1, 4, Snapshot(Waiting, 1, 0, 0, 0, 0))
  {
    var go := Advance(0, true);
    assert After(1, 4, []) == Opened(1, 4);
    var created := System(1, 4, map[0 := Conversation(7, [])], {0}, 0, 0, []);
    Goes(Opened(1, 4), Create(0, 7), created);
    Goes(created, NewAsk(7, 0), Snapshot(Start, 0, 0, 0, 0, 0));
    Goes(Snapshot(Start, 0, 0, 0, 0, 0), go, Snapshot(Reading, 0, 0, 0, 1, 0));
    Goes(Snapshot(Reading, 0, 0, 0, 1, 0), go, Snapshot(Thinking, 0, 0, 0, 0, 0));
    Goes(Snapshot(Thinking, 0, 0, 0, 0, 0), go, Snapshot(Waiting, 1, 0, 0, 0, 0));
  }

  /** An attempt that goes through stores the turn once more. */
  lemma OneAttempt(attempt: nat, copies: nat)
    requires Reachable(1, 4, Snapshot(Waiting, attempt, copies, copies, 0, 0))
    ensures Reachable(1, 4, Snapshot(Committed, attempt, copies + 1, copies, 0, 0))
  {
    var go := Advance(0, true);
    Goes(Snapshot(Waiting, attempt, copies, copies, 0, 0), go, Snapshot(Checking, attempt, copies, copies, 1, 0));
    Goes(Snapshot(Checking, attempt, copies, copies, 1, 0), go, Snapshot(Writing, attempt, copies, copies, 1, 0));
    Goes(Snapshot(Writing, attempt, copies, copies, 1, 0), go, Snapshot(Committed, attempt, copies + 1, copies, 0, 0));
  }

  /** Someone else takes the connection between the commit and the refresh. */
  lemma LateExhaustion()
    requires Reachable(1, 4, Snapshot(Committed, 1, 1, 0, 0, 0))
    ensures Reachable(1, 4, Snapshot(Waiting, 2, 1, 1, 0, 0))
  {
    Goes(Snapshot(Committed, 1, 1, 0, 0, 0), OthersTake, Snapshot(Committed, 1, 1, 0, 1, 1));
    Goes(Snapshot(Committed, 1, 1, 0, 1, 1), Advance(0, true), Snapshot(Waiting, 2, 1, 1, 1, 1));
    Goes(Snapshot(Waiting, 2, 1, 1, 1, 1), OthersGive, Snapshot(Waiting, 2, 1, 1, 0, 0));
  }

  /** The retry then stores the turn a second time and the ask returns as if nothing had
      happened. */
  lemma TurnMayBeStoredTwice()
    ensures Reachable(1, 4, Snapshot(Done(Returned), 2, 2, 1, 0, 0))
    ensures Snapshot(Done(Returned), 2, 2, 1, 0, 0).db[0].messages == Turn(0) + Turn(0)
  {
    UntilTheWait();
    OneAttempt(1, 0);
    LateExhaustion();
    OneAttempt(2, 1);
    Goes(Snapshot(Committed, 2, 2, 1, 0, 0), Advance(0, true), Snapshot(Refreshing, 2, 2, 1, 1, 0));
    Goes(Snapshot(Refreshing, 2, 2, 1, 1, 0), Advance(0, true), Snapshot(Done(Returned), 2, 2, 1, 0, 0));
  }

  // ----- the retry loop of one write

  /** How one attempt ends: stored, the conversation gone, another exception, or no
      connection; the last two before the commit or after it. */
  datatype Attempt = Stored | Gone | Raised(committed: bool) | NoConnection(committed: bool)

  /** What one attempt makes of an ask that waits to write. */
  function Attempted(ask: Ask, outcome: Attempt, attempts: nat): Ask {
    if ask.phase != Waiting then ask
    else match outcome
      case Stored => ask.(phase := Done(Returned), copies := ask.copies + 1)
      case Gone => ask.(phase := Done(NotFound))
      case Raised(committed) => ask.(phase := Done(Failed), copies := ask.copies + if committed then 1 else 0)
      case NoConnection(committed) =>
        if committed then Exhausted(ask, attempts).(copies := ask.copies + 1, late := ask.late + 1)
        else Exhausted(ask, attempts)
  }

  /** The ask after its first `n` attempts, or as many of them as it took. */
  function Tried(ask: Ask, outcome: nat -> Attempt, attempts: nat, n: nat): Ask {
    if n == 0 then ask else Attempted(Tried(ask, outcome, attempts, n - 1), outcome(n), attempts)
  }

  lemma {:induction false} TriedAlike(ask: Ask, p: nat -> Attempt, q: nat -> Attempt, attempts: nat, n: nat)
    requires forall j :: 1 <= j <= n ==> p(j) == q(j)
    ensures Tried(ask, p, attempts, n) == Tried(ask, q, attempts, n)
  {
    if n > 0 { TriedAlike(ask, p, q, attempts, n - 1); }
  }

  /** An ask as it first waits to write. */
  predicate IsWaiting(ask: Ask) { ask.phase == Waiting && ask.attempt == 1 && ask.copies == ask.late == 0 }

  function Doubled(n: nat): real { if n == 0 then 1.0 else 2.0 * Doubled(n - 1) }

  /** The delays before attempts 2 to `n` add up to half a second less than the next one. */
  function Slept(n: nat): real { 0.5 * (Doubled(n) - 1.0) }

  /** Half a second, then one, then two. */
  lemma WaitsDouble()
    ensures Slept(0) == 0.0 && Slept(1) == 0.5 && Slept(2) == 1.5 && Slept(3) == 3.5
  {
    assert Doubled(3) == 2.0 * Doubled(2) == 4.0 * Doubled(1) == 8.0 * Doubled(0);
  }

  /** `_store_turn_in_new_session`: the loop tries until an attempt gets through or all are
      spent, doubling its delay; `done` is the ask as its attempts leave it. */
  method StoreTurnInNewSession(ask: Ask, outcome: nat -> Attempt, attempts: nat) returns (done: Ask, slept: real)
    requires attempts >= 1 && IsWaiting(ask)
    ensures done == Tried(ask, outcome, attempts, attempts)
    ensures done.phase.Done? && 1 <= done.attempt <= attempts
    ensures forall j :: 1 <= j < done.attempt ==> outcome(j).NoConnection?
    ensures done.phase == Done(Lost) <==> done.attempt == attempts && outcome(attempts).NoConnection?
    ensures done.phase == Done(Returned) <==> outcome(done.attempt).Stored?
    ensures slept == Slept(done.attempt - 1)
  {
    var delay := 0.5;
    done, slept := ask, 0.0;
    for attempt := 1 to attempts + 1
      invariant attempt <= attempts
      invariant done == Tried(ask, outcome, attempts, attempt - 1) && done.phase == Waiting && done.attempt == attempt
      invariant forall j :: 1 <= j < attempt ==> outcome(j).NoConnection?
      invariant delay == 0.5 * Doubled(attempt - 1) && slept == Slept(attempt - 1)
    {
      match outcome(attempt) {
        case Stored => done := done.(phase := Done(Returned), copies := done.copies + 1);
        case Gone => done := done.(phase := Done(NotFound));
        case Raised(committed) =>
          done := done.(phase := Done(Failed), copies := done.copies + if committed then 1 else 0);
        case NoConnection(committed) =>
          if committed { done := done.(copies := done.copies + 1, late := done.late + 1); }
          if attempt < attempts {
            done := done.(phase := Waiting, attempt := attempt + 1);
            slept, delay := slept + delay, 2.0 * delay;
            continue;
          }
          done := done.(phase := Done(Lost));
      }
      DoneStays(ask, outcome, attempts, attempt, attempts);
      return;
    }
    assert false;
  }

  lemma {:induction false} DoneStays(ask: Ask, outcome: nat -> Attempt, attempts: nat, n: nat, m: nat)
    requires n <= m && Tried(ask, outcome, attempts, n).phase != Waiting
    ensures Tried(ask, outcome, attempts, m) == Tried(ask, outcome, attempts, n)
  {
    if n < m { DoneStays(ask, outcome, attempts, n, m - 1); }
  }

  /** Where the retry loop is when an ask of the system is like this: it has behind it the
      attempts that `outcome` says, and of the present one at most the commit. */
  ghost predicate InLoop(ask: Ask, outcome: nat -> Attempt, attempts: nat) {
    var first := Ask(ask.user, ask.conversation, Waiting, 1, 0, 0);
    match ask.phase
    case Start => ask.attempt == ask.copies == ask.late == 0
    case Reading => ask.attempt == ask.copies == ask.late == 0
    case Thinking => ask.attempt == ask.copies == ask.late == 0
    case Waiting => ask.attempt > 0 && ask == Tried(first, outcome, attempts, ask.attempt - 1)
    case Checking => ask.attempt > 0 && ask.(phase := Waiting) == Tried(first, outcome, attempts, ask.attempt - 1)
    case Writing => ask.attempt > 0 && ask.(phase := Waiting) == Tried(first, outcome, attempts, ask.attempt - 1)
    case Committed =>
      && ask.attempt > 0 && ask.copies > 0
      && ask.(phase := Waiting, copies := ask.copies - 1) == Tried(first, outcome, attempts, ask.attempt - 1)
    case Refreshing =>
      && ask.attempt > 0 && ask.copies > 0
      && ask.(phase := Waiting, copies := ask.copies - 1) == Tried(first, outcome, attempts, ask.attempt - 1)
    case Done(_) => ask.attempt > 0 ==> ask == Tried(first, outcome, attempts, ask.attempt)
  }

  /** `outcome`, but for attempt `n`. */
  function With(outcome: nat -> Attempt, n: nat, last: Attempt): nat -> Attempt {
    (j: nat) => if j == n then last else outcome(j)
  }

  lemma TriedWith(ask: Ask, outcome: nat -> Attempt, attempts: nat, n: nat, last: Attempt)
    requires n > 0
    ensures Tried(ask, With(outcome, n, last), attempts, n)
         == Attempted(Tried(ask, outcome, attempts, n - 1), last, attempts)
  {
    TriedAlike(ask, With(outcome, n, last), outcome, attempts, n - 1);
  }

  /** How the attempt ends, if the ask's next step ends it. */
  function Ending(sys: System, a: nat): Attempt
    requires a < |sys.asks|
  {
    var ask := sys.asks[a];
    match ask.phase
    case Checking => Gone
    case Writing => Raised(false)
    case Committed => NoConnection(true)
    case Refreshing => if ask.conversation in sys.db then Stored else Raised(true)
    case _ => NoConnection(false)
  }

  /** A step from waiting on that does not end the attempt. */
  predicate GoesOn(sys: System, a: nat)
    requires a < |sys.asks|
  {
    var phase, next := sys.asks[a].phase, Stepped(sys, a, true).0.phase;
    (phase, next) in {(Waiting, Checking), (Checking, Writing), (Writing, Committed), (Committed, Refreshing)}
  }

  lemma AttemptGoesOn(sys: System, a: nat, runSucceeds: bool, outcome: nat -> Attempt)
    requires a < |sys.asks| && InLoop(sys.asks[a], outcome, sys.attempts)
    requires sys.asks[a].attempt == 0 || GoesOn(sys, a) || sys.asks[a].phase.Done?
    ensures InLoop(Stepped(sys, a, runSucceeds).0, outcome, sys.attempts)
  {
  }

  /** The ask as it waited at the start of the present attempt. */
  function AtStart(ask: Ask): Ask {
    if ask.phase in {Committed, Refreshing} && ask.copies > 0 then ask.(phase := Waiting, copies := ask.copies - 1)
    else ask.(phase := Waiting)
  }

  lemma StepEndsIt(sys: System, a: nat, runSucceeds: bool, outcome: nat -> Attempt)
    requires a < |sys.asks| && InLoop(sys.asks[a], outcome, sys.attempts)
    requires sys.asks[a].attempt > 0 && !GoesOn(sys, a) && !sys.asks[a].phase.Done?
    ensures Stepped(sys, a, runSucceeds).0 == Attempted(AtStart(sys.asks[a]), Ending(sys, a), sys.attempts)
    ensures Stepped(sys, a, runSucceeds).0.phase.Done? || Stepped(sys, a, runSucceeds).0.phase == Waiting
  {
  }

  lemma WasAtStart(ask: Ask, outcome: nat -> Attempt, attempts: nat)
    requires InLoop(ask, outcome, attempts) && ask.attempt > 0 && !ask.phase.Done?
    ensures AtStart(ask)
         == Tried(Ask(ask.user, ask.conversation, Waiting, 1, 0, 0), outcome, attempts, ask.attempt - 1)
  {
  }

  lemma AttemptEnds(sys: System, a: nat, runSucceeds: bool, outcome: nat -> Attempt)
    requires a < |sys.asks| && InLoop(sys.asks[a], outcome, sys.attempts)
    requires sys.asks[a].attempt > 0 && !GoesOn(sys, a) && !sys.asks[a].phase.Done?
    ensures InLoop(Stepped(sys, a, runSucceeds).0, With(outcome, sys.asks[a].attempt, Ending(sys, a)), sys.attempts)
  {
    var ask, next := sys.asks[a], Stepped(sys, a, runSucceeds).0;
    StepEndsIt(sys, a, runSucceeds, outcome);
    WasAtStart(ask, outcome, sys.attempts);
    TriedWith(Ask(ask.user, ask.conversation, Waiting, 1, 0, 0), outcome, sys.attempts, ask.attempt, Ending(sys, a));
    NextAttempt(AtStart(ask), Ending(sys, a), sys.attempts);
  }

  lemma NextAttempt(ask: Ask, outcome: Attempt, attempts: nat)
    requires ask.phase == Waiting
    ensures var next := Attempted(ask, outcome, attempts);
      && next.user == ask.user && next.conversation == ask.conversation
      && next.attempt == (if next.phase == Waiting then ask.attempt + 1 else ask.attempt)
  {
  }
  /** Event number `t` was the ask's own step that ended attempt `j`, with `outcome`. */
  predicate EndedAt(capacity: nat, attempts: nat, events: seq<Event>, a: nat, t: nat, j: nat, outcome: Attempt) {
    && t < |events| && StepsAsk(events[t], a)
    && var sys := After(capacity, attempts, events[..t]);
       && a < |sys.asks| && sys.asks[a].attempt == j > 0
       && !GoesOn(sys, a) && !sys.asks[a].phase.Done? && Ending(sys, a) == outcome
  }

  predicate Happened(capacity: nat, attempts: nat, events: seq<Event>, a: nat, j: nat, outcome: Attempt) {
    exists t :: 0 <= t < |events| && EndedAt(capacity, attempts, events, a, t, j, outcome)
  }

  lemma HappenedStays(capacity: nat, attempts: nat, events: seq<Event>, e: Event, a: nat, j: nat, outcome: Attempt)
    requires Happened(capacity, attempts, events, a, j, outcome)
    ensures Happened(capacity, attempts, events + [e], a, j, outcome)
  {
    var t :| 0 <= t < |events| && EndedAt(capacity, attempts, events, a, t, j, outcome);
    AfterFront(capacity, attempts, events, e, t);
    assert EndedAt(capacity, attempts, events + [e], a, t, j, outcome);
  }

  lemma HappensNow(capacity: nat, attempts: nat, events: seq<Event>, e: Event, a: nat)
    requires StepsAsk(e, a) && a < |After(capacity, attempts, events).asks|
    requires var sys := After(capacity, attempts, events);
      sys.asks[a].attempt > 0 && !GoesOn(sys, a) && !sys.asks[a].phase.Done?
    ensures var sys := After(capacity, attempts, events);
      Happened(capacity, attempts, events + [e], a, sys.asks[a].attempt, Ending(sys, a))
  {
    var sys := After(capacity, attempts, events);
    AfterFront(capacity, attempts, events, e, |events|);
    assert EndedAt(capacity, attempts, events + [e], a, |events|, sys.asks[a].attempt, Ending(sys, a));
  }

  /** How many attempts of an ask have ended. */
  function Ended(ask: Ask): nat {
    if ask.phase.Done? || ask.attempt == 0 then ask.attempt else ask.attempt - 1
  }

  /** Each outcome up to the last attempt that ended is how that attempt ended in the run. */
  ghost predicate Witnessed(capacity: nat, attempts: nat, events: seq<Event>, a: nat, n: nat, outcome: nat -> Attempt) {
    forall j :: 1 <= j <= n ==> Happened(capacity, attempts, events, a, j, outcome(j))
  }

  lemma WitnessedStays(capacity: nat, attempts: nat, events: seq<Event>, e: Event, a: nat, n: nat,
                       outcome: nat -> Attempt)
    requires Witnessed(capacity, attempts, events, a, n, outcome)
    ensures Witnessed(capacity, attempts, events + [e], a, n, outcome)
  {
    forall j | 1 <= j <= n ensures Happened(capacity, attempts, events + [e], a, j, outcome(j)) {
      HappenedStays(capacity, attempts, events, e, a, j, outcome(j));
    }
  }

  lemma WitnessedMore(capacity: nat, attempts: nat, events: seq<Event>, e: Event, a: nat, n: nat,
                      outcome: nat -> Attempt, last: Attempt)
    requires n > 0 && Witnessed(capacity, attempts, events, a, n - 1, outcome)
    requires Happened(capacity, attempts, events + [e], a, n, last)
    ensures Witnessed(capacity, attempts, events + [e], a, n, With(outcome, n, last))
  {
    WitnessedStays(capacity, attempts, events, e, a, n - 1, outcome);
  }

  lemma EndedOneMore(sys: System, a: nat, runSucceeds: bool)
    requires a < |sys.asks| && CopiesAreSound(sys.attempts, sys.asks[a])
    ensures var was, now := sys.asks[a], Stepped(sys, a, runSucceeds).0;
      Ended(now) == Ended(was) + if was.attempt > 0 && !GoesOn(sys, a) && !was.phase.Done? then 1 else 0
  {
  }

  /** In every interleaving each ask is somewhere in the retry loop, with its attempts having
      ended as they did in the run. */
  lemma {:induction false} EveryWriteIsTheLoop(capacity: nat, attempts: nat, events: seq<Event>, a: nat)
      returns (outcome: nat -> Attempt)
    requires attempts > 0 && a < |After(capacity, attempts, events).asks|
    ensures var ask := After(capacity, attempts, events).asks[a];
      && InLoop(ask, outcome, attempts)
      && Witnessed(capacity, attempts, events, a, Ended(ask), outcome)
  {
    outcome := _ => Stored;
    if events != [] {
      var front, e := events[..|events| - 1], events[|events| - 1];
      var before := After(capacity, attempts, front);
      assert events == front + [e];
      AttemptsStay(capacity, attempts, front);
      AskAfter(before, e, a);
      if a < |before.asks| {
        outcome := EveryWriteIsTheLoop(capacity, attempts, front, a);
        EveryAskIsSound(capacity, attempts, front, a);
        var was := before.asks[a];
        WitnessedStays(capacity, attempts, front, e, a, Ended(was), outcome);
        if StepsAsk(e, a) {
          EndedOneMore(before, a, e.runSucceeds);
          if was.attempt == 0 || GoesOn(before, a) || was.phase.Done? {
            AttemptGoesOn(before, a, e.runSucceeds, outcome);
          } else {
            AttemptEnds(before, a, e.runSucceeds, outcome);
            HappensNow(capacity, attempts, front, e, a);
            WitnessedMore(capacity, attempts, front, e, a, was.attempt, outcome, Ending(before, a));
            outcome := With(outcome, was.attempt, Ending(before, a));
          }
        }
      }
    }
  }

  /** When an ask's write is over, what became of it is what the retry loop makes of the way
      its attempts ended in the run: the same end, after as many attempts, with as many copies
      stored. */
  lemma FinishedWriteIsTheLoops(capacity: nat, attempts: nat, events: seq<Event>, a: nat)
      returns (first: Ask, outcome: nat -> Attempt)
    requires attempts > 0 && a < |After(capacity, attempts, events).asks|
    requires var ask := After(capacity, attempts, events).asks[a];
      ask.phase.Done? && ask.attempt > 0
    ensures IsWaiting(first)
    ensures var ask := After(capacity, attempts, events).asks[a];
      && Witnessed(capacity, attempts, events, a, ask.attempt, outcome)
      && ask == Tried(first, outcome, attempts, attempts)
  {
    var ask := After(capacity, attempts, events).asks[a];
    first := Ask(ask.user, ask.conversation, Waiting, 1, 0, 0);
    outcome := EveryWriteIsTheLoop(capacity, attempts, events, a);
    EveryAskIsSound(capacity, attempts, events, a);
    DoneStays(first, outcome, attempts, ask.attempt, attempts);
  }
}
