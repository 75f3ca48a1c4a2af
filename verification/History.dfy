/** api/routes_chat.py: appending to a conversation and paging through its history. */
module History {
  import opened Seqs
  import opened Text

  const TITLE_MAX: nat := 200

  datatype Message = Message(id: nat, role: string, content: string)

  // ----- appending

  /** The characters `str.splitlines` breaks lines at. */
  predicate IsLineBreak(c: char) {
    || '\n' <= c <= '\r'
    || '\U{1c}' <= c <= '\U{1e}'
    || c == '\U{85}' || c == '\U{2028}' || c == '\U{2029}'
  }

  lemma LineBreaksAre(c: char)
    ensures IsLineBreak(c) <==>
      c in {'\n', '\U{b}', '\U{c}', '\r', '\U{1c}', '\U{1d}', '\U{1e}', '\U{85}', '\U{2028}', '\U{2029}'}
  {
  }

  function FirstLine(s: string): (line: string)
    ensures line <= s
    ensures forall i :: 0 <= i < |line| ==> !IsLineBreak(line[i])
    ensures |line| < |s| ==> IsLineBreak(s[|line|])
  {
    if s == "" || IsLineBreak(s[0]) then "" else [s[0]] + FirstLine(s[1..])
  }

  function DeriveTitle(content: string): string {
    var line := if Strip(content) != "" then FirstLine(Strip(content)) else "New conversation";
    if |line| > TITLE_MAX then line[..TITLE_MAX - 1] + "\U{2026}" else line
  }

  /** A title is never empty, never longer than the limit and never more than one line. */
  lemma TitlesAreOneShortLine(content: string)
    ensures 0 < |DeriveTitle(content)| <= TITLE_MAX
    ensures forall i :: 0 <= i < |DeriveTitle(content)| ==> !IsLineBreak(DeriveTitle(content)[i])
  {
    if Strip(content) != "" { FirstLineOfStripped(content); }
    Clipped(if Strip(content) != "" then FirstLine(Strip(content)) else "New conversation");
  }

  lemma FirstLineOfStripped(content: string)
    requires Strip(content) != ""
    ensures FirstLine(Strip(content)) != ""
  {
    var stripped := LeftStrip(content);
    assert Strip(content)[0] == stripped[0] && !IsSpace(stripped[0]);
  }

  lemma Clipped(line: string)
    requires line != "" && forall i :: 0 <= i < |line| ==> !IsLineBreak(line[i])
    ensures var title := if |line| > TITLE_MAX then line[..TITLE_MAX - 1] + "\U{2026}" else line;
      0 < |title| <= TITLE_MAX && forall i :: 0 <= i < |title| ==> !IsLineBreak(title[i])
  {
  }

  lemma {:induction false} FirstLineIs(s: string)
    ensures FirstLine(s) <= s && (FirstLine(s) == s || IsLineBreak(s[|FirstLine(s)|]))
    ensures forall i :: 0 <= i < |FirstLine(s)| ==> !IsLineBreak(s[i])
  {
  }

  /** A title is the first line of what was said, without the white space around it; one of
      more than 200 characters is cut to 199 and an ellipsis. */
  lemma TitleIs(content: string)
    ensures Strip(content) == "" ==> DeriveTitle(content) == "New conversation"
    ensures Strip(content) != "" ==> exists n ::
      && 0 < n <= |Strip(content)|
      && (n == |Strip(content)| || IsLineBreak(Strip(content)[n]))
      && (forall i :: 0 <= i < n ==> !IsLineBreak(Strip(content)[i]))
      && DeriveTitle(content) == if n <= 200 then Strip(content)[..n] else Strip(content)[..199] + "\U{2026}"
  {
    if Strip(content) != "" {
      var s, line := Strip(content), FirstLine(Strip(content));
      FirstLineIs(s);
      FirstLineOfStripped(content);
      assert line == s[..|line|];
      assert |line| > 200 ==> line[..199] == s[..199];
    }
  }

  function TitleAfter(title: Option<string>, role: string, content: string): Option<string> {
    if title.None? && role == "user" then Some(DeriveTitle(content)) else title
  }

  /** A loaded conversation and what its session will insert. */
  class Conversation {
    var title: Option<string>
    var updatedAt: int
    var added: seq<(string, string)>

    constructor (title: Option<string>, now: int)
      ensures this.title == title && updatedAt == now && added == []
    {
      this.title := title;
      updatedAt := now;
      added := [];
    }

    /** `append_message`: the message, the thread's activity, and a title if it has none. */
    method AppendMessage(role: string, content: string, now: int)
      modifies this
      ensures added == old(added) + [(role, content)]
      ensures updatedAt == now
      ensures title == TitleAfter(old(title), role, content)
    {
      added := added + [(role, content)];
      updatedAt := now;
      if title.None? && role == "user" { title := Some(DeriveTitle(content)); }
    }
  }

  function TitleAfterAll(title: Option<string>, added: seq<(string, string)>): Option<string> {
    if added == [] then title
    else
      var last := added[|added| - 1];
      TitleAfter(TitleAfterAll(title, added[..|added| - 1]), last.0, last.1)
  }

  predicate FirstUserAt(added: seq<(string, string)>, n: nat) {
    n < |added| && added[n].0 == "user" && forall i :: 0 <= i < n ==> added[i].0 != "user"
  }

  /** A thread's title is that of its opening user message and nothing later changes it. */
  lemma {:induction false} TheFirstUserMessageNamesTheThread(added: seq<(string, string)>, n: nat)
    requires FirstUserAt(added, n)
    ensures TitleAfterAll(None, added) == Some(DeriveTitle(added[n].1))
  {
    var front, last := added[..|added| - 1], added[|added| - 1];
    if n < |front| {
      FirstUserInFront(added, n);
      TheFirstUserMessageNamesTheThread(front, n);
      TitleStays(TitleAfterAll(None, front), last.0, last.1);
    } else {
      UntitledUntilAUser(front);
    }
  }

  lemma FirstUserInFront(added: seq<(string, string)>, n: nat)
    requires FirstUserAt(added, n) && n < |added| - 1
    ensures FirstUserAt(added[..|added| - 1], n) && added[..|added| - 1][n] == added[n]
  {
  }

  lemma TitleStays(title: Option<string>, role: string, content: string)
    requires title.Some?
    ensures TitleAfter(title, role, content) == title
  {
  }

  lemma {:induction false} UntitledUntilAUser(added: seq<(string, string)>)
    requires forall i :: 0 <= i < |added| ==> added[i].0 != "user"
    ensures TitleAfterAll(None, added) == None
  {
    if added != [] { UntitledUntilAUser(added[..|added| - 1]); }
  }

  // ----- one page

  /** A conversation's messages as the query orders them: identity values cannot tie. */
  predicate ById(store: seq<Message>) {
    forall i, j :: 0 <= i < j < |store| ==> store[i].id < store[j].id
  }

  /** How many messages have an id up to the cursor. */
  function Passed(store: seq<Message>, cursor: Option<nat>): (n: nat)
    ensures n <= |store|
  {
    if store == [] || cursor.None? then 0
    else if store[|store| - 1].id <= cursor.value then |store|
    else Passed(store[..|store| - 1], cursor)
  }

  datatype Page = Page(messages: seq<Message>, nextCursor: Option<nat>)

  /** `get_history`: ids after the cursor, in order, up to the limit; a cursor only if full. */
  function GetHistory(store: seq<Message>, afterId: Option<nat>, limit: nat): (page: Page)
    requires limit >= 1
    ensures |page.messages| <= limit
    ensures page.nextCursor.Some? <==> |page.messages| == limit
    ensures page.nextCursor.Some? ==>
      page.messages != [] && page.nextCursor.value == page.messages[|page.messages| - 1].id
  {
    var from := store[Passed(store, afterId)..];
    var messages := if limit <= |from| then from[..limit] else from;
    Page(messages, if |messages| == limit then Some(messages[|messages| - 1].id) else None)
  }

  function Behind(store: seq<Message>, cursor: Option<nat>): seq<Message> {
    store[..Passed(store, cursor)]
  }

  lemma {:induction false} PassesOne(store: seq<Message>, cursor: Option<nat>, i: nat)
    requires ById(store) && i < |store|
    ensures i < Passed(store, cursor) <==> cursor.Some? && store[i].id <= cursor.value
  {
    var last := |store| - 1;
    if cursor.Some? {
      if store[last].id <= cursor.value {
        if i < last { assert store[i].id < store[last].id; }
      } else if i < last {
        PassesOne(store[..last], cursor, i);
      }
    }
  }

  /** Message `i` has been passed exactly if its id is up to the cursor. */
  predicate PassedRightly(store: seq<Message>, cursor: Option<nat>, i: nat)
    requires i < |store|
  {
    i < Passed(store, cursor) <==> cursor.Some? && store[i].id <= cursor.value
  }

  lemma PassedIs(store: seq<Message>, cursor: Option<nat>)
    requires ById(store)
    ensures forall i :: 0 <= i < |store| ==> PassedRightly(store, cursor, i)
  {
    forall i | 0 <= i < |store| ensures PassedRightly(store, cursor, i) { PassesOne(store, cursor, i); }
  }

  lemma PassedAt(store: seq<Message>, at: nat)
    requires ById(store) && at < |store|
    ensures Passed(store, Some(store[at].id)) == at + 1
  {
    var cursor := Some(store[at].id);
    PassesOne(store, cursor, at);
    if at + 1 < |store| {
      PassesOne(store, cursor, at + 1);
      assert store[at].id < store[at + 1].id;
    }
  }

  /** A page is what lies between its two cursors, or everything from the first on. */
  lemma PageFollowsCursor(store: seq<Message>, afterId: Option<nat>, limit: nat)
    requires ById(store) && limit >= 1
    ensures var page := GetHistory(store, afterId, limit);
      Behind(store, afterId) + page.messages == if page.nextCursor.Some? then Behind(store, page.nextCursor) else store
  {
    var end := PageIs(store, afterId, limit);
    EndOfPage(store, afterId, limit);
    Slices(store, Passed(store, afterId), end);
  }

  /** The cursor of a full page is its end. */
  lemma EndOfPage(store: seq<Message>, afterId: Option<nat>, limit: nat)
    requires ById(store) && limit >= 1
    ensures var page := GetHistory(store, afterId, limit);
      page.nextCursor.Some? ==> Passed(store, page.nextCursor) == Passed(store, afterId) + limit
  {
    var end := PageIs(store, afterId, limit);
    if end == Passed(store, afterId) + limit { PassedAt(store, end - 1); }
  }

  /** The messages of a page, as a part of the whole. */
  lemma PageIs(store: seq<Message>, afterId: Option<nat>, limit: nat) returns (end: nat)
    requires limit >= 1
    ensures Passed(store, afterId) <= end <= |store|
    ensures var page := GetHistory(store, afterId, limit);
      && page.messages == store[Passed(store, afterId)..end]
      && (page.nextCursor.Some? <==> Passed(store, afterId) + limit <= |store|)
      && (page.nextCursor.Some? ==>
            end == Passed(store, afterId) + limit && page.nextCursor == Some(store[end - 1].id))
      && (page.nextCursor.None? ==> end == |store|)
  {
    var n := Passed(store, afterId);
    end := if n + limit <= |store| then n + limit else |store|;
  }

  lemma Slices<T>(s: seq<T>, n: nat, end: nat)
    requires n <= end <= |s|
    ensures s[..n] + s[n..end] == s[..end] && s[..|s|] == s
  {
  }

  // ----- a walk, while others write

  function Listed(pages: seq<Page>): seq<Message> {
    if pages == [] then [] else Listed(pages[..|pages| - 1]) + pages[|pages| - 1].messages
  }

  /** A walk reads a snapshot at a time, each page from the cursor of the one before, and goes
      on for as long as there is one. */
  ghost predicate Walk(stores: seq<seq<Message>>, limit: nat, pages: seq<Page>)
    requires limit >= 1
  {
    && |pages| == |stores| > 0
    && var last := |pages| - 1;
       if last == 0 then pages[0] == GetHistory(stores[0], None, limit)
       else
         && Walk(stores[..last], limit, pages[..last])
         && pages[last - 1].nextCursor.Some?
         && pages[last] == GetHistory(stores[last], pages[last - 1].nextCursor, limit)
  }

  ghost predicate Grows(older: seq<Message>, newer: seq<Message>) {
    ById(older) && ById(newer) && forall i :: 0 <= i < |older| ==> older[i] in newer
  }

  /** Between reads messages come to light, in whatever order, and none is removed. */
  ghost predicate Growing(stores: seq<seq<Message>>) {
    stores != [] ==>
      && ById(stores[|stores| - 1])
      && (|stores| > 1 ==> Growing(stores[..|stores| - 1]) && Grows(stores[|stores| - 2], stores[|stores| - 1]))
  }

  /** No message came to light at or behind a cursor after the page that gave it. */
  ghost predicate NothingBehind(stores: seq<seq<Message>>, pages: seq<Page>) {
    |pages| == |stores| > 1 ==>
      var last := |pages| - 1;
      && NothingBehind(stores[..last], pages[..last])
      && Behind(stores[last], pages[last - 1].nextCursor) == Behind(stores[last - 1], pages[last - 1].nextCursor)
  }

  /** What should have been listed after a page. */
  function Due(store: seq<Message>, page: Page): seq<Message> {
    if page.nextCursor.Some? then Behind(store, page.nextCursor) else store
  }

  lemma GrowsBefore(older: seq<Message>, newer: seq<Message>, p: nat)
    requires Grows(older, newer) && older != [] && p < |newer| && newer[p] == older[|older| - 1]
    ensures Grows(older[..|older| - 1], newer[..p])
  {
    var last := |older| - 1;
    forall i | 0 <= i < last ensures older[..last][i] in newer[..p] {
      var q :| 0 <= q < |newer| && newer[q] == older[i];
      assert older[i].id < older[last].id;
      assert q < p;
      assert newer[..p][q] == older[i];
    }
  }

  lemma {:induction false} GrowthAddsOrIsNone(older: seq<Message>, newer: seq<Message>)
    requires Grows(older, newer)
    ensures |older| <= |newer|
    ensures |older| == |newer| ==> older == newer
  {
    if older != [] {
      var last := |older| - 1;
      var p :| 0 <= p < |newer| && newer[p] == older[last];
      GrowsBefore(older, newer, p);
      GrowthAddsOrIsNone(older[..last], newer[..p]);
      assert older == older[..last] + [older[last]];
      assert newer[..p + 1] == newer[..p] + [newer[p]] && newer[..|newer|] == newer;
    }
  }

  lemma BehindGrows(older: seq<Message>, newer: seq<Message>, cursor: Option<nat>)
    requires Grows(older, newer)
    ensures Grows(Behind(older, cursor), Behind(newer, cursor))
  {
    var n := Passed(newer, cursor);
    PassedIs(older, cursor);
    PassedIs(newer, cursor);
    forall i | 0 <= i < |Behind(older, cursor)| ensures Behind(older, cursor)[i] in Behind(newer, cursor) {
      var q :| 0 <= q < |newer| && newer[q] == older[i];
      assert PassedRightly(older, cursor, i) && PassedRightly(newer, cursor, q);
      assert newer[..n][q] == older[i];
    }
  }

  lemma CancelRight<T>(a: seq<T>, b: seq<T>, c: seq<T>)
    ensures a + c == b + c <==> a == b
  {
    if a + c == b + c {
      assert a == (a + c)[..|a|] && b == (b + c)[..|b|];
    }
  }

  lemma OneMorePage(listed: seq<Message>, older: seq<Message>, newer: seq<Message>, cursor: Option<nat>, limit: nat,
                    complete: bool)
    requires limit >= 1 && Grows(older, newer) && IsDue(listed, Behind(older, cursor), complete)
    ensures var page := GetHistory(newer, cursor, limit);
      IsDue(listed + page.messages, Due(newer, page), complete && Behind(newer, cursor) == Behind(older, cursor))
  {
    var page := GetHistory(newer, cursor, limit);
    PageFollowsCursor(newer, cursor, limit);
    BehindGrows(older, newer, cursor);
    GrowthAddsOrIsNone(Behind(older, cursor), Behind(newer, cursor));
    CancelRight(listed, Behind(newer, cursor), page.messages);
  }

  /** A walk has listed what is due exactly if nothing came to light behind it; otherwise it
      has missed something and never catches up. */
  lemma {:induction false} WalkListsWhatIsDue(stores: seq<seq<Message>>, limit: nat, pages: seq<Page>)
    requires limit >= 1 && Walk(stores, limit, pages) && Growing(stores)
    ensures IsDue(Listed(pages), Due(stores[|stores| - 1], pages[|pages| - 1]), NothingBehind(stores, pages))
  {
    var last := |pages| - 1;
    if last == 0 {
      FirstPage(stores[0], limit);
      assert pages[..0] == [];
    } else {
      WalkListsWhatIsDue(stores[..last], limit, pages[..last]);
      OneMorePage(Listed(pages[..last]), stores[last - 1], stores[last], pages[last - 1].nextCursor, limit,
                  NothingBehind(stores[..last], pages[..last]));
    }
  }

  /** Nothing is listed beyond what is due, and all of it exactly if nothing was missed. */
  predicate IsDue(listed: seq<Message>, due: seq<Message>, complete: bool) {
    && |listed| <= |due|
    && (|listed| == |due| ==> listed == due)
    && (listed == due <==> complete)
  }

  lemma FirstPage(store: seq<Message>, limit: nat)
    requires ById(store) && limit >= 1
    ensures var page := GetHistory(store, None, limit);
      [] + page.messages == Due(store, page)
  {
    PageFollowsCursor(store, None, limit);
    assert Behind(store, None) == [];
  }

  /** Following the cursor until there is none, with any limit, lists every message of the last
      snapshot once and in order if and only if none came to light behind a cursor. */
  lemma PagingListsEverythingIff(stores: seq<seq<Message>>, limit: nat, pages: seq<Page>)
    requires limit >= 1 && Walk(stores, limit, pages) && Growing(stores)
    requires pages[|pages| - 1].nextCursor == None
    ensures Listed(pages) == stores[|stores| - 1] <==> NothingBehind(stores, pages)
  {
    WalkListsWhatIsDue(stores, limit, pages);
  }

  /** Whatever comes to light meanwhile, nothing is listed twice or out of order. */
  lemma {:induction false} ListedOnceInOrder(stores: seq<seq<Message>>, limit: nat, pages: seq<Page>)
    requires limit >= 1 && Walk(stores, limit, pages) && Growing(stores)
    ensures ById(Listed(pages))
    ensures var cursor := pages[|pages| - 1].nextCursor;
      cursor.Some? ==> forall i :: 0 <= i < |Listed(pages)| ==> Listed(pages)[i].id <= cursor.value
  {
    var last := |pages| - 1;
    var before := if last == 0 then None else pages[last - 1].nextCursor;
    if last > 0 { ListedOnceInOrder(stores[..last], limit, pages[..last]); }
    PageLiesBetween(stores[last], before, limit);
    AscendsAcross(Listed(pages[..last]), pages[last].messages, before, pages[last].nextCursor);
  }

  lemma PageLiesBetween(store: seq<Message>, afterId: Option<nat>, limit: nat)
    requires ById(store) && limit >= 1
    ensures var page := GetHistory(store, afterId, limit);
      && ById(page.messages)
      && (afterId.Some? ==> forall i :: 0 <= i < |page.messages| ==> afterId.value < page.messages[i].id)
      && (page.nextCursor.Some? ==>
            forall i :: 0 <= i < |page.messages| ==> page.messages[i].id <= page.nextCursor.value)
  {
    var end := PageIs(store, afterId, limit);
    var n := Passed(store, afterId);
    PassedIs(store, afterId);
    SliceById(store, n, end);
    forall i | 0 <= i < end - n && afterId.Some? ensures afterId.value < store[n..end][i].id {
      assert PassedRightly(store, afterId, n + i);
    }
  }

  lemma SliceById(store: seq<Message>, n: nat, end: nat)
    requires ById(store) && n <= end <= |store|
    ensures ById(store[n..end])
    ensures forall i :: 0 <= i < end - n ==> store[n..end][i] == store[n + i] && store[n + i].id <= store[end - 1].id
  {
  }

  lemma AscendsAcross(listed: seq<Message>, more: seq<Message>, cursor: Option<nat>, next: Option<nat>)
    requires ById(listed) && ById(more)
    requires cursor.None? ==> listed == []
    requires cursor.Some? ==> forall i :: 0 <= i < |listed| ==> listed[i].id <= cursor.value
    requires cursor.Some? ==> forall i :: 0 <= i < |more| ==> cursor.value < more[i].id
    requires next.Some? ==> more != [] && forall i :: 0 <= i < |more| ==> more[i].id <= next.value
    ensures ById(listed + more)
    ensures next.Some? ==> forall i :: 0 <= i < |listed + more| ==> (listed + more)[i].id <= next.value
  {
    if next.Some? && cursor.Some? { assert cursor.value < more[0].id <= next.value; }
  }

  /** Each snapshot continues the one before: ids are committed in the order they were given. */
  ghost predicate AppendOnly(stores: seq<seq<Message>>) {
    stores != [] ==>
      && ById(stores[|stores| - 1])
      && (|stores| > 1 ==> AppendOnly(stores[..|stores| - 1]) && stores[|stores| - 2] <= stores[|stores| - 1])
  }

  lemma {:induction false} AppendingIsNeverBehind(stores: seq<seq<Message>>, limit: nat, pages: seq<Page>)
    requires limit >= 1 && Walk(stores, limit, pages) && AppendOnly(stores)
    ensures Growing(stores) && NothingBehind(stores, pages)
  {
    var last := |pages| - 1;
    if last > 0 {
      AppendingIsNeverBehind(stores[..last], limit, pages[..last]);
      var older, newer := stores[last - 1], stores[last];
      AppendingGrows(older, newer);
      var before := if last == 1 then None else pages[last - 2].nextCursor;
      assert pages[last - 1] == GetHistory(older, before, limit);
      AppendedBeyondCursor(older, newer, before, limit);
    }
  }

  lemma AppendingGrows(older: seq<Message>, newer: seq<Message>)
    requires ById(newer) && older <= newer
    ensures Grows(older, newer)
  {
    forall i | 0 <= i < |older| ensures older[i] in newer { assert newer[i] == older[i]; }
  }

  lemma AppendedBeyondCursor(older: seq<Message>, newer: seq<Message>, afterId: Option<nat>, limit: nat)
    requires limit >= 1 && ById(newer) && older <= newer && GetHistory(older, afterId, limit).nextCursor.Some?
    ensures var cursor := GetHistory(older, afterId, limit).nextCursor;
      Behind(newer, cursor) == Behind(older, cursor)
  {
    var end := PageIs(older, afterId, limit);
    SameBehind(older, newer, end - 1);
  }

  lemma SameBehind(older: seq<Message>, newer: seq<Message>, at: nat)
    requires ById(newer) && older <= newer && at < |older|
    ensures Behind(newer, Some(older[at].id)) == Behind(older, Some(older[at].id))
  {
    assert older[at] == newer[at];
    assert ById(older);
    PassedAt(older, at);
    PassedAt(newer, at);
    assert older[..at + 1] == newer[..at + 1];
  }

  /** Messages appended between reads, up to the last page, are listed with the rest. */
  lemma PagingListsWhatIsAppended(stores: seq<seq<Message>>, limit: nat, pages: seq<Page>)
    requires limit >= 1 && Walk(stores, limit, pages) && AppendOnly(stores)
    requires pages[|pages| - 1].nextCursor == None
    ensures Listed(pages) == stores[|stores| - 1] && ById(Listed(pages))
  {
    AppendingIsNeverBehind(stores, limit, pages);
    PagingListsEverythingIff(stores, limit, pages);
    ListedOnceInOrder(stores, limit, pages);
  }

  /** Identity values are given at the insert and seen at the commit: a message that commits
      after a later one has been read is missed. */
  lemma ALateCommitIsMissed(one: Message, two: Message, three: Message)
    requires one.id < two.id < three.id
    ensures var stores := [[one, three], [one, two, three]];
      var pages := [Page([one, three], Some(three.id)), Page([], None)];
      Walk(stores, 2, pages) && Growing(stores) && Listed(pages) == [one, three]
  {
    var first, second := [one, three], [one, two, three];
    var stores := [first, second];
    var pages := [Page(first, Some(three.id)), Page([], None)];
    PassedAt(second, 2);
    assert first[..2] == first && first[0..] == first && second[3..] == [];
    assert stores[..1] == [first] && pages[..1] == [pages[0]] && pages[..1][..0] == [];
    assert GetHistory(first, None, 2) == pages[0];
    assert GetHistory(second, Some(three.id), 2) == pages[1];
    assert Grows(first, second) by { assert second[0] == one && second[2] == three; }
    assert Listed([pages[0]]) == [] + first;
  }

  // ----- how long a walk takes

  /** Every snapshot of a history that nobody writes to. */
  ghost predicate Unchanging(stores: seq<seq<Message>>, store: seq<Message>) {
    forall r :: 0 <= r < |stores| ==> stores[r] == store
  }

  /** A full page moves the cursor on by the limit, and there is one as long as the limit
      does not go past the end. */
  lemma PageMovesOn(store: seq<Message>, afterId: Option<nat>, limit: nat)
    requires ById(store) && limit >= 1
    ensures var page := GetHistory(store, afterId, limit);
      && (page.nextCursor.Some? <==> Passed(store, afterId) + limit <= |store|)
      && (page.nextCursor.Some? ==> Passed(store, page.nextCursor) == Passed(store, afterId) + limit)
  {
    var end := PageIs(store, afterId, limit);
    EndOfPage(store, afterId, limit);
  }

  function Times(p: nat, limit: nat): nat { if p == 0 then 0 else Times(p - 1, limit) + limit }

  lemma {:induction false} TimesIs(p: nat, limit: nat)
    ensures Times(p, limit) == p * limit
  {
    if p > 0 {
      TimesIs(p - 1, limit);
      OneMore(p - 1, limit);
    }
  }

  /** After `p` full pages the cursor is `p` times the limit on. */
  predicate Advanced(store: seq<Message>, limit: nat, page: Page, p: nat)
    requires p > 0
  {
    && Times(p - 1, limit) <= |store|
    && (page.nextCursor.Some? <==> Times(p, limit) <= |store|)
    && (page.nextCursor.Some? ==> Passed(store, page.nextCursor) == Times(p, limit))
  }

  lemma NextAdvanced(store: seq<Message>, limit: nat, before: Page, p: nat)
    requires ById(store) && limit >= 1 && p > 0 && before.nextCursor.Some? && Advanced(store, limit, before, p)
    ensures Advanced(store, limit, GetHistory(store, before.nextCursor, limit), p + 1)
  {
    PageMovesOn(store, before.nextCursor, limit);
  }

  lemma UnchangingFront(stores: seq<seq<Message>>, store: seq<Message>, n: nat)
    requires Unchanging(stores, store) && n <= |stores|
    ensures Unchanging(stores[..n], store)
  {
  }

  lemma {:induction false} CursorAdvances(stores: seq<seq<Message>>, store: seq<Message>, limit: nat, pages: seq<Page>)
    requires limit >= 1 && ById(store) && Unchanging(stores, store) && Walk(stores, limit, pages)
    ensures Advanced(store, limit, pages[|pages| - 1], |pages|)
  {
    var last := |pages| - 1;
    assert stores[last] == store;
    if last == 0 {
      PageMovesOn(store, None, limit);
    } else {
      UnchangingFront(stores, store, last);
      CursorAdvances(stores[..last], store, limit, pages[..last]);
      NextAdvanced(store, limit, pages[last - 1], last);
    }
  }

  /** A walk over n messages that nobody adds to ends, and after exactly n / limit + 1 pages. */
  lemma WalkEnds(stores: seq<seq<Message>>, store: seq<Message>, limit: nat, pages: seq<Page>)
    requires limit >= 1 && ById(store) && Unchanging(stores, store) && Walk(stores, limit, pages)
    ensures |pages| <= |store| / limit + 1
    ensures pages[|pages| - 1].nextCursor == None <==> |pages| == |store| / limit + 1
  {
    CursorAdvances(stores, store, limit, pages);
    QuotientBetween(|store|, limit, |pages|);
  }

  lemma QuotientBetween(n: nat, limit: nat, p: nat)
    requires limit >= 1 && p >= 1 && Times(p - 1, limit) <= n
    ensures p <= n / limit + 1
    ensures Times(p, limit) > n <==> p == n / limit + 1
  {
    var q, r := n / limit, n % limit;
    assert n == q * limit + r;
    TimesIs(p - 1, limit);
    TimesIs(p, limit);
    OneMore(q, limit);
    TimesOrdered(q + 1, p - 1, limit);
    TimesOrdered(p, q, limit);
    TimesOrdered(q + 1, p, limit);
  }
}
