/** The words of a string, stripping, splitting at and joining with a separator, and finding
    where one first occurs.

    The point of the module is one fact: cutting or gluing text at whitespace never
    changes its words.  Everything the chunker promises about not losing text rests on it. */
module Text {
  import opened Seqs

  /** The characters `str.isspace` accepts, which are also what `\s` matches in `re`. */
  predicate IsSpace(c: char) {
    || '\t' <= c <= '\r'
    || '\U{1c}' <= c <= ' '
    || c == '\U{85}' || c == '\U{a0}' || c == '\U{1680}'
    || '\U{2000}' <= c <= '\U{200a}'
    || c == '\U{2028}' || c == '\U{2029}' || c == '\U{202f}' || c == '\U{205f}' || c == '\U{3000}'
  }

  predicate Blank(s: string) {
    forall i :: 0 <= i < |s| ==> IsSpace(s[i])
  }

  /** Length of the word `s` opens with. */
  function WordLength(s: string): (n: nat)
    ensures n <= |s|
    ensures forall i :: 0 <= i < n ==> !IsSpace(s[i])
    ensures n < |s| ==> IsSpace(s[n])
  {
    if s == "" || IsSpace(s[0]) then 0 else 1 + WordLength(s[1..])
  }

  /** `s.split()`: the maximal runs of non-space characters, in order. */
  function Words(s: string): seq<string>
    decreases |s|
  {
    if s == "" then []
    else if IsSpace(s[0]) then Words(s[1..])
    else
      var n := WordLength(s);
      [s[..n]] + Words(s[n..])
  }

  /** The words of several texts, one after another. */
  function AllWords(parts: seq<string>): seq<string> {
    if parts == [] then [] else Words(parts[0]) + AllWords(parts[1..])
  }

  function LeftStrip(s: string): (t: string)
    ensures t == "" || !IsSpace(t[0])
    ensures |t| <= |s|
  {
    if s != "" && IsSpace(s[0]) then LeftStrip(s[1..]) else s
  }

  function RightStrip(s: string): (t: string)
    ensures t <= s
    ensures t == "" || !IsSpace(t[|t| - 1])
    ensures Blank(s[|t|..])
  {
    if s != "" && IsSpace(s[|s| - 1]) then
      var t := RightStrip(s[..|s| - 1]);
      assert s[|t|..] == s[..|s| - 1][|t|..] + [s[|s| - 1]];
      t
    else s
  }

  function Strip(s: string): string {
    RightStrip(LeftStrip(s))
  }

  /** `sep.join(parts)`. */
  function Join(parts: seq<string>, sep: string): string {
    if parts == [] then ""
    else if |parts| == 1 then parts[0]
    else parts[0] + sep + Join(parts[1..], sep)
  }

  predicate StartsWith(s: string, prefix: string) {
    prefix <= s
  }

  predicate OccursAt(s: string, sep: string, i: nat) {
    i + |sep| <= |s| && s[i..i + |sep|] == sep
  }

  lemma OccursInTail(s: string, sep: string, i: nat)
    requires s != ""
    ensures OccursAt(s, sep, i + 1) <==> OccursAt(s[1..], sep, i)
  {
    if i + 1 + |sep| <= |s| { assert s[1..][i..i + |sep|] == s[i + 1..i + 1 + |sep|]; }
  }

  /** Where `sep` first occurs in `s`, or -1. */
  function IndexOf(s: string, sep: string): (k: int)
    requires sep != ""
    ensures -1 <= k
    ensures k >= 0 ==> OccursAt(s, sep, k)
    ensures forall i: nat :: OccursAt(s, sep, i) ==> 0 <= k <= i
  {
    if |s| < |sep| then -1
    else if OccursAt(s, sep, 0) then 0
    else
      var k := IndexOf(s[1..], sep);
      assert forall i: nat :: OccursAt(s, sep, i) ==> i > 0 && OccursAt(s[1..], sep, i - 1) by {
        forall i: nat | OccursAt(s, sep, i) ensures i > 0 && OccursAt(s[1..], sep, i - 1) {
          OccursInTail(s, sep, i - 1);
        }
      }
      assert k >= 0 ==> OccursAt(s, sep, k + 1) by { if k >= 0 { OccursInTail(s, sep, k); } }
      if k < 0 then -1 else k + 1
  }

  /** `s.split(sep)`, leftmost occurrences first, without overlap. */
  function Split(s: string, sep: string): (parts: seq<string>)
    requires sep != ""
    ensures |parts| >= 1
    decreases |s|
  {
    var k := IndexOf(s, sep);
    if k < 0 then [s] else [s[..k]] + Split(s[k + |sep|..], sep)
  }

  /** The end of the run of white space at `i`. */
  function SkipSpaces(s: string, i: nat): (j: nat)
    requires i <= |s|
    ensures i <= j <= |s|
    ensures Blank(s[i..j])
    ensures j < |s| ==> !IsSpace(s[j])
    decreases |s| - i
  {
    if i < |s| && IsSpace(s[i]) then
      var j := SkipSpaces(s, i + 1);
      assert s[i..j] == [s[i]] + s[i + 1..j];
      j
    else i
  }

  lemma {:induction false} SkipSpacesIs(s: string, i: nat, j: nat)
    requires i <= j <= |s| && (forall k :: i <= k < j ==> IsSpace(s[k]))
    requires j < |s| ==> !IsSpace(s[j])
    ensures SkipSpaces(s, i) == j
    decreases j - i
  {
    if i < j { SkipSpacesIs(s, i + 1, j); }
  }

  // ----- words survive cutting and gluing at whitespace

  lemma {:induction false} WordLengthIs(s: string, n: nat)
    requires n <= |s|
    requires forall i :: 0 <= i < n ==> !IsSpace(s[i])
    requires n < |s| ==> IsSpace(s[n])
    ensures WordLength(s) == n
  {
    if n > 0 { WordLengthIs(s[1..], n - 1); }
  }

  lemma WordsOfWordThen(w: string, rest: string)
    requires w != "" && forall i :: 0 <= i < |w| ==> !IsSpace(w[i])
    requires rest == "" || IsSpace(rest[0])
    ensures Words(w + rest) == [w] + Words(rest)
  {
    WordLengthIs(w + rest, |w|);
    assert (w + rest)[0] == w[0];
    assert (w + rest)[..|w|] == w && (w + rest)[|w|..] == rest;
  }

  /** Whether gluing `b` to `a` leaves every word whole. */
  predicate SeamBetweenWords(a: string, b: string) {
    a == "" || b == "" || IsSpace(a[|a| - 1]) || IsSpace(b[0])
  }

  /** The words of `a + b` are those of `a` and then those of `b`, unless the seam falls
      inside a word. */
  lemma {:induction false} WordsOfConcat(a: string, b: string)
    requires SeamBetweenWords(a, b)
    ensures Words(a + b) == Words(a) + Words(b)
    decreases |a|
  {
    if a == "" {
      assert a + b == b;
    } else if b == "" {
      assert a + b == a;
    } else if IsSpace(a[0]) {
      assert (a + b)[1..] == a[1..] + b;
      WordsOfConcat(a[1..], b);
    } else {
      WordsOfConcatAtWord(a, b, WordLength(a));
    }
  }

  lemma {:induction false} WordsOfConcatAtWord(a: string, b: string, n: nat)
    requires SeamBetweenWords(a, b)
    requires a != "" && n == WordLength(a) > 0 && b != ""
    ensures Words(a + b) == Words(a) + Words(b)
    decreases |a|, 0
  {
    var w, rest := a[..n], a[n..];
    SeamAfterWord(a, b, n);
    Regroup(a, b, n);
    WordsOfConcat(rest, b);
    WordsOfWordThen(w, rest);
    WordsOfWordThen(w, rest + b);
    Assoc([w], Words(rest), Words(b));
  }

  lemma SeamAfterWord(a: string, b: string, n: nat)
    requires SeamBetweenWords(a, b)
    requires a != "" && n == WordLength(a) && b != ""
    ensures SeamBetweenWords(a[n..], b)
    ensures a[n..] == "" || IsSpace(a[n..][0])
    ensures a[n..] + b == "" || IsSpace((a[n..] + b)[0])
  {
    if n < |a| { assert a[n..][|a| - n - 1] == a[|a| - 1]; }
  }

  lemma {:induction false} BlankHasNoWords(s: string)
    requires Blank(s)
    ensures Words(s) == []
  {
    if s != "" { BlankHasNoWords(s[1..]); }
  }

  lemma WordsOfSeparated(a: string, sep: string, b: string)
    requires sep != "" && Blank(sep)
    ensures Words(a + sep + b) == Words(a) + Words(b)
  {
    var front := a + sep;
    assert front[|front| - 1] == sep[|sep| - 1];
    WordsOfConcat(a, sep);
    WordsOfConcat(front, b);
    BlankHasNoWords(sep);
    assert Words(a) + [] == Words(a);
  }

  lemma {:induction false} LeftStripKeepsWords(s: string)
    ensures Words(LeftStrip(s)) == Words(s)
  {
    if s != "" && IsSpace(s[0]) { LeftStripKeepsWords(s[1..]); }
  }

  lemma RightStripKeepsWords(s: string)
    ensures Words(RightStrip(s)) == Words(s)
  {
    var t := RightStrip(s);
    var rest := s[|t|..];
    assert s == t + rest;
    WordsOfConcat(t, rest);
    BlankHasNoWords(rest);
  }

  lemma StripKeepsWords(s: string)
    ensures Words(Strip(s)) == Words(s)
  {
    LeftStripKeepsWords(s);
    RightStripKeepsWords(LeftStrip(s));
  }

  lemma {:induction false} AllWordsOfConcat(p: seq<string>, q: seq<string>)
    ensures AllWords(p + q) == AllWords(p) + AllWords(q)
  {
    if p == [] {
      assert p + q == q;
    } else {
      assert (p + q)[1..] == p[1..] + q;
      AllWordsOfConcat(p[1..], q);
    }
  }

  lemma AllWordsOfOne(s: string)
    ensures AllWords([s]) == Words(s)
  {
    assert AllWords([s]) == Words(s) + AllWords([s][1..]);
  }

  lemma GlueToLast(parts: seq<string>, piece: string)
    requires parts != []
    ensures var last := |parts| - 1;
            AllWords(parts[last := parts[last] + " " + piece]) == AllWords(parts) + Words(piece)
  {
    var last := |parts| - 1;
    var front, glued := parts[..last], parts[last] + " " + piece;
    assert parts[last := glued] == front + [glued] && parts == front + [parts[last]];
    AllWordsOfConcat(front, [glued]);
    AllWordsOfConcat(front, [parts[last]]);
    AllWordsOfOne(glued);
    AllWordsOfOne(parts[last]);
    WordsOfSeparated(parts[last], " ", piece);
    Assoc(AllWords(front), Words(parts[last]), Words(piece));
  }

  lemma AllWordsSnoc(parts: seq<string>, piece: string)
    ensures AllWords(parts + [piece]) == AllWords(parts) + Words(piece)
  {
    AllWordsOfConcat(parts, [piece]);
    AllWordsOfOne(piece);
  }

  lemma {:induction false} WordsOfJoin(parts: seq<string>, sep: string)
    requires sep != "" && Blank(sep)
    ensures Words(Join(parts, sep)) == AllWords(parts)
  {
    if |parts| == 1 {
      AllWordsOfOne(parts[0]);
      assert parts == [parts[0]];
    } else if |parts| > 1 {
      WordsOfSeparated(parts[0], sep, Join(parts[1..], sep));
      WordsOfJoin(parts[1..], sep);
    }
  }

  /** Splitting and joining on the same separator is the identity. */
  lemma {:induction false} JoinOfSplit(s: string, sep: string)
    requires sep != ""
    ensures Join(Split(s, sep), sep) == s
    decreases |s|
  {
    var k := IndexOf(s, sep);
    if k >= 0 {
      JoinOfSplit(s[k + |sep|..], sep);
      var rest := Split(s[k + |sep|..], sep);
      assert ([s[..k]] + rest)[1..] == rest;
      assert s == s[..k] + s[k..k + |sep|] + s[k + |sep|..];
    }
  }

  lemma {:induction false} JoinSnoc(parts: seq<string>, part: string, sep: string)
    requires parts != []
    ensures Join(parts + [part], sep) == Join(parts, sep) + sep + part
  {
    if |parts| > 1 {
      assert (parts + [part])[1..] == parts[1..] + [part];
      JoinSnoc(parts[1..], part, sep);
      Assoc(parts[0] + sep, Join(parts[1..], sep), sep);
      Assoc(parts[0] + sep, Join(parts[1..], sep) + sep, part);
    } else {
      assert (parts + [part])[1..] == [part];
    }
  }

  /** Each group of parts joined with a space. */
  function Glued(groups: seq<seq<string>>): seq<string> {
    seq(|groups|, k requires 0 <= k < |groups| => Join(groups[k], " "))
  }

  // ----- what words and parts are

  /** Gaps and words by turns, a gap first and last. */
  function Woven(gaps: seq<string>, words: seq<string>): string
    requires |gaps| == |words| + 1
  {
    if words == [] then gaps[0] else gaps[0] + words[0] + Woven(gaps[1..], words[1..])
  }

  predicate IsWord(w: string) {
    w != "" && forall i :: 0 <= i < |w| ==> !IsSpace(w[i])
  }

  /** Blank gaps, none of them empty but perhaps the first and the last. */
  predicate AreGaps(gaps: seq<string>) {
    forall k :: 0 <= k < |gaps| ==> Blank(gaps[k]) && (0 < k < |gaps| - 1 ==> gaps[k] != "")
  }

  lemma GapsBefore(gap: string, gaps: seq<string>)
    requires Blank(gap) && gaps != [] && AreGaps(gaps) && (|gaps| > 1 ==> gaps[0] != "")
    ensures AreGaps([gap] + gaps)
  {
    var all := [gap] + gaps;
    forall k | 0 <= k < |all| ensures Blank(all[k]) && (0 < k < |all| - 1 ==> all[k] != "") {
      if k > 0 { assert all[k] == gaps[k - 1]; }
    }
  }

  lemma WiderGap(c: char, gaps: seq<string>)
    requires IsSpace(c) && gaps != [] && AreGaps(gaps)
    ensures AreGaps([[c] + gaps[0]] + gaps[1..])
  {
    var all := [[c] + gaps[0]] + gaps[1..];
    forall k | 0 <= k < |all| ensures Blank(all[k]) && (0 < k < |all| - 1 ==> all[k] != "") {
      if k > 0 { assert all[k] == gaps[k]; }
    }
  }

  /** The words of a text are its maximal runs of characters that are no white space: they and
      the blank gaps between them, by turns, are the text. */
  lemma {:induction false} WordsAreTheRuns(s: string) returns (gaps: seq<string>)
    ensures |gaps| == |Words(s)| + 1 && AreGaps(gaps)
    ensures Woven(gaps, Words(s)) == s
    ensures AreWords(Words(s))
    ensures s != "" ==> (IsSpace(s[0]) <==> gaps[0] != "")
    decreases |s|
  {
    if s == "" {
      gaps := [""];
    } else if IsSpace(s[0]) {
      var rest := WordsAreTheRuns(s[1..]);
      gaps := [[s[0]] + rest[0]] + rest[1..];
      WiderGap(s[0], rest);
      WovenWider(s[0], rest, Words(s));
      assert s == [s[0]] + s[1..];
    } else {
      var n := WordLength(s);
      var rest := WordsAreTheRuns(s[n..]);
      gaps := [""] + rest;
      assert s == s[..n] + s[n..];
      GapsBefore("", rest);
      WovenMore(s[..n], rest, Words(s[n..]));
      WordsMore(s[..n], Words(s[n..]));
    }
  }

  predicate AreWords(words: seq<string>) {
    forall k :: 0 <= k < |words| ==> IsWord(words[k])
  }

  lemma WordsMore(w: string, words: seq<string>)
    requires IsWord(w) && AreWords(words)
    ensures AreWords([w] + words)
  {
  }

  lemma WovenNext(gaps: seq<string>, words: seq<string>)
    requires |gaps| == |words| + 1 && words != []
    ensures Woven(gaps, words) == gaps[0] + words[0] + Woven(gaps[1..], words[1..])
  {
  }

  lemma WovenMore(w: string, gaps: seq<string>, words: seq<string>)
    requires |gaps| == |words| + 1
    ensures Woven([""] + gaps, [w] + words) == w + Woven(gaps, words)
  {
    var moreGaps, moreWords := [""] + gaps, [w] + words;
    WovenNext(moreGaps, moreWords);
    assert moreGaps[1..] == gaps && moreWords[1..] == words;
    assert "" + w == w;
  }

  lemma WovenWider(c: char, gaps: seq<string>, words: seq<string>)
    requires |gaps| == |words| + 1
    ensures Woven([[c] + gaps[0]] + gaps[1..], words) == [c] + Woven(gaps, words)
  {
    var all := [[c] + gaps[0]] + gaps[1..];
    assert all[1..] == gaps[1..];
    if words != [] {
      Assoc([c], gaps[0], words[0]);
      Assoc([c], gaps[0] + words[0], Woven(gaps[1..], words[1..]));
    }
  }

  /** The words of several texts are each one's words, one text after another. */
  lemma {:induction false} AllWordsAreEachOnes(parts: seq<string>)
    ensures AllWords(parts) == Concat(seq(|parts|, i requires 0 <= i < |parts| => Words(parts[i])))
  {
    if parts != [] {
      AllWordsAreEachOnes(parts[1..]);
      var all := seq(|parts|, i requires 0 <= i < |parts| => Words(parts[i]));
      assert all[1..] == seq(|parts| - 1, i requires 0 <= i < |parts| - 1 => Words(parts[1..][i]));
    }
  }

  /** The separator behind the part is the first one from its start. */
  predicate EndsPart(part: string, sep: string)
    requires sep != ""
  {
    IndexOf(part + sep, sep) == |part|
  }

  predicate HasNone(part: string, sep: string)
    requires sep != ""
  {
    IndexOf(part, sep) < 0
  }

  /** Every part but the last ends at the first separator, and the last has none in it. */
  predicate CutAtFirst(parts: seq<string>, sep: string)
    requires sep != ""
  {
    && parts != []
    && (forall k :: 0 <= k < |parts| - 1 ==> EndsPart(parts[k], sep))
    && HasNone(parts[|parts| - 1], sep)
  }

  lemma CutAtFirstMore(part: string, parts: seq<string>, sep: string)
    requires sep != "" && CutAtFirst(parts, sep) && EndsPart(part, sep)
    ensures CutAtFirst([part] + parts, sep)
  {
  }

  lemma CutAtFirstOne(part: string, sep: string)
    requires sep != "" && HasNone(part, sep)
    ensures CutAtFirst([part], sep)
  {
  }

  /** Splitting cuts at the first separator, and again behind it. */
  lemma {:induction false} SplitAtFirstSeparators(s: string, sep: string) returns (parts: seq<string>)
    requires sep != ""
    ensures parts == Split(s, sep) && CutAtFirst(parts, sep)
    decreases |s|
  {
    var k := IndexOf(s, sep);
    if k >= 0 {
      var rest := SplitAtFirstSeparators(s[k + |sep|..], sep);
      FirstIn(s, sep, k);
      CutAtFirstMore(s[..k], rest, sep);
      parts := [s[..k]] + rest;
    } else {
      CutAtFirstOne(s, sep);
      parts := [s];
    }
  }

  lemma FirstIn(s: string, sep: string, k: nat)
    requires sep != "" && IndexOf(s, sep) == k
    ensures k + |sep| <= |s| && EndsPart(s[..k], sep)
  {
    assert OccursAt(s, sep, k);
    PrefixTo(s, sep, k);
    FirstInPrefix(s, s[..k] + sep, sep, k);
  }

  lemma PrefixTo(s: string, sep: string, k: nat)
    requires OccursAt(s, sep, k)
    ensures s[..k] + sep <= s && OccursAt(s[..k] + sep, sep, k)
  {
    assert s[..k] + sep == s[..k + |sep|];
  }

  lemma FirstInPrefix(s: string, head: string, sep: string, k: nat)
    requires sep != "" && head <= s && OccursAt(head, sep, k) && IndexOf(s, sep) == k
    ensures IndexOf(head, sep) == k
  {
    var i := IndexOf(head, sep);
    if i >= 0 { OccursInPrefix(s, head, sep, i); }
  }

  lemma OccursInPrefix(s: string, head: string, sep: string, i: nat)
    requires head <= s && OccursAt(head, sep, i)
    ensures OccursAt(s, sep, i)
  {
    assert s[i..i + |sep|] == head[i..i + |sep|];
  }

  /** Stripping takes the white space off the left end and nothing else. */
  lemma {:induction false} LeftStripIs(s: string)
    ensures var n := |s| - |LeftStrip(s)|;
      LeftStrip(s) == s[n..] && Blank(s[..n])
  {
    if s != "" && IsSpace(s[0]) {
      LeftStripIs(s[1..]);
      var t := LeftStrip(s[1..]);
      assert s[..|s| - |t|] == [s[0]] + s[1..][..|s| - 1 - |t|];
    }
  }

  /** A text is its stripped form between blanks, and that has no white space at its ends. */
  lemma StripIs(s: string) returns (a: string, b: string)
    ensures s == a + Strip(s) + b && Blank(a) && Blank(b)
    ensures Strip(s) != "" ==> !IsSpace(Strip(s)[0]) && !IsSpace(Strip(s)[|Strip(s)| - 1])
  {
    var t := LeftStrip(s);
    LeftStripIs(s);
    a, b := s[..|s| - |t|], t[|Strip(s)|..];
    assert s == a + t && t == Strip(s) + b;
    Assoc(a, Strip(s), b);
  }
}
