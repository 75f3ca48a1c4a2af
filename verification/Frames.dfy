/** The boundary pattern and the framing of tool results, character by character. */
module Frames {
  import opened Seqs
  import opened Text
  import opened Untrusted

  const SMALL: string := "tool_result"
  const CAPITAL: string := "TOOL_RESULT"

  /** The characters from `i` to `k` are white space. */
  predicate SpacesFrom(s: string, i: nat, k: nat) {
    i <= k <= |s| && forall m :: i <= m < k ==> IsSpace(s[m])
  }

  /** At `k` is the tag's name, in any case; the long s is taken for an s. */
  predicate NamedAt(s: string, k: nat) {
    && k + 11 <= |s|
    && forall m :: 0 <= m < 11 ==>
         s[k + m] == SMALL[m] || s[k + m] == CAPITAL[m] || (SMALL[m] == 's' && s[k + m] == '\U{17f}')
  }

  /** A match of the pattern: `<`, white space, perhaps a `/` and white space, and the name. */
  ghost predicate Matches(s: string, j: nat, k: nat) {
    && s != "" && s[0] == '<' && SpacesFrom(s, 1, j) && NamedAt(s, k)
    && (k == j || (j < k && s[j] == '/' && SpacesFrom(s, j + 1, k)))
  }

  lemma FoldsIff(c: char, m: nat)
    requires m < 11
    ensures Folds(c, TAG[m]) <==> c == SMALL[m] || c == CAPITAL[m] || (SMALL[m] == 's' && c == '\U{17f}')
  {
  }

  lemma NameAtIff(s: string, k: nat)
    ensures NameAt(s, k) <==> NamedAt(s, k)
  {
    forall m, c | 0 <= m < 11
      ensures Folds(c, TAG[m]) <==> c == SMALL[m] || c == CAPITAL[m] || (SMALL[m] == 's' && c == '\U{17f}')
    {
      FoldsIff(c, m);
    }
  }

  /** A text opens with a boundary exactly if the pattern matches there. */
  lemma OpensBoundaryIff(s: string)
    ensures OpensBoundary(s) <==> exists j, k :: Matches(s, j, k)
  {
    if OpensBoundary(s) {
      var j, k := ShapeOf(s);
      NameAtIff(s, k);
      assert Matches(s, j, k);
    }
    if j, k :| Matches(s, j, k) {
      NameAtIff(s, k);
      ShapeOpens(s, j, k);
    }
  }

  // ----- defanging keeps the text

  /** What becomes of the character at `i`. */
  function DefangedAt(text: string, i: nat): string
    requires i < |text|
  {
    if BoundaryAt(text, i) then "&lt;" else [text[i]]
  }

  function EachDefanged(text: string): seq<string> {
    seq(|text|, i requires 0 <= i < |text| => DefangedAt(text, i))
  }

  lemma {:induction false} EscapedIsEachOnes(s: string)
    ensures Escaped(s) == Concat(EachDefanged(s))
  {
    if s != "" {
      EscapedIsEachOnes(s[1..]);
      assert s[0..] == s;
      EachOfTail(s);
    }
  }

  lemma EachOfTail(s: string)
    requires s != ""
    ensures EachDefanged(s)[1..] == EachDefanged(s[1..])
  {
    forall i | 0 <= i < |s| - 1 ensures DefangedAt(s, i + 1) == DefangedAt(s[1..], i) {
      assert s[1..][i..] == s[i + 1..];
    }
  }

  /** Defanging keeps every character of the text in its place, but for the `<` of a boundary,
      which it writes as `&lt;`. */
  lemma DefangKeepsTheText(text: string)
    ensures Defang(text) == Concat(EachDefanged(text))
  {
    DefangIsEscaped(text);
    EscapedIsEachOnes(text);
  }

  /** A wrapped result says first which tool it is from. */
  lemma WrappedSaysItsTool(name: string, body: string)
    ensures "Tool result from " + name + " -- " <= WrapToolResult(name, body)
    ensures WrapToolResult(name, body)[..OpensAt(name)] == PREAMBLE_HEAD + name + PREAMBLE_TAIL + "\n"
  {
    var front := PREAMBLE_HEAD + name + PREAMBLE_TAIL + "\n";
    WrappedParts(name, body);
    Assoc(PREAMBLE_HEAD + name, PREAMBLE_TAIL, "\n");
    assert WrapToolResult(name, body)[..|front|] == front;
    assert " -- " <= PREAMBLE_TAIL;
  }
}
