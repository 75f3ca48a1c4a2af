/** eval/judge.py: finding the JSON object in a model's reply. */
module Judge {
  import opened Seqs
  import opened Text

  // ----- the scanner

  datatype Mode = Outside | InString | AfterBackslash

  /** How far behind the head of `s` the object closes that is `depth` braces deep there. */
  function Extent(s: string, depth: int, mode: Mode): (end: Option<nat>)
    ensures end.Some? ==> end.value < |s|
  {
    if s == "" then None
    else
      var c := s[0];
      match mode
      case AfterBackslash => Behind(Extent(s[1..], depth, InString), 1)
      case InString =>
        Behind(Extent(s[1..], depth, if c == '\\' then AfterBackslash else if c == '"' then Outside else InString), 1)
      case Outside =>
        if c == '"' then Behind(Extent(s[1..], depth, InString), 1)
        else if c == '{' then Behind(Extent(s[1..], depth + 1, Outside), 1)
        else if c == '}' then (if depth == 1 then Some(0) else Behind(Extent(s[1..], depth - 1, Outside), 1))
        else Behind(Extent(s[1..], depth, Outside), 1)
  }

  function Behind(end: Option<nat>, n: nat): Option<nat> {
    match end case None => None case Some(k) => Some(k + n)
  }

  /** The JSON object that begins at `start`, if it closes. */
  function Block(text: string, start: nat): (block: Option<string>)
    requires start <= |text|
  {
    match Extent(text[start..], 0, Outside)
    case None => None
    case Some(end) => Some(text[start..start + end + 1])
  }

  /** The scanner's depth and mode after one more character, None when the object closes. */
  function Scan(depth: int, mode: Mode, c: char): Option<(int, Mode)> {
    match mode
    case AfterBackslash => Some((depth, InString))
    case InString => Some((depth, if c == '\\' then AfterBackslash else if c == '"' then Outside else InString))
    case Outside =>
      if c == '"' then Some((depth, InString))
      else if c == '{' then Some((depth + 1, Outside))
      else if c == '}' then (if depth == 1 then None else Some((depth - 1, Outside)))
      else Some((depth, Outside))
  }

  /** Where the object closes for a scanner at `index`. */
  function Closes(text: string, index: nat, depth: int, mode: Mode): Option<nat>
    requires index <= |text|
    decreases |text| - index
  {
    if index == |text| then None
    else
      match Scan(depth, mode, text[index])
      case None => Some(index)
      case Some((d, m)) => Closes(text, index + 1, d, m)
  }

  lemma {:induction false} ClosesIs(text: string, index: nat, depth: int, mode: Mode)
    requires index <= |text|
    ensures Closes(text, index, depth, mode) == Behind(Extent(text[index..], depth, mode), index)
    decreases |text| - index
  {
    if index < |text| {
      var rest := text[index..];
      assert rest[0] == text[index] && rest[1..] == text[index + 1..];
      match Scan(depth, mode, text[index]) {
        case None =>
        case Some((d, m)) =>
          ClosesIs(text, index + 1, d, m);
          BehindTwice(Extent(rest[1..], d, m), 1, index);
      }
    }
  }

  lemma BehindTwice(end: Option<nat>, m: nat, n: nat)
    ensures Behind(Behind(end, m), n) == Behind(end, m + n)
  {
  }

  function ModeOf(inString: bool, escaped: bool): Mode {
    if escaped then AfterBackslash else if inString then InString else Outside
  }

  /** `_balanced`: one pass with a depth and two flags. */
  method Balanced(text: string, start: nat) returns (block: Option<string>)
    requires start <= |text|
    ensures block == Block(text, start)
  {
    var depth, inString, escaped := 0, false, false;
    ClosesIs(text, start, 0, Outside);
    for index := start to |text|
      invariant escaped ==> inString
      invariant Closes(text, start, 0, Outside) == Closes(text, index, depth, ModeOf(inString, escaped))
    {
      var c := text[index];
      if inString {
        if escaped {
          escaped := false;
        } else if c == '\\' {
          escaped := true;
        } else if c == '"' {
          inString := false;
        }
        continue;
      }
      if c == '"' {
        inString := true;
      } else if c == '{' {
        depth := depth + 1;
      } else if c == '}' {
        depth := depth - 1;
        if depth == 0 { return Some(text[start..index + 1]); }
      }
    }
    block := None;
  }

  // ----- JSON text

  /** A character of a string literal, as in section 7 of RFC 8259: any but the quote and the
      backslash, or a backslash and whatever it escapes.  Of \uXXXX the digits are plain. */
  datatype StringChar = Char(c: char) | Escape(c: char)

  /** JSON text, whatever its layout: what is neither a string nor an object is brackets,
      commas, colons, numbers, literals and white space. */
  datatype Json = Other(text: string) | String(chars: seq<StringChar>) | Object(parts: seq<Json>)

  predicate IsJson(j: Json) {
    match j
    case Other(text) => forall i :: 0 <= i < |text| ==> text[i] !in {'"', '{', '}'}
    case String(chars) => forall i :: 0 <= i < |chars| ==> chars[i].Char? ==> chars[i].c !in {'"', '\\'}
    case Object(parts) => forall i :: 0 <= i < |parts| ==> IsJson(parts[i])
  }

  function PrintChar(c: StringChar): string {
    match c case Char(c) => [c] case Escape(c) => ['\\', c]
  }

  function PrintChars(chars: seq<StringChar>): string {
    if chars == [] then ""
    else PrintChar(chars[0]) + PrintChars(chars[1..])
  }

  function Print(j: Json): string
    decreases j
  {
    match j
    case Other(text) => text
    case String(chars) => "\"" + PrintChars(chars) + "\""
    case Object(parts) => "{" + PrintAll(j, parts) + "}"
  }

  function PrintAll(ghost whole: Json, parts: seq<Json>): string
    requires forall i :: 0 <= i < |parts| ==> parts[i] < whole
    decreases whole, |parts|
  {
    if parts == [] then "" else Print(parts[0]) + PrintAll(whole, parts[1..])
  }

  lemma {:induction false} SkipsOther(text: string, rest: string, depth: int)
    requires IsJson(Other(text))
    ensures Extent(text + rest, depth, Outside) == Behind(Extent(rest, depth, Outside), |text|)
  {
    if text == "" {
      assert text + rest == rest;
    } else {
      assert (text + rest)[1..] == text[1..] + rest;
      SkipsOther(text[1..], rest, depth);
      BehindTwice(Extent(rest, depth, Outside), |text| - 1, 1);
    }
  }

  lemma SkipsChar(c: StringChar, tail: string, depth: int)
    requires IsJson(String([c]))
    ensures Extent(PrintChar(c) + tail, depth, InString) == Behind(Extent(tail, depth, InString), |PrintChar(c)|)
  {
    assert [c][0] == c;
    assert (PrintChar(c) + tail)[|PrintChar(c)|..] == tail;
    if c.Escape? {
      assert (PrintChar(c) + tail)[1..][1..] == tail;
      BehindTwice(Extent(tail, depth, InString), 1, 1);
    }
  }

  lemma {:induction false} SkipsChars(chars: seq<StringChar>, rest: string, depth: int)
    requires IsJson(String(chars))
    ensures Extent(PrintChars(chars) + rest, depth, InString)
         == Behind(Extent(rest, depth, InString), |PrintChars(chars)|)
  {
    if chars == [] {
      assert "" + rest == rest;
    } else {
      var head := PrintChar(chars[0]);
      Assoc(head, PrintChars(chars[1..]), rest);
      SkipsChar(chars[0], PrintChars(chars[1..]) + rest, depth);
      SkipsChars(chars[1..], rest, depth);
      BehindTwice(Extent(rest, depth, InString), |PrintChars(chars[1..])|, |head|);
    }
  }

  /** Inside an object the scanner passes over any piece of JSON and is where it was. */
  lemma {:induction false} SkipsJson(j: Json, rest: string, depth: int)
    requires IsJson(j) && depth >= 1
    ensures Extent(Print(j) + rest, depth, Outside) == Behind(Extent(rest, depth, Outside), |Print(j)|)
    decreases j
  {
    match j {
      case Other(text) => SkipsOther(text, rest, depth);
      case String(chars) => SkipsString(chars, rest, depth);
      case Object(parts) =>
        SkipsParts(j, parts, "}" + rest, depth + 1);
        SkipsBraces(PrintAll(j, parts), rest, depth);
    }
  }

  lemma SkipsString(chars: seq<StringChar>, rest: string, depth: int)
    requires IsJson(String(chars))
    ensures Extent(Print(String(chars)) + rest, depth, Outside)
         == Behind(Extent(rest, depth, Outside), |Print(String(chars))|)
  {
    var body, tail := PrintChars(chars), "\"" + rest;
    var all := "\"" + (body + tail);
    assert Print(String(chars)) + rest == all;
    assert all[1..] == body + tail && tail[1..] == rest;
    SkipsChars(chars, tail, depth);
    BehindTwice(Extent(rest, depth, Outside), 1, |body|);
    BehindTwice(Extent(rest, depth, Outside), 1 + |body|, 1);
  }

  lemma SkipsBraces(body: string, rest: string, depth: int)
    requires depth >= 1
    requires Extent(body + ("}" + rest), depth + 1, Outside)
          == Behind(Extent("}" + rest, depth + 1, Outside), |body|)
    ensures Extent("{" + body + "}" + rest, depth, Outside)
         == Behind(Extent(rest, depth, Outside), |"{" + body + "}"|)
  {
    var tail := "}" + rest;
    var all := "{" + (body + tail);
    assert "{" + body + "}" + rest == all;
    assert all[1..] == body + tail && tail[1..] == rest;
    BehindTwice(Extent(rest, depth, Outside), 1, |body|);
    BehindTwice(Extent(rest, depth, Outside), 1 + |body|, 1);
  }

  lemma {:induction false} SkipsParts(whole: Json, parts: seq<Json>, rest: string, depth: int)
    requires depth >= 1 && forall i :: 0 <= i < |parts| ==> IsJson(parts[i]) && parts[i] < whole
    ensures Extent(PrintAll(whole, parts) + rest, depth, Outside)
         == Behind(Extent(rest, depth, Outside), |PrintAll(whole, parts)|)
    decreases whole, |parts|
  {
    if parts == [] {
      assert "" + rest == rest;
    } else {
      var tail := PrintAll(whole, parts[1..]);
      Assoc(Print(parts[0]), tail, rest);
      SkipsJson(parts[0], tail + rest, depth);
      SkipsParts(whole, parts[1..], rest, depth);
      BehindTwice(Extent(rest, depth, Outside), |tail|, |Print(parts[0])|);
    }
  }

  /** From the brace that opens a JSON object the scanner finds the brace that closes it,
      whatever its strings contain and whatever follows. */
  lemma ExtentOfObject(parts: seq<Json>, rest: string)
    requires IsJson(Object(parts))
    ensures Extent(Print(Object(parts)) + rest, 0, Outside) == Some(|Print(Object(parts))| - 1)
  {
    var j := Object(parts);
    var body := PrintAll(j, parts);
    var tail := "}" + rest;
    assert Print(j) + rest == "{" + (body + tail);
    assert ("{" + (body + tail))[1..] == body + tail;
    SkipsParts(j, parts, tail, 1);
    assert Extent(tail, 1, Outside) == Some(0);
  }

  /** For any text before and after a printed object, `_balanced` at its start is exactly
      the object. */
  lemma BalancedIsTheObject(before: string, parts: seq<Json>, after: string)
    requires IsJson(Object(parts))
    ensures var text, block := before + Print(Object(parts)) + after, Print(Object(parts));
      Block(text, |before|) == Some(block)
  {
    var text, block := before + Print(Object(parts)) + after, Print(Object(parts));
    ExtentOfObject(parts, after);
    assert text[|before|..] == block + after;
    assert text[|before|..|before| + |block|] == block;
  }

  // ----- the judge's reply

  /** What parsing a reply needs from elsewhere: the JSON parser, for a document (its
      "claims", if that is a list) and for one claim object, the regular expression for
      fences, and the one for claim objects. */
  datatype Parser<!C> = Parser(
    loads: string -> Option<Option<seq<C>>>,
    loadsClaim: string -> Option<C>,
    unfence: string -> string,
    claimObjects: string -> seq<string>)

  function Claim<C>(p: Parser<C>, block: string): seq<C> {
    match p.loadsClaim(block) case None => [] case Some(claim) => [claim]
  }

  function Salvaged<C>(p: Parser<C>, objects: seq<string>): seq<C> {
    if objects == [] then [] else Claim(p, objects[0]) + Salvaged(p, objects[1..])
  }

  lemma OneSalvaged<C>(p: Parser<C>, salvaged: seq<C>, objects: seq<string>, n: nat)
    requires n < |objects|
    ensures salvaged + Salvaged(p, objects[n..]) == salvaged + Claim(p, objects[n]) + Salvaged(p, objects[n + 1..])
    ensures salvaged + [] == salvaged
  {
    assert objects[n..][1..] == objects[n + 1..];
    Assoc(salvaged, Claim(p, objects[n]), Salvaged(p, objects[n + 1..]));
  }

  function Unfenced<C>(p: Parser<C>, content: string): string {
    var text := Strip(content);
    if StartsWith(text, "```") then Strip(p.unfence(text)) else text
  }

  /** The claims of the first object in the text, if it closes and parses to a list of them. */
  function Whole<C>(p: Parser<C>, text: string): Option<seq<C>> {
    var start := IndexOf(text, "{");
    if start < 0 then None
    else
      match Block(text, start)
      case None => None
      case Some(block) =>
        match p.loads(block)
        case None => None
        case Some(claims) => claims
  }

  /** The salvage loop: the claim objects that parse, in the order they appear. */
  method Salvage<C>(p: Parser<C>, objects: seq<string>) returns (salvaged: seq<C>)
    ensures salvaged == Salvaged(p, objects)
  {
    salvaged := [];
    for n := 0 to |objects|
      invariant salvaged + Salvaged(p, objects[n..]) == Salvaged(p, objects)
    {
      OneSalvaged(p, salvaged, objects, n);
      var claim := p.loadsClaim(objects[n]);
      if claim.Some? { salvaged := salvaged + [claim.value]; }
    }
    assert objects[|objects|..] == [];
  }

  /** The claims of a reply: those of the document if it parses, else whatever single claims
      can be salvaged; None where the program raises ValueError. */
  method ParseJudge<C>(p: Parser<C>, content: string) returns (claims: Option<seq<C>>)
    ensures var text := Unfenced(p, content);
      claims == if Whole(p, text).Some? then Whole(p, text)
                else if IndexOf(text, "{") >= 0 && Salvaged(p, p.claimObjects(text)) != []
                then Some(Salvaged(p, p.claimObjects(text)))
                else None
  {
    var text := Strip(content);
    if StartsWith(text, "```") { text := Strip(p.unfence(text)); }
    var start := IndexOf(text, "{");
    if start < 0 { return None; }
    var block := Balanced(text, start);
    if block.Some? {
      var payload := p.loads(block.value);
      if payload.Some? && payload.value.Some? { return payload.value; }
    }
    var salvaged := Salvage(p, p.claimObjects(text));
    claims := if salvaged != [] then Some(salvaged) else None;
  }

  lemma {:induction false} LeftStripBefore(x: string, y: string)
    requires y != "" && !IsSpace(y[0])
    ensures LeftStrip(x + y) == LeftStrip(x) + y
  {
    if x == "" {
      assert x + y == y;
    } else {
      assert (x + y)[1..] == x[1..] + y;
      if IsSpace(x[0]) { LeftStripBefore(x[1..], y); }
    }
  }

  lemma {:induction false} RightStripBehind(x: string, y: string)
    requires x != "" && !IsSpace(x[|x| - 1])
    ensures RightStrip(x + y) == x + RightStrip(y)
  {
    if y == "" {
      assert x + y == x;
    } else {
      assert (x + y)[..|x + y| - 1] == x + y[..|y| - 1];
      if IsSpace(y[|y| - 1]) { RightStripBehind(x, y[..|y| - 1]); }
    }
  }

  /** Stripping a reply leaves the object in it alone. */
  lemma StripAround(before: string, block: string, after: string)
    requires block != "" && !IsSpace(block[0]) && !IsSpace(block[|block| - 1])
    ensures Strip(before + block + after) == LeftStrip(before) + block + RightStrip(after)
  {
    Assoc(before, block, after);
    LeftStripBefore(before, block + after);
    Assoc(LeftStrip(before), block, after);
    RightStripBehind(LeftStrip(before) + block, after);
  }

  lemma {:induction false} LeftStripAddsNoBrace(s: string)
    requires '{' !in s
    ensures '{' !in LeftStrip(s)
  {
    if s != "" && IsSpace(s[0]) { LeftStripAddsNoBrace(s[1..]); }
  }

  lemma FirstBrace(x: string, block: string, y: string)
    requires '{' !in x && block != "" && block[0] == '{'
    ensures IndexOf(x + block + y, "{") == |x|
  {
    var text := x + block + y;
    assert text[|x|..|x| + 1] == "{";
    assert OccursAt(text, "{", |x|);
    forall i | 0 <= i < |x| ensures !OccursAt(text, "{", i) {
      assert text[i] == x[i] && x[i] in x && text[i..i + 1][0] == text[i];
    }
  }

  /** Tail text never gets in the way: an unfenced reply with no brace before a printed
      object whose claims parse to a list yields that list, whatever follows. */
  lemma UnfencedReplyYieldsItsClaims<C>(p: Parser<C>, before: string, parts: seq<Json>, after: string, claims: seq<C>)
    requires IsJson(Object(parts)) && '{' !in before
    requires p.loads(Print(Object(parts))) == Some(Some(claims))
    requires !StartsWith(Strip(before + Print(Object(parts)) + after), "```")
    ensures var content := before + Print(Object(parts)) + after;
      Whole(p, Unfenced(p, content)) == Some(claims)
  {
    var block := Print(Object(parts));
    assert block[0] == '{' && block[|block| - 1] == '}';
    StripAround(before, block, after);
    LeftStripAddsNoBrace(before);
    FirstBrace(LeftStrip(before), block, RightStrip(after));
    BalancedIsTheObject(LeftStrip(before), parts, RightStrip(after));
  }

  /** The text a reply is read from: without the white space around it and, if it opens with a
      fence, without the fences. */
  predicate IsRead<C>(p: Parser<C>, content: string, text: string) {
    text == if "```" <= Strip(content) then Strip(p.unfence(Strip(content))) else Strip(content)
  }

  /** Fenced or not, a reply whose text has no brace before a printed object with a list of
      claims yields that list, whatever follows. */
  lemma ReplyYieldsItsClaims<C>(p: Parser<C>, content: string, before: string, parts: seq<Json>, after: string,
                                claims: seq<C>)
    requires IsRead(p, content, before + Print(Object(parts)) + after)
    requires IsJson(Object(parts)) && '{' !in before
    requires p.loads(Print(Object(parts))) == Some(Some(claims))
    ensures Whole(p, Unfenced(p, content)) == Some(claims)
  {
    FirstBrace(before, Print(Object(parts)), after);
    BalancedIsTheObject(before, parts, after);
  }

  /** Without a closed object whose claims are a list, what is left is to salvage; and without
      a brace, nothing. */
  lemma NoWholeReply<C>(p: Parser<C>, text: string)
    ensures '{' !in text ==> Whole(p, text) == None && IndexOf(text, "{") < 0
    ensures IndexOf(text, "{") >= 0 ==>
      var block := Block(text, IndexOf(text, "{"));
      && (block.None? ==> Whole(p, text) == None)
      && (block.Some? && p.loads(block.value) == None ==> Whole(p, text) == None)
      && (block.Some? && p.loads(block.value) == Some(None) ==> Whole(p, text) == None)
  {
    var k := IndexOf(text, "{");
    if k >= 0 {
      assert OccursAt(text, "{", k);
      assert text[k..k + 1][0] == text[k] && text[k] in text;
    }
  }

  lemma {:induction false} UnclosedInside(text: string, depth: int, mode: Mode, n: nat)
    requires n <= |text| && (Extent(text, depth, mode).Some? ==> n <= Extent(text, depth, mode).value)
    ensures Extent(text[..n], depth, mode) == None
    decreases n
  {
    if n > 0 {
      var front := text[..n];
      assert front[0] == text[0] && front[1..] == text[1..][..n - 1];
      match Scan(depth, mode, text[0]) {
        case None =>
        case Some((d, m)) => UnclosedInside(text[1..], d, m, n - 1);
      }
    }
  }

  /** An object that is cut off never closes: no block is found in it. */
  lemma CutOffObjectNeverCloses(parts: seq<Json>, n: nat)
    requires IsJson(Object(parts)) && n < |Print(Object(parts))|
    ensures Block(Print(Object(parts))[..n], 0) == None
  {
    var text := Print(Object(parts));
    ExtentOfObject(parts, "");
    assert text + "" == text;
    UnclosedInside(text, 0, Outside, n);
    assert text[..n][0..] == text[..n];
  }

  function ClaimIn<C>(p: Parser<C>, block: string): seq<C> {
    if p.loadsClaim(block).Some? then [p.loadsClaim(block).value] else []
  }

  function EachClaim<C>(p: Parser<C>, objects: seq<string>): seq<seq<C>> {
    seq(|objects|, n requires 0 <= n < |objects| => ClaimIn(p, objects[n]))
  }

  /** What is salvaged is each claim that parses, in order. */
  lemma {:induction false} SalvagedAreEachOnes<C>(p: Parser<C>, objects: seq<string>)
    ensures Salvaged(p, objects) == Concat(EachClaim(p, objects))
  {
    if objects != [] {
      SalvagedAreEachOnes(p, objects[1..]);
      assert EachClaim(p, objects)[1..] == EachClaim(p, objects[1..]);
    }
  }
}
