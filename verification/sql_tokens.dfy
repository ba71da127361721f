/**
 * What the statement splitter passes over, told by the text alone: comments, quotes and dollar quotes
 * hide what they contain, and every other character is skipped, but for a semicolon, which cuts.
 */
module SqlTokens {
  import opened Text
  import opened SqlLexer
  import opened SqlChunks
  import opened SqlPieces

  // ---- Single characters ----

  lemma {:induction false} SemicolonCutsHere(e: Engine, b: string, pos: nat)
    ensures Cuts(e, Normal, ";" + b, pos) == [pos] + Cuts(e, Normal, b, pos + 1)
  {
    var t := ";" + b;
    assert t[0] == ';' && t[1..] == b;
    Unfold(e, Normal, t, Token(Normal, 1, true), pos);
  }

  /** The tag name behind a dollar: nothing or a word, up to the second dollar. */
  ghost predicate TagNameAt(b: string, n: nat) {
    n < |b| && b[n] == '$' && (n > 0 ==> IsIdentStart(b[0])) && forall i | 0 <= i < n :: IsIdentPart(b[i])
  }

  /** `c` before `b` begins nothing: no quote, no comment and no dollar quote. */
  ghost predicate Ordinary(e: Engine, c: char, b: string) {
    && c != ';' && c != '\'' && c != '"'
    && (c == '`' || c == '#' ==> e == Postgresql)
    && (c == '-' ==> b == "" || b[0] != '-')
    && (c == '/' ==> b == "" || b[0] != '*')
    && (c == '$' && e == Postgresql ==> forall n: nat :: !TagNameAt(b, n))
  }

  lemma {:induction false} WordEnds(t: string, n: nat)
    requires n <= |t| && (forall i | 0 <= i < n :: IsIdentPart(t[i])) && (n == |t| || !IsIdentPart(t[n]))
    ensures WordLength(t) == n
    decreases n
  {
    if n > 0 {
      assert forall i | 0 <= i < n - 1 :: t[1..][i] == t[i + 1];
      assert n < |t| ==> t[1..][n - 1] == t[n];
      WordEnds(t[1..], n - 1);
    }
  }

  /** The tag after a dollar, as its characters say. */
  lemma {:induction false} TagIs(b: string, n: nat)
    requires TagNameAt(b, n)
    ensures TagLength("$" + b) == n + 2
  {
    var t := "$" + b;
    assert t[1..] == b && t[n + 1] == '$';
    if n > 0 {
      WordEnds(b, n);
    }
  }

  lemma {:induction false} NoTag(b: string)
    requires forall n: nat :: !TagNameAt(b, n)
    ensures TagLength("$" + b) == 0
  {
    assert ("$" + b)[1..] == b;
    WordParts(b);
    assert !TagNameAt(b, IdentLength(b));
  }

  lemma {:induction false} OrdinarySkips(e: Engine, c: char, b: string, pos: nat)
    requires Ordinary(e, c, b)
    ensures Cuts(e, Normal, [c] + b, pos) == Cuts(e, Normal, b, pos + 1)
  {
    var t := [c] + b;
    assert t[0] == c && t[1..] == b && (b != "" ==> t[1] == b[0]);
    if c == '$' && e == Postgresql {
      assert t == "$" + b;
      NoTag(b);
    }
    hide TagLength, TagNameAt;
    Unfold(e, Normal, t, Token(Normal, 1, false), pos);
  }

  // ---- Line comments ----

  lemma {:induction false} InLineComment(e: Engine, t: string, b: string, pos: nat)
    requires '\n' !in t
    ensures Cuts(e, LineComment, t + b, pos) == Cuts(e, LineComment, b, pos + |t|)
    decreases |t|
  {
    hide Cuts;
    if t == "" {
      assert t + b == b;
    } else {
      assert t[0] in t && (t + b)[0] == t[0];
      Skip(e, LineComment, t, b, Token(LineComment, 1, false), t[1..], pos);
      InLineComment(e, t[1..], b, pos + 1);
    }
  }

  lemma {:induction false} LineCommentEnds(e: Engine, t: string, b: string, pos: nat)
    requires '\n' !in t
    ensures Cuts(e, LineComment, t + ("\n" + b), pos) == Cuts(e, Normal, b, pos + |t| + 1)
    ensures Cuts(e, LineComment, t, pos) == []
  {
    hide Cuts;
    InLineComment(e, t, "\n" + b, pos);
    assert ("\n" + b)[0] == '\n' && ("\n" + b)[1..] == b;
    Unfold(e, LineComment, "\n" + b, Token(Normal, 1, false), pos + |t|);
    InLineComment(e, t, "", pos);
    assert t + "" == t && Cuts(e, LineComment, "", pos + |t|) == [] by { NothingCut(e, LineComment, pos + |t|); }
  }

  lemma {:induction false} NothingCut(e: Engine, m: Mode, pos: nat)
    ensures Cuts(e, m, "", pos) == []
  {}

  /** What opens a line comment. */
  predicate OpensLine(e: Engine, opener: string) { opener == "--" || (opener == "#" && e == Mysql) }

  /** A line comment hides everything up to its line end, or to the end of the text. */
  lemma {:induction false} LineCommentHidden(e: Engine, opener: string, t: string, b: string, pos: nat)
    requires OpensLine(e, opener) && '\n' !in t
    ensures Cuts(e, Normal, opener + (t + ("\n" + b)), pos) == Cuts(e, Normal, b, pos + |opener| + |t| + 1)
    ensures Cuts(e, Normal, opener + t, pos) == []
  {
    var k := Token(LineComment, |opener|, false);
    Opener(e, opener, t + ("\n" + b), LineComment, pos);
    Opener(e, opener, t, LineComment, pos);
    LineCommentEnds(e, t, b, pos + |opener|);
  }

  /** A token that begins with `opener` and leads to `m`. */
  lemma {:induction false} Opener(e: Engine, opener: string, rest: string, m: Mode, pos: nat)
    requires opener != "" && Step(e, Normal, opener + rest) == Token(m, |opener|, false)
    ensures Cuts(e, Normal, opener + rest, pos) == Cuts(e, m, rest, pos + |opener|)
  {
    hide Step;
    assert (opener + rest)[|opener|..] == rest;
    Unfold(e, Normal, opener + rest, Token(m, |opener|, false), pos);
  }

  // ---- Block comments ----

  /** What follows the opening of a block comment, up to its end: text, and comments within it. */
  datatype CommentBody = End(text: string) | Nest(text: string, inner: CommentBody, rest: CommentBody)

  function CommentText(body: CommentBody): string {
    match body
    case End(t) => t + "*/"
    case Nest(t, inner, rest) => t + ("/*" + (CommentText(inner) + CommentText(rest)))
  }

  /** At `i`, with `next` behind the text, a comment opens or closes. */
  predicate MarkerAt(t: string, next: char, i: nat)
    requires i < |t|
  {
    var d := if i + 1 < |t| then t[i + 1] else next;
    (t[i] == '/' && d == '*') || (t[i] == '*' && d == '/')
  }

  predicate NoMarker(t: string, next: char) { forall i | 0 <= i < |t| :: !MarkerAt(t, next, i) }

  predicate ProperComment(body: CommentBody) {
    match body
    case End(t) => NoMarker(t, '*')
    case Nest(t, inner, rest) => NoMarker(t, '/') && ProperComment(inner) && ProperComment(rest)
  }

  lemma {:induction false} NoMarkerTail(t: string, next: char)
    requires t != "" && NoMarker(t, next)
    ensures NoMarker(t[1..], next)
  {
    forall i | 0 <= i < |t[1..]|
      ensures !MarkerAt(t[1..], next, i)
    {
      assert !MarkerAt(t, next, i + 1);
    }
  }

  lemma {:induction false} InBlock(e: Engine, d: nat, t: string, b: string, pos: nat)
    requires b != "" && NoMarker(t, b[0])
    ensures Cuts(e, BlockComment(d), t + b, pos) == Cuts(e, BlockComment(d), b, pos + |t|)
    decreases |t|
  {
    hide Cuts;
    if t == "" {
      assert t + b == b;
    } else {
      var u := t + b;
      assert u[0] == t[0] && u[1] == if |t| > 1 then t[1] else b[0];
      NoMarkerTail(t, b[0]);
      assert !MarkerAt(t, b[0], 0);
      hide NoMarker;
      Skip(e, BlockComment(d), t, b, Token(BlockComment(d), 1, false), t[1..], pos);
      InBlock(e, d, t[1..], b, pos + 1);
    }
  }

  /** Two characters that open or close a comment within comments of depth `d`. */
  lemma {:induction false} MarkerStep(e: Engine, d: nat, marker: string, b: string, pos: nat)
    requires marker == "/*" || marker == "*/"
    ensures Cuts(e, BlockComment(d), marker + b, pos)
         == Cuts(e, if marker == "/*" then BlockComment(d + 1) else if d <= 1 then Normal else BlockComment(d - 1), b, pos + 2)
  {
    var m := if marker == "/*" then BlockComment(d + 1) else if d <= 1 then Normal else BlockComment(d - 1);
    assert (marker + b)[0] == marker[0] && (marker + b)[1] == marker[1] && (marker + b)[2..] == b;
    Unfold(e, BlockComment(d), marker + b, Token(m, 2, false), pos);
  }

  lemma {:induction false} BodySkips(e: Engine, d: nat, body: CommentBody, b: string, pos: nat)
    requires d >= 1 && ProperComment(body)
    ensures Cuts(e, BlockComment(d), CommentText(body) + b, pos)
         == Cuts(e, if d == 1 then Normal else BlockComment(d - 1), b, pos + |CommentText(body)|)
    decreases body
  {
    hide Cuts, Step, NoMarker;
    match body
    case End(t) =>
      Assoc(t, "*/", b);
      InBlock(e, d, t, "*/" + b, pos);
      MarkerStep(e, d, "*/", b, pos + |t|);
    case Nest(t, inner, rest) =>
      var x, y := CommentText(inner), CommentText(rest);
      assert CommentText(body) + b == t + ("/*" + (x + (y + b)));
      InBlock(e, d, t, "/*" + (x + (y + b)), pos);
      MarkerStep(e, d, "/*", x + (y + b), pos + |t|);
      BodySkips(e, d + 1, inner, y + b, pos + |t| + 2);
      BodySkips(e, d, rest, b, pos + |t| + 2 + |x|);
  }

  lemma {:induction false} OpensBlock(e: Engine, rest: string)
    ensures Step(e, Normal, "/*" + rest) == Token(BlockComment(1), 2, false)
  {
    hide TagLength;
    assert ("/*" + rest)[0] == '/' && ("/*" + rest)[1] == '*';
  }

  /** A block comment hides everything up to its own end, whatever comments it contains. */
  lemma {:induction false} BlockCommentHidden(e: Engine, body: CommentBody, b: string, pos: nat)
    requires ProperComment(body)
    ensures Cuts(e, Normal, "/*" + (CommentText(body) + b), pos) == Cuts(e, Normal, b, pos + 2 + |CommentText(body)|)
  {
    hide CommentText, ProperComment, Cuts;
    OpensBlock(e, CommentText(body) + b);
    Opener(e, "/*", CommentText(body) + b, BlockComment(1), pos);
    BodySkips(e, 1, body, b, pos + 2);
  }

  // ---- Dollar quotes ----

  predicate BeginsAt(tag: string, s: string, i: nat) { i + |tag| <= |s| && s[i..i + |tag|] == tag }

  /** `tag` begins nowhere in `body`, also not near its end where the closing tag follows. */
  predicate FreeOf(tag: string, body: string) { forall i | 0 <= i < |body| :: !BeginsAt(tag, body + tag, i) }

  lemma {:induction false} NotHere(tag: string, body: string, b: string)
    requires tag != "" && body != "" && FreeOf(tag, body)
    ensures !(tag <= body + (tag + b)) && FreeOf(tag, body[1..])
  {
    var s := body + tag;
    assert body + (tag + b) == s + b && (s + b)[..|tag|] == s[..|tag|] == s[0..|tag|];
    assert !BeginsAt(tag, s, 0);
    forall i | 0 <= i < |body[1..]|
      ensures !BeginsAt(tag, body[1..] + tag, i)
    {
      assert !BeginsAt(tag, s, i + 1);
      assert body[1..] + tag == s[1..] && s[1..][i..i + |tag|] == s[i + 1..i + 1 + |tag|];
    }
  }

  lemma {:induction false} DollarStep(e: Engine, tag: string, u: string)
    requires tag != "" && u != ""
    ensures Step(e, Dollar(tag), u) == if tag <= u then Token(Normal, |tag|, false) else Token(Dollar(tag), 1, false)
  {}

  lemma {:induction false} InDollar(e: Engine, tag: string, body: string, b: string, pos: nat)
    requires tag != "" && FreeOf(tag, body)
    ensures Cuts(e, Dollar(tag), body + (tag + b), pos) == Cuts(e, Normal, b, pos + |body| + |tag|)
    decreases |body|
  {
    hide Cuts, FreeOf, Step;
    if body == "" {
      assert body + (tag + b) == tag + b && (tag + b)[|tag|..] == b;
      DollarStep(e, tag, tag + b);
      Unfold(e, Dollar(tag), tag + b, Token(Normal, |tag|, false), pos);
    } else {
      NotHere(tag, body, b);
      DollarStep(e, tag, body + (tag + b));
      Skip(e, Dollar(tag), body, tag + b, Token(Dollar(tag), 1, false), body[1..], pos);
      InDollar(e, tag, body[1..], b, pos + 1);
    }
  }

  lemma {:induction false} OpensDollar(name: string, rest: string)
    requires TagNameAt(name + "$", |name|)
    ensures Step(Postgresql, Normal, ("$" + (name + "$")) + rest) == Token(Dollar("$" + (name + "$")), |name| + 2, false)
  {
    var tag, b := "$" + (name + "$"), name + ("$" + rest);
    assert TagNameAt(b, |name|) by {
      assert forall i | 0 <= i < |name| :: b[i] == name[i] == (name + "$")[i];
    }
    TagIs(b, |name|);
    hide TagLength, TagNameAt;
    assert tag + rest == "$" + b && (tag + rest)[..|tag|] == tag;
  }

  /** PostgreSQL: a dollar quote hides its body up to the same tag. */
  lemma {:induction false} DollarQuoteHidden(name: string, body: string, b: string, pos: nat)
    requires TagNameAt(name + "$", |name|)
    requires FreeOf("$" + (name + "$"), body)
    ensures var tag := "$" + (name + "$");
      Cuts(Postgresql, Normal, tag + (body + (tag + b)), pos) == Cuts(Postgresql, Normal, b, pos + |body| + 2 * |tag|)
  {
    hide FreeOf, Cuts, TagNameAt;
    var tag := "$" + (name + "$");
    OpensDollar(name, body + (tag + b));
    Opener(Postgresql, tag, body + (tag + b), Dollar(tag), pos);
    InDollar(Postgresql, tag, body, b, pos + |tag|);
  }

  // ---- Quotes ----

  /** The quotes of an engine. */
  predicate Quotes(e: Engine, q: char) { q == '\'' || q == '"' || (q == '`' && e == Mysql) }

  /** Within quotes: a backslash with the character it escapes, a doubled quote, or any other character. */
  predicate QuotedText(q: char, t: string) {
    t == ""
    || (t[0] == '\\' && |t| >= 2 && QuotedText(q, t[2..]))
    || (t[0] == q && |t| >= 2 && t[1] == q && QuotedText(q, t[2..]))
    || (t[0] != '\\' && t[0] != q && QuotedText(q, t[1..]))
  }

  lemma {:induction false} InQuotes(e: Engine, q: char, t: string, b: string, pos: nat)
    requires q != '\\' && QuotedText(q, t)
    ensures Cuts(e, Quoted(q), t + b, pos) == Cuts(e, Quoted(q), b, pos + |t|)
    decreases |t|
  {
    hide Cuts;
    if t == "" {
      assert t + b == b;
    } else {
      var n := if t[0] == '\\' || t[0] == q then 2 else 1;
      assert (t + b)[0] == t[0] && (n == 2 ==> (t + b)[1] == t[1]);
      Skip(e, Quoted(q), t, b, Token(Quoted(q), n, false), t[n..], pos);
      InQuotes(e, q, t[n..], b, pos + n);
    }
  }

  /** A quoted text is passed over up to its closing quote; without one, up to the end of the text. */
  lemma {:induction false} QuotedHidden(e: Engine, q: char, t: string, b: string, pos: nat)
    requires Quotes(e, q) && QuotedText(q, t) && (b == "" || b[0] != q)
    ensures Cuts(e, Normal, [q] + (t + ([q] + b)), pos) == Cuts(e, Normal, b, pos + |t| + 2)
    ensures Cuts(e, Normal, [q] + t, pos) == []
  {
    hide Cuts, QuotedText;
    Opener(e, [q], t + ([q] + b), Quoted(q), pos);
    InQuotes(e, q, t, [q] + b, pos + 1);
    var u := [q] + b;
    assert u[0] == q && u[1..] == b && (b != "" ==> u[1] == b[0]);
    Unfold(e, Quoted(q), u, Token(Normal, 1, false), pos + 1 + |t|);
    Opener(e, [q], t, Quoted(q), pos);
    InQuotes(e, q, t, "", pos + 1);
    assert t + "" == t;
    NothingCut(e, Quoted(q), pos + 1 + |t|);
  }
}
