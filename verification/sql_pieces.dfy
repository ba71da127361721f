/**
 * How the splitter reads printed SQL: plain text with quoted literals in between. A literal prints
 * its quote doubled, while the splitter also takes a backslash as an escape; the two agree exactly
 * on the bodies that `Safe` describes, and a text with an unsafe literal never comes back into step.
 */
module SqlPieces {
  import opened Text
  import opened SqlLexer
  import opened SqlChunks

  datatype Piece = Plain(text: string) | Literal(quote: char, body: string)

  function Doubled(q: char, s: string): (r: string)
    ensures |r| >= |s|
  {
    ReplaceAllLength(s, q, [q, q]);
    ReplaceAll(s, q, [q, q])
  }

  function Render(p: Piece): string {
    match p
    case Plain(t) => t
    case Literal(q, s) => [q] + Doubled(q, s) + [q]
  }

  function RenderAll(ps: seq<Piece>): string {
    if ps == [] then "" else Render(ps[0]) + RenderAll(ps[1..])
  }

  /** Pairing every backslash with the character after it, no quote and not the end is escaped. */
  predicate Safe(q: char, s: string) {
    if s == "" then true
    else if s[0] == '\\' then |s| >= 2 && s[1] != q && Safe(q, s[2..])
    else Safe(q, s[1..])
  }

  predicate PlainChar(c: char) {
    && c != '-' && c != '/' && c != '*' && c != '\'' && c != '"' && c != '`'
    && c != '$' && c != '#' && c != ';' && c != '\\' && c != '\n'
  }

  /** Text without any character the splitter reacts to, apart from single dashes. */
  predicate PlainText(t: string) {
    t == "" || ((PlainChar(t[0]) || (t[0] == '-' && |t| > 1 && t[1] != '-')) && PlainText(t[1..]))
  }

  /** Literals use the engine's quotes and are followed by plain text. */
  predicate WellFormed(e: Engine, ps: seq<Piece>) {
    ps == [] || (
      && WellFormed(e, ps[1..])
      && match ps[0]
         case Plain(t) => t != "" && PlainText(t)
         case Literal(q, _) => IsQuote(e, q) && |ps| > 1 && ps[1].Plain?)
  }

  predicate AllSafe(ps: seq<Piece>) {
    ps == [] || ((ps[0].Literal? ==> Safe(ps[0].quote, ps[0].body)) && AllSafe(ps[1..]))
  }

  // ---- Reading one token of a longer text ----

  /** From position `pos + |t|` on, `t + b` is cut like `b` alone read in mode `m2`. */
  ghost predicate Reaches(e: Engine, m: Mode, t: string, b: string, pos: nat, m2: Mode) {
    forall c | c >= pos + |t| :: c in Cuts(e, m, t + b, pos) <==> c in Cuts(e, m2, b, pos + |t|)
  }

  lemma ReachesEmpty(e: Engine, m: Mode, b: string, pos: nat)
    ensures Reaches(e, m, "", b, pos, m)
  {
    hide Cuts;
    assert "" + b == b;
  }

  /** `k` is the first token of `t + b` and ends inside `t`. */
  lemma Advance(e: Engine, m: Mode, t: string, b: string, k: Token, rest: string, pos: nat, m2: Mode)
    requires t != "" && Step(e, m, t + b) == k && k.width <= |t| && rest == t[k.width..]
    requires Reaches(e, k.mode, rest, b, pos + k.width, m2)
    ensures Reaches(e, m, t, b, pos, m2)
  {
    hide Cuts, Step;
    Unfold(e, m, t + b, k, pos);
    assert (t + b)[k.width..] == rest + b;
    var head, tail := if k.cut then [pos] else [], Cuts(e, k.mode, rest + b, pos + k.width);
    assert Cuts(e, m, t + b, pos) == head + tail;
    forall c | c >= pos + |t|
      ensures c in Cuts(e, m, t + b, pos) <==> c in Cuts(e, m2, b, pos + |t|)
    {
      assert c !in head;
      assert pos + |t| == pos + k.width + |rest|;
    }
  }

  /** The same without a cut, on the whole list of cuts. */
  lemma Skip(e: Engine, m: Mode, t: string, b: string, k: Token, rest: string, pos: nat)
    requires t != "" && Step(e, m, t + b) == k && k.width <= |t| && rest == t[k.width..] && !k.cut
    ensures Cuts(e, m, t + b, pos) == Cuts(e, k.mode, rest + b, pos + k.width)
  {
    hide Cuts, Step;
    Unfold(e, m, t + b, k, pos);
    assert (t + b)[k.width..] == rest + b;
    assert [] + Cuts(e, k.mode, rest + b, pos + k.width) == Cuts(e, k.mode, rest + b, pos + k.width);
  }

  // ---- Plain text ----

  lemma PlainStep(e: Engine, m: Mode, t: string, b: string)
    requires ValidMode(e, m) && t != "" && PlainText(t)
    ensures Step(e, m, t + b) == Token(m, 1, false)
  {
    var u := t + b;
    assert u[0] == t[0];
    assert |t| > 1 ==> u[1] == t[1];
    if m.Dollar? {
      assert m.tag[0] != u[0];
    }
  }

  lemma {:induction false} PlainKeeps(e: Engine, m: Mode, t: string, b: string, pos: nat)
    requires ValidMode(e, m) && PlainText(t)
    ensures Reaches(e, m, t, b, pos, m)
  {
    hide Step, Reaches;
    if t == "" {
      ReachesEmpty(e, m, b, pos);
    } else {
      PlainStep(e, m, t, b);
      PlainKeeps(e, m, t[1..], b, pos + 1);
      Advance(e, m, t, b, Token(m, 1, false), t[1..], pos, m);
    }
  }

  lemma {:induction false} PlainSkips(e: Engine, t: string, b: string, pos: nat)
    requires PlainText(t)
    ensures Cuts(e, Normal, t + b, pos) == Cuts(e, Normal, b, pos + |t|)
  {
    hide Step, Cuts;
    if t == "" {
      assert t + b == b;
    } else {
      PlainStep(e, Normal, t, b);
      Skip(e, Normal, t, b, Token(Normal, 1, false), t[1..], pos);
      PlainSkips(e, t[1..], b, pos + 1);
    }
  }

  // ---- Literals read in step ----

  /** Body and closing quote of a literal. */
  function Body(q: char, s: string): (r: string)
    ensures |r| > |s|
  {
    Doubled(q, s) + [q]
  }

  lemma BodyCons(q: char, s: string)
    requires s != ""
    ensures Body(q, s) == (if s[0] == q then [q, q] else [s[0]]) + Body(q, s[1..])
    ensures Body(q, s)[0] == s[0]
    ensures Body(q, s)[1..] == (if s[0] == q then [q] + Body(q, s[1..]) else Body(q, s[1..]))
  {
    hide IsQuote;
    Assoc(if s[0] == q then [q, q] else [s[0]], Doubled(q, s[1..]), [q]);
  }

  lemma {:induction false} SafeBody(e: Engine, q: char, s: string, b: string, pos: nat)
    requires IsQuote(e, q) && Safe(q, s) && b != "" && b[0] != q
    ensures Cuts(e, Quoted(q), Body(q, s) + b, pos) == Cuts(e, Normal, b, pos + |Body(q, s)|)
    decreases |s|
  {
    hide Cuts, Doubled;
    var m, t := Quoted(q), Body(q, s);
    var u := t + b;
    if s == "" {
      assert t == [q] by { assert ReplaceAll(s, q, [q, q]) == ""; BodyEmpty(q); }
      assert u[0] == q && u[1] == b[0];
      Skip(e, m, t, b, Token(Normal, 1, false), "", pos);
      assert "" + b == b;
    } else {
      BodyCons(q, s);
      assert u[0] == t[0] && u[1] == t[1];
      if s[0] == '\\' {
        BodyCons(q, s[1..]);
        assert s[1..][1..] == s[2..];
        assert t[2..] == t[1..][1..];
        Skip(e, m, t, b, Token(m, 2, false), Body(q, s[2..]), pos);
        SafeBody(e, q, s[2..], b, pos + 2);
      } else if s[0] == q {
        assert t[1] == t[1..][0] == q;
        assert t[2..] == t[1..][1..] == Body(q, s[1..]);
        Skip(e, m, t, b, Token(m, 2, false), Body(q, s[1..]), pos);
        SafeBody(e, q, s[1..], b, pos + 2);
      } else {
        Skip(e, m, t, b, Token(m, 1, false), Body(q, s[1..]), pos);
        SafeBody(e, q, s[1..], b, pos + 1);
      }
    }
  }

  lemma BodyEmpty(q: char)
    ensures Body(q, "") == [q]
  {}

  lemma SafeLiteral(e: Engine, q: char, s: string, b: string, pos: nat)
    requires IsQuote(e, q) && Safe(q, s) && b != "" && b[0] != q
    ensures Cuts(e, Normal, Render(Literal(q, s)) + b, pos)
         == Cuts(e, Normal, b, pos + |Render(Literal(q, s))|)
  {
    hide Cuts, Doubled;
    var t := Render(Literal(q, s));
    Assoc([q], Doubled(q, s), [q]);
    assert t == [q] + Body(q, s) && t[1..] == Body(q, s);
    assert (t + b)[0] == q;
    Skip(e, Normal, t, b, Token(Quoted(q), 1, false), Body(q, s), pos);
    SafeBody(e, q, s, b, pos + 1);
  }

  // ---- Out of step ----

  /** A token read outside the quotes `q` has no `q` in it, unless it starts there or escapes it. */
  lemma TokenHasNoQuote(e: Engine, m: Mode, q: char, u: string)
    requires ValidMode(e, m) && IsQuote(e, q) && m != Quoted(q)
    requires u != "" && u[0] != q && !(m.Quoted? && u[0] == '\\')
    ensures var k := Step(e, m, u);
      && k.mode != Quoted(q) && k.width <= |u|
      && forall i | 0 <= i < k.width :: u[i] != q
  {
    hide TagLength;
    if m == Normal {
      TagIsValid(u);
    } else if m.Dollar? && m.tag <= u {
      assert forall i | 0 <= i < |m.tag| :: u[i] == m.tag[i];
    }
  }

  lemma TokenWithinBody(e: Engine, m: Mode, q: char, s: string, b: string)
    requires ValidMode(e, m) && IsQuote(e, q) && m != Quoted(q)
    requires s != "" && s[0] != q && !(m.Quoted? && s[0] == '\\')
    ensures var k := Step(e, m, Body(q, s) + b);
      && k.width <= |s| && Body(q, s)[k.width..] == Body(q, s[k.width..])
      && ValidMode(e, k.mode) && k.mode != Quoted(q)
  {
    hide Step, Body;
    var u := Body(q, s) + b;
    BodyCons(q, s);
    assert u[0] == s[0];
    StepValid(e, m, u);
    TokenHasNoQuote(e, m, q, u);
    NoQuotePrefix(q, s, b, Step(e, m, u).width);
  }

  lemma {:induction false} NoQuotePrefix(q: char, s: string, b: string, w: nat)
    requires w <= |Body(q, s) + b| && forall i | 0 <= i < w :: (Body(q, s) + b)[i] != q
    ensures w <= |s| && Body(q, s)[w..] == Body(q, s[w..])
    decreases w
  {
    hide Body, Doubled;
    var t := Body(q, s);
    if s == "" {
      BodyEmpty(q);
      assert (t + b)[0] == q;
    } else if w > 0 {
      BodyCons(q, s);
      assert (t + b)[0] == s[0];
      var t' := Body(q, s[1..]);
      assert t[1..] == t';
      assert forall i | 0 <= i < w - 1 :: (t' + b)[i] == (t + b)[i + 1];
      NoQuotePrefix(q, s[1..], b, w - 1);
      assert t[w..] == t[1..][w - 1..];
      assert s[w..] == s[1..][w - 1..];
    }
  }

  /** From the body of a literal not read as such, its end is not reached in `Normal`. */
  lemma {:induction false} BodyStrays(e: Engine, m: Mode, q: char, s: string, b: string, pos: nat) returns (m2: Mode)
    requires ValidMode(e, m) && IsQuote(e, q) && m != Quoted(q)
    ensures ValidMode(e, m2) && m2 != Normal && Reaches(e, m, Body(q, s), b, pos, m2)
    decreases |s|, 0
  {
    hide Step, Reaches, Body;
    var t := Body(q, s);
    if s == "" {
      m2 := if m == Normal then Quoted(q) else m;
      BodyEmpty(q);
      QuoteStep(e, m, q, [q] + b);
      ReachesEmpty(e, m2, b, pos + 1);
      Advance(e, m, t, b, Token(m2, 1, false), "", pos, m2);
    } else if s[0] == q {
      BodyCons(q, s);
      var rest := [q] + Body(q, s[1..]);
      assert t[1..] == rest && rest[1..] == Body(q, s[1..]);
      QuoteStep(e, m, q, t + b);
      if m == Normal {
        m2 := QuoteStrays(e, q, s[1..], b, pos + 1);
        Advance(e, m, t, b, Token(Quoted(q), 1, false), rest, pos, m2);
      } else {
        QuoteStep(e, m, q, rest + b);
        m2 := BodyStrays(e, m, q, s[1..], b, pos + 2);
        Advance(e, m, rest, b, Token(m, 1, false), Body(q, s[1..]), pos + 1, m2);
        Advance(e, m, t, b, Token(m, 1, false), rest, pos, m2);
      }
    } else if m.Quoted? && s[0] == '\\' {
      m2 := EscapeStrays(e, m, q, s, b, pos);
    } else {
      TokenWithinBody(e, m, q, s, b);
      var k := Step(e, m, t + b);
      m2 := BodyStrays(e, k.mode, q, s[k.width..], b, pos + k.width);
      Advance(e, m, t, b, k, Body(q, s[k.width..]), pos, m2);
    }
  }

  /** A backslash in the body, read inside quotes of either kind. */
  lemma {:induction false} EscapeStrays(e: Engine, m: Mode, q: char, s: string, b: string, pos: nat) returns (m2: Mode)
    requires ValidMode(e, m) && IsQuote(e, q) && m.Quoted?
    requires s != "" && s[0] == '\\' && (m == Quoted(q) ==> |s| < 2 || s[1] == q)
    ensures ValidMode(e, m2) && m2 != Normal && Reaches(e, m, Body(q, s), b, pos, m2)
    decreases |s|, 0, 0
  {
    hide Step, Reaches, Body;
    var t, k := Body(q, s), Token(m, 2, false);
    BodyCons(q, s);
    EscapeStep(e, m, t + b);
    if |s| == 1 {
      BodyEmpty(q);
      assert s[1..] == "" && t[1..] == [q];
      assert t[2..] == "";
      m2 := m;
      ReachesEmpty(e, m, b, pos + 2);
      Advance(e, m, t, b, k, "", pos, m2);
    } else {
      BodyCons(q, s[1..]);
      assert s[1..][1..] == s[2..] && t[2..] == t[1..][1..];
      if s[1] == q {
        var rest := [q] + Body(q, s[2..]);
        assert rest[1..] == Body(q, s[2..]);
        if m == Quoted(q) {
          m2 := QuoteStrays(e, q, s[2..], b, pos + 2);
        } else {
          QuoteStep(e, m, q, rest + b);
          m2 := BodyStrays(e, m, q, s[2..], b, pos + 3);
          Advance(e, m, rest, b, Token(m, 1, false), Body(q, s[2..]), pos + 2, m2);
        }
        Advance(e, m, t, b, k, rest, pos, m2);
      } else {
        m2 := BodyStrays(e, m, q, s[2..], b, pos + 2);
        Advance(e, m, t, b, k, Body(q, s[2..]), pos, m2);
      }
    }
  }

  lemma EscapeStep(e: Engine, m: Mode, u: string)
    requires m.Quoted? && u != "" && u[0] == '\\'
    ensures Step(e, m, u) == Token(m, 2, false)
  {}

  /** A quote character read outside its own quotes opens them, or is ordinary. */
  lemma QuoteStep(e: Engine, m: Mode, q: char, u: string)
    requires ValidMode(e, m) && IsQuote(e, q) && m != Quoted(q) && u != "" && u[0] == q
    ensures Step(e, m, u) == Token(if m == Normal then Quoted(q) else m, 1, false)
  {}

  /** A whole literal read from inside its own quotes does not end in `Normal`. */
  lemma {:induction false} QuoteStrays(e: Engine, q: char, s: string, b: string, pos: nat) returns (m2: Mode)
    requires IsQuote(e, q)
    ensures ValidMode(e, m2) && m2 != Normal && Reaches(e, Quoted(q), [q] + Body(q, s), b, pos, m2)
    decreases |s|, 1
  {
    hide Reaches, Body;
    var m, t := Quoted(q), [q] + Body(q, s);
    var u := t + b;
    assert t[1..] == Body(q, s);
    if s == "" {
      BodyEmpty(q);
      assert u[0] == q && u[1] == q && t[2..] == "";
      m2 := m;
      ReachesEmpty(e, m, b, pos + 2);
      Advance(e, m, t, b, Token(m, 2, false), "", pos, m2);
    } else {
      BodyCons(q, s);
      assert u[0] == q && u[1] == t[1] == s[0];
      if s[0] == q {
        var rest := [q] + Body(q, s[1..]);
        assert t[2..] == t[1..][1..] == rest;
        m2 := QuoteStrays(e, q, s[1..], b, pos + 2);
        Advance(e, m, t, b, Token(m, 2, false), rest, pos, m2);
      } else {
        m2 := BodyStrays(e, Normal, q, s, b, pos + 1);
        Advance(e, m, t, b, Token(Normal, 1, false), Body(q, s), pos, m2);
      }
    }
  }

  // ---- Rows of pieces ----

  lemma {:induction false} UnsafeStrays(e: Engine, q: char, s: string, b: string, pos: nat) returns (m2: Mode)
    requires IsQuote(e, q) && !Safe(q, s)
    ensures ValidMode(e, m2) && m2 != Normal && Reaches(e, Quoted(q), Body(q, s), b, pos, m2)
    decreases |s|
  {
    hide Reaches, Body;
    var m, t := Quoted(q), Body(q, s);
    BodyCons(q, s);
    assert (t + b)[0] == t[0] == s[0] && (t + b)[1] == t[1];
    if s[0] == '\\' {
      if |s| < 2 || s[1] == q {
        m2 := EscapeStrays(e, m, q, s, b, pos);
      } else {
        BodyCons(q, s[1..]);
        assert s[1..][1..] == s[2..] && t[2..] == t[1..][1..];
        m2 := UnsafeStrays(e, q, s[2..], b, pos + 2);
        Advance(e, m, t, b, Token(m, 2, false), Body(q, s[2..]), pos, m2);
      }
    } else if s[0] == q {
      assert t[1] == t[1..][0] && t[2..] == t[1..][1..] == Body(q, s[1..]);
      m2 := UnsafeStrays(e, q, s[1..], b, pos + 2);
      Advance(e, m, t, b, Token(m, 2, false), Body(q, s[1..]), pos, m2);
    } else {
      m2 := UnsafeStrays(e, q, s[1..], b, pos + 1);
      Advance(e, m, t, b, Token(m, 1, false), Body(q, s[1..]), pos, m2);
    }
  }

  /** A literal that is unsafe, or is read out of step, does not end in `Normal`. */
  lemma LiteralStrays(e: Engine, m: Mode, q: char, s: string, b: string, pos: nat) returns (m2: Mode)
    requires ValidMode(e, m) && IsQuote(e, q) && (m == Normal ==> !Safe(q, s))
    ensures ValidMode(e, m2) && m2 != Normal && Reaches(e, m, Render(Literal(q, s)), b, pos, m2)
  {
    hide Step, Reaches, Doubled;
    var t := Render(Literal(q, s));
    Assoc([q], Doubled(q, s), [q]);
    assert t == [q] + Body(q, s) && t[1..] == Body(q, s);
    if m == Quoted(q) {
      m2 := QuoteStrays(e, q, s, b, pos);
    } else {
      QuoteStep(e, m, q, t + b);
      if m == Normal {
        m2 := UnsafeStrays(e, q, s, b, pos + 1);
        Advance(e, m, t, b, Token(Quoted(q), 1, false), Body(q, s), pos, m2);
      } else {
        m2 := BodyStrays(e, m, q, s, b, pos + 1);
        Advance(e, m, t, b, Token(m, 1, false), Body(q, s), pos, m2);
      }
    }
  }

  lemma ReachesTrans(e: Engine, m: Mode, t: string, u: string, b: string, pos: nat, m2: Mode, m3: Mode)
    requires Reaches(e, m, t, u + b, pos, m2) && Reaches(e, m2, u, b, pos + |t|, m3)
    ensures Reaches(e, m, t + u, b, pos, m3)
  {
    hide Cuts;
    Assoc(t, u, b);
  }

  /** Once out of step, or past an unsafe literal, a row does not end in `Normal`. */
  lemma {:induction false} RowStrays(e: Engine, m: Mode, ps: seq<Piece>, b: string, pos: nat) returns (m2: Mode)
    requires ValidMode(e, m) && WellFormed(e, ps) && (m == Normal ==> !AllSafe(ps))
    ensures ValidMode(e, m2) && m2 != Normal && Reaches(e, m, RenderAll(ps), b, pos, m2)
    decreases |ps|
  {
    hide Step, Reaches, Render;
    if ps == [] {
      m2 := m;
      ReachesEmpty(e, m, b, pos);
    } else {
      var p, rest := ps[0], RenderAll(ps[1..]);
      var m1 := m;
      match p {
        case Plain(t) =>
          PlainKeeps(e, m, t, rest + b, pos);
          RenderPlain(t);
        case Literal(q, s) =>
          if m == Normal && Safe(q, s) {
            SafeReaches(e, ps, b, pos);
          } else {
            m1 := LiteralStrays(e, m, q, s, rest + b, pos);
          }
      }
      m2 := RowStrays(e, m1, ps[1..], b, pos + |Render(p)|);
      ReachesTrans(e, m, Render(p), rest, b, pos, m1, m2);
    }
  }

  lemma RenderPlain(t: string)
    ensures Render(Plain(t)) == t
  {}

  /** What follows a literal of a well-formed row is not a quote. */
  lemma AfterLiteral(e: Engine, ps: seq<Piece>, b: string)
    requires WellFormed(e, ps) && ps != [] && ps[0].Literal?
    ensures RenderAll(ps[1..]) + b != "" && (RenderAll(ps[1..]) + b)[0] != ps[0].quote
  {
    assert WellFormed(e, ps[1..]);
    var t := ps[1].text;
    assert ps[1..][0] == Plain(t);
    assert (RenderAll(ps[1..]) + b)[0] == t[0];
    assert PlainText(t);
  }

  lemma SafeReaches(e: Engine, ps: seq<Piece>, b: string, pos: nat)
    requires WellFormed(e, ps) && ps != [] && ps[0].Literal? && Safe(ps[0].quote, ps[0].body)
    ensures Reaches(e, Normal, Render(ps[0]), RenderAll(ps[1..]) + b, pos, Normal)
  {
    hide Cuts;
    AfterLiteral(e, ps, b);
    SafeLiteral(e, ps[0].quote, ps[0].body, RenderAll(ps[1..]) + b, pos);
  }

  /** A row of safe literals is read in step and cut nowhere. */
  lemma {:induction false} RowSkips(e: Engine, ps: seq<Piece>, b: string, pos: nat)
    requires WellFormed(e, ps) && AllSafe(ps)
    ensures Cuts(e, Normal, RenderAll(ps) + b, pos) == Cuts(e, Normal, b, pos + |RenderAll(ps)|)
    decreases |ps|
  {
    hide Step, Cuts, Render;
    if ps == [] {
      assert "" + b == b;
    } else {
      var p, rest := ps[0], RenderAll(ps[1..]);
      Assoc(Render(p), rest, b);
      match p {
        case Plain(t) =>
          RenderPlain(t);
          PlainSkips(e, t, rest + b, pos);
        case Literal(q, s) =>
          AfterLiteral(e, ps, b);
          SafeLiteral(e, q, s, rest + b, pos);
      }
      RowSkips(e, ps[1..], b, pos + |Render(p)|);
    }
  }
}
