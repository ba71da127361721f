/**
 * Placeholders and parameters of a built query: which value the server finds at which place, and
 * when a driver that cuts the text at every `?` delivers them.
 */
module QueryBinding {
  import opened Text
  import opened DataQuery
  import SqlLexer

  type Engine = SqlLexer.Engine

  /** What reaches the server: characters, and values kept out of the text. */
  datatype Symbol = Letter(c: char) | Value(param: Param)

  function Letters(text: string): seq<Symbol> { seq(|text|, i requires 0 <= i < |text| => Letter(text[i])) }

  /** The parts with their holes filled in order. */
  function Fill(parts: seq<Part>, params: seq<Param>): seq<Symbol>
    requires HoleCount(parts) == |params|
  {
    if parts == [] then []
    else if parts[0].Hole? then [Value(params[0])] + Fill(parts[1..], params[1..])
    else Letters(parts[0].text) + Fill(parts[1..], params)
  }

  // ---- The driver ----

  /** `text.split('?')`. */
  function Split(text: string): (fragments: seq<string>)
    ensures fragments != []
  {
    if text == "" then [""]
    else
      var rest := Split(text[1..]);
      if text[0] == '?' then [""] + rest else [[text[0]] + rest[0]] + rest[1..]
  }

  /** Fragments and values in turn. */
  function Weave(fragments: seq<string>, values: seq<Param>): seq<Symbol>
    requires |fragments| == |values| + 1
  {
    Letters(fragments[0]) + if values == [] then [] else [Value(values[0])] + Weave(fragments[1..], values[1..])
  }

  /** `executeParameterized`: refuses fragments and values that do not fit. */
  function Execute(text: string, values: seq<Param>): Option<seq<Symbol>> {
    var fragments := Split(text);
    if |fragments| != |values| + 1 then None else Some(Weave(fragments, values))
  }

  function Marks(text: string): nat {
    if text == "" then 0 else (if text[0] == '?' then 1 else 0) + Marks(text[1..])
  }

  lemma {:induction false} MarksAppend(s: string, t: string)
    ensures Marks(s + t) == Marks(s) + Marks(t)
  {
    if s == "" {
      assert s + t == t;
    } else {
      assert (s + t)[1..] == s[1..] + t;
      MarksAppend(s[1..], t);
    }
  }

  lemma {:induction false} NoMarks(text: string)
    ensures Marks(text) == 0 <==> '?' !in text
  {
    if text != "" {
      NoMarks(text[1..]);
    }
  }

  lemma {:induction false} SplitCounts(text: string)
    ensures |Split(text)| == Marks(text) + 1
  {
    if text != "" {
      SplitCounts(text[1..]);
    }
  }

  /** The text read from the left, every `?` taking the next value. */
  function Bind(text: string, values: seq<Param>): seq<Symbol>
    requires Marks(text) == |values|
  {
    if text == "" then []
    else if text[0] == '?' then [Value(values[0])] + Bind(text[1..], values[1..])
    else [Letter(text[0])] + Bind(text[1..], values)
  }

  lemma WeaveLetter(c: char, fragments: seq<string>, values: seq<Param>)
    requires |fragments| == |values| + 1
    ensures Weave([[c] + fragments[0]] + fragments[1..], values) == [Letter(c)] + Weave(fragments, values)
  {
    var first := fragments[0];
    assert Letters([c] + first) == [Letter(c)] + Letters(first);
    var changed := [[c] + first] + fragments[1..];
    assert changed[0] == [c] + first && changed[1..] == fragments[1..];
    hide Letters;
    var later := if values == [] then [] else [Value(values[0])] + Weave(fragments[1..], values[1..]);
    Assoc([Letter(c)], Letters(first), later);
  }

  lemma WeaveValue(fragments: seq<string>, value: Param, values: seq<Param>)
    requires |fragments| == |values| + 1
    ensures Weave([""] + fragments, [value] + values) == [Value(value)] + Weave(fragments, values)
  {
    assert Letters("") == [];
    assert ([""] + fragments)[1..] == fragments && ([value] + values)[1..] == values;
  }

  lemma {:induction false} WeaveBinds(text: string, values: seq<Param>)
    requires Marks(text) == |values|
    ensures |Split(text)| == |values| + 1 && Weave(Split(text), values) == Bind(text, values)
  {
    SplitCounts(text);
    if text == "" {
      assert Letters("") == [];
    } else {
      hide Weave;
      var rest := Split(text[1..]);
      if text[0] == '?' {
        WeaveBinds(text[1..], values[1..]);
        assert values == [values[0]] + values[1..];
        WeaveValue(rest, values[0], values[1..]);
      } else {
        WeaveBinds(text[1..], values);
        WeaveLetter(text[0], rest, values);
      }
    }
  }

  lemma {:induction false} BindAppend(s: string, p: seq<Param>, t: string, q: seq<Param>)
    requires Marks(s) == |p| && Marks(t) == |q|
    ensures Marks(s + t) == |p + q| && Bind(s + t, p + q) == Bind(s, p) + Bind(t, q)
  {
    MarksAppend(s, t);
    if s == "" {
      assert s + t == t && p + q == q;
    } else {
      assert (s + t)[1..] == s[1..] + t;
      if s[0] == '?' {
        assert (p + q)[1..] == p[1..] + q;
        BindAppend(s[1..], p[1..], t, q);
      } else {
        BindAppend(s[1..], p, t, q);
      }
    }
  }

  lemma {:induction false} BindPlain(text: string)
    requires '?' !in text
    ensures Marks(text) == 0 && Bind(text, []) == Letters(text)
  {
    NoMarks(text);
    if text == "" {
    } else {
      BindPlain(text[1..]);
      assert Letters(text) == [Letter(text[0])] + Letters(text[1..]);
    }
  }

  /** The fixed text is free of `?`. */
  ghost predicate Plain(parts: seq<Part>) { forall part | part in parts :: part.Fixed? ==> '?' !in part.text }

  lemma {:induction false} RenderMarks(parts: seq<Part>)
    ensures Marks(Render(parts)) >= HoleCount(parts)
    ensures Marks(Render(parts)) == HoleCount(parts) <==> Plain(parts)
  {
    if parts == [] {
    } else {
      var part, rest := parts[0], parts[1..];
      RenderMarks(rest);
      var text := if part.Hole? then "?" else part.text;
      MarksAppend(text, Render(rest));
      NoMarks(text);
      assert Marks("") == 0;
      assert part.Hole? ==> Marks(text) == 1 by { assert "?"[1..] == ""; }
      assert Plain(parts) <==> Plain([part]) && Plain(rest) by { assert parts == [part] + rest; }
      assert Plain([part]) <==> part.Hole? || '?' !in part.text by { assert part in [part]; }
    }
  }

  lemma {:induction false} RenderBinds(parts: seq<Part>, params: seq<Param>)
    requires HoleCount(parts) == |params| && Plain(parts)
    ensures Marks(Render(parts)) == |params| && Bind(Render(parts), params) == Fill(parts, params)
  {
    RenderMarks(parts);
    if parts == [] {
    } else {
      var part, rest := parts[0], parts[1..];
      RenderMarks(rest);
      if part.Hole? {
        RenderBinds(rest, params[1..]);
        assert ("?" + Render(rest))[1..] == Render(rest);
      } else {
        assert part in parts;
        RenderBinds(rest, params);
        BindPlain(part.text);
        BindAppend(part.text, [], Render(rest), params);
        assert [] + params == params;
      }
    }
  }

  /**
   * A text with as many holes as values is delivered if and only if its fixed parts are free of `?`,
   * and then every value is found at its own hole.
   */
  lemma DriverDelivers(parts: seq<Part>, params: seq<Param>)
    requires HoleCount(parts) == |params|
    ensures Execute(Render(parts), params) == if Plain(parts) then Some(Fill(parts, params)) else None
  {
    RenderMarks(parts);
    SplitCounts(Render(parts));
    if Plain(parts) {
      RenderBinds(parts, params);
      WeaveBinds(Render(parts), params);
    }
  }

  // ---- Parts ----

  lemma {:induction false} HoleCountAppend(a: seq<Part>, b: seq<Part>)
    ensures HoleCount(a + b) == HoleCount(a) + HoleCount(b)
  {
    if a == [] {
      assert a + b == b;
    } else {
      assert (a + b)[1..] == a[1..] + b;
      HoleCountAppend(a[1..], b);
    }
  }

  lemma {:induction false} RenderAppend(a: seq<Part>, b: seq<Part>)
    ensures Render(a + b) == Render(a) + Render(b)
  {
    if a == [] {
      assert a + b == b;
    } else {
      assert (a + b)[1..] == a[1..] + b;
      RenderAppend(a[1..], b);
      Assoc(if a[0].Hole? then "?" else a[0].text, Render(a[1..]), Render(b));
    }
  }

  lemma {:induction false} FillAppend(a: seq<Part>, p: seq<Param>, b: seq<Part>, q: seq<Param>)
    requires HoleCount(a) == |p| && HoleCount(b) == |q|
    ensures HoleCount(a + b) == |p + q| && Fill(a + b, p + q) == Fill(a, p) + Fill(b, q)
  {
    HoleCountAppend(a, b);
    if a == [] {
      assert a + b == b && p + q == q;
    } else {
      assert (a + b)[1..] == a[1..] + b;
      if a[0].Hole? {
        assert (p + q)[1..] == p[1..] + q;
        FillAppend(a[1..], p[1..], b, q);
        Assoc([Value(p[0])], Fill(a[1..], p[1..]), Fill(b, q));
      } else {
        FillAppend(a[1..], p, b, q);
        Assoc(Letters(a[0].text), Fill(a[1..], p), Fill(b, q));
      }
    }
  }

  lemma FillFixed(text: string)
    ensures HoleCount([Fixed(text)]) == 0 && Fill([Fixed(text)], []) == Letters(text)
  {
    var parts := [Fixed(text)];
    assert parts[1..] == [] && HoleCount(parts[1..]) == 0;
  }

  // ---- Clauses ----

  lemma {:induction false} HoleListCount(n: nat)
    ensures HoleCount(HoleList(n)) == n
  {
    if n == 0 {
    } else if n == 1 {
      assert [Hole][1..] == [];
    } else {
      HoleListCount(n - 1);
      HoleCountAppend([Hole, Fixed(", ")], HoleList(n - 1));
      assert [Hole, Fixed(", ")][1..] == [Fixed(", ")] && [Fixed(", ")][1..] == [];
    }
  }

  lemma LikeCount(e: Engine, column: string)
    ensures HoleCount(LikeParts(e, column)) == 1
  {
    var parts := LikeParts(e, column);
    assert parts[1..][1..][1..] == [Fixed(EscapeText(e))];
    FillFixed(EscapeText(e));
    assert HoleCount(parts[1..][1..]) == 1 && HoleCount(parts[1..]) == 1;
  }

  lemma {:induction false} AnyLikeCount(e: Engine, columns: seq<string>)
    ensures HoleCount(AnyLikeParts(e, columns)) == |columns|
  {
    if columns == [] {
    } else {
      LikeCount(e, columns[0]);
      if |columns| > 1 {
        AnyLikeCount(e, columns[1..]);
        FillFixed(" OR ");
        HoleCountAppend(LikeParts(e, columns[0]), [Fixed(" OR ")]);
        HoleCountAppend(LikeParts(e, columns[0]) + [Fixed(" OR ")], AnyLikeParts(e, columns[1..]));
      }
    }
  }

  lemma Bracketed(open: seq<Part>, parts: seq<Part>, close: seq<Part>)
    ensures HoleCount(open + parts + close) == HoleCount(open) + HoleCount(parts) + HoleCount(close)
  {
    HoleCountAppend(open, parts);
    HoleCountAppend(open + parts, close);
  }

  lemma ClauseHoles(e: Engine, c: Clause)
    ensures HoleCount(ClauseParts(e, c)) == Holes(c)
  {
    FillFixed(")");
    match c {
      case NullTest(column, negated) =>
        var parts := ClauseParts(e, c);
        assert parts[1..][1..] == [] && parts[1..][0].Fixed?;
      case InList(column, count) =>
        var open := [Quoted(e, column), Fixed(" IN (")];
        assert open[1..][1..] == [] && open[1..][0].Fixed?;
        HoleListCount(count);
        Bracketed(open, HoleList(count), [Fixed(")")]);
      case LikeTest(column) =>
        LikeCount(e, column);
      case Compare(column, op) =>
        var parts := ClauseParts(e, c);
        assert parts[1..][1..][1..] == [] && HoleCount(parts[1..][1..]) == 1 && HoleCount(parts[1..]) == 1;
      case AnyLike(columns) =>
        FillFixed("(");
        AnyLikeCount(e, columns);
        Bracketed([Fixed("(")], AnyLikeParts(e, columns), [Fixed(")")]);
    }
  }

  function TotalHoles(clauses: seq<Clause>): nat {
    if clauses == [] then 0 else Holes(clauses[0]) + TotalHoles(clauses[1..])
  }

  /** A clause with the parameters of its own placeholders. */
  datatype Condition = Condition(clause: Clause, params: seq<Param>)

  /** Parameters dealt out to the clauses in order, as many to each as it has placeholders. */
  function Deal(clauses: seq<Clause>, params: seq<Param>): seq<Condition>
    requires TotalHoles(clauses) == |params|
  {
    if clauses == [] then []
    else
      var n := Holes(clauses[0]);
      [Condition(clauses[0], params[..n])] + Deal(clauses[1..], params[n..])
  }

  predicate Matched(c: Condition) { Holes(c.clause) == |c.params| }

  /** One condition as the server receives it. */
  function ConditionSymbols(e: Engine, c: Condition): seq<Symbol>
    requires Matched(c)
  {
    ClauseHoles(e, c.clause);
    Fill(ClauseParts(e, c.clause), c.params)
  }

  /** Conditions joined by AND. */
  function WhereSymbols(e: Engine, conditions: seq<Condition>): seq<Symbol>
    requires forall c | c in conditions :: Matched(c)
  {
    if conditions == [] then []
    else if |conditions| == 1 then ConditionSymbols(e, conditions[0])
    else ConditionSymbols(e, conditions[0]) + Letters(" AND ") + WhereSymbols(e, conditions[1..])
  }

  lemma {:induction false} DealMatches(clauses: seq<Clause>, params: seq<Param>)
    requires TotalHoles(clauses) == |params|
    ensures |Deal(clauses, params)| == |clauses|
    ensures forall c | c in Deal(clauses, params) :: Matched(c)
  {
    if clauses != [] {
      DealMatches(clauses[1..], params[Holes(clauses[0])..]);
    }
  }

  lemma DealCons(c: Clause, p: seq<Param>, clauses: seq<Clause>, params: seq<Param>)
    requires Holes(c) == |p|
    ensures TotalHoles([c] + clauses) == |p| + TotalHoles(clauses)
    ensures TotalHoles(clauses) == |params| ==> Deal([c] + clauses, p + params) == [Condition(c, p)] + Deal(clauses, params)
  {
    hide Holes;
    assert ([c] + clauses)[1..] == clauses;
    assert (p + params)[..|p|] == p && (p + params)[|p|..] == params;
  }

  lemma {:induction false} DealAppend(cs: seq<Clause>, ps: seq<Param>, ds: seq<Clause>, qs: seq<Param>)
    requires TotalHoles(cs) == |ps| && TotalHoles(ds) == |qs|
    ensures TotalHoles(cs + ds) == |ps + qs| && Deal(cs + ds, ps + qs) == Deal(cs, ps) + Deal(ds, qs)
  {
    if cs == [] {
      assert cs + ds == ds && ps + qs == qs;
    } else {
      var n := Holes(cs[0]);
      hide Holes;
      assert cs + ds == [cs[0]] + (cs[1..] + ds);
      assert ps + qs == ps[..n] + (ps[n..] + qs);
      DealCons(cs[0], ps[..n], cs[1..] + ds, ps[n..] + qs);
      DealAppend(cs[1..], ps[n..], ds, qs);
      Assoc([Condition(cs[0], ps[..n])], Deal(cs[1..], ps[n..]), Deal(ds, qs));
    }
  }

  /** The joined clauses hold each clause's own parameters. */
  lemma {:induction false} ConjunctionFills(e: Engine, clauses: seq<Clause>, params: seq<Param>)
    requires TotalHoles(clauses) == |params|
    ensures HoleCount(ConjunctionParts(e, clauses)) == |params|
    ensures forall c | c in Deal(clauses, params) :: Matched(c)
    ensures Fill(ConjunctionParts(e, clauses), params) == WhereSymbols(e, Deal(clauses, params))
  {
    DealMatches(clauses, params);
    if clauses == [] {
    } else {
      hide Fill, ClauseParts, Letters;
      var n := Holes(clauses[0]);
      ClauseHoles(e, clauses[0]);
      assert params == params[..n] + params[n..];
      if |clauses| == 1 {
        assert clauses[1..] == [] && TotalHoles(clauses[1..]) == 0;
        assert params[..n] == params;
      } else {
        ConjunctionFills(e, clauses[1..], params[n..]);
        FillFixed(" AND ");
        var first := ClauseParts(e, clauses[0]);
        FillAppend(first, params[..n], [Fixed(" AND ")], []);
        assert params[..n] + [] == params[..n];
        FillAppend(first + [Fixed(" AND ")], params[..n], ConjunctionParts(e, clauses[1..]), params[n..]);
        assert Deal(clauses, params)[1..] == Deal(clauses[1..], params[n..]);
      }
    }
  }
}
