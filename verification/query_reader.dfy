/**
 * A built query read back by the rules of quoted names and keywords. Whatever the names contain, the
 * reader finds the selected columns, the table, the conditions with their values, the order and the
 * window that were asked for.
 */
module QueryReader {
  import opened Text
  import opened DataQuery
  import opened QueryBinding
  import opened QueryText
  import SqlDump
  import SqlLexer

  type Engine = SqlLexer.Engine

  type Symbols = seq<Symbol>

  // ---- Reading ----

  predicate Starts(s: Symbols, text: string) { |text| <= |s| && s[..|text|] == Letters(text) }

  /** What follows `text`, when `s` starts with it. */
  function After(s: Symbols, text: string): (r: Option<Symbols>)
    ensures r.Some? ==> |r.value| + |text| == |s|
  {
    if Starts(s, text) then Some(s[|text|..]) else None
  }

  /** The rest of a quoted name: a doubled quote is one character, a single one ends the name. */
  function ReadBody(q: char, s: Symbols): (r: Option<(string, Symbols)>)
    ensures r.Some? ==> |r.value.1| < |s|
    decreases |s|
  {
    if s == [] || s[0].Value? then None
    else if s[0].c != q then
      match ReadBody(q, s[1..])
      case None => None
      case Some((name, rest)) => Some(([s[0].c] + name, rest))
    else if |s| > 1 && s[1] == Letter(q) then
      match ReadBody(q, s[2..])
      case None => None
      case Some((name, rest)) => Some(([q] + name, rest))
    else Some(("", s[1..]))
  }

  function ReadName(e: Engine, s: Symbols): (r: Option<(string, Symbols)>)
    ensures r.Some? ==> |r.value.1| < |s|
  {
    var q := SqlDump.IdentifierQuote(e);
    if s == [] || s[0] != Letter(q) then None else ReadBody(q, s[1..])
  }

  function ReadValue(s: Symbols): Option<(Param, Symbols)> {
    if s == [] || s[0].Letter? then None else Some((s[0].param, s[1..]))
  }

  /** Names with commas. */
  function ReadNames(e: Engine, s: Symbols): Option<(seq<string>, Symbols)>
    decreases |s|
  {
    match ReadName(e, s)
    case None => None
    case Some((name, t)) =>
      match After(t, ", ")
      case None => Some(([name], t))
      case Some(u) =>
        match ReadNames(e, u)
        case None => None
        case Some((names, rest)) => Some(([name] + names, rest))
  }

  /** Values with commas. */
  function ReadValues(s: Symbols): (r: Option<(seq<Param>, Symbols)>)
    ensures r.Some? ==> |r.value.1| < |s|
    decreases |s|
  {
    match ReadValue(s)
    case None => None
    case Some((param, t)) =>
      match After(t, ", ")
      case None => Some(([param], t))
      case Some(u) =>
        match ReadValues(u)
        case None => None
        case Some((params, rest)) => Some(([param] + params, rest))
  }

  /** The pattern of a LIKE, after its column. */
  function ReadPattern(e: Engine, s: Symbols): (r: Option<(Param, Symbols)>)
    ensures r.Some? ==> |r.value.1| < |s|
  {
    match After(s, LikeText(e))
    case None => None
    case Some(t) =>
      match ReadValue(t)
      case None => None
      case Some((param, u)) =>
        match After(u, EscapeText(e))
        case None => None
        case Some(rest) => Some((param, rest))
  }

  /** LIKEs with OR. */
  function ReadLikes(e: Engine, s: Symbols): (r: Option<(seq<string>, seq<Param>, Symbols)>)
    ensures r.Some? ==> |r.value.2| < |s|
    decreases |s|
  {
    match ReadName(e, s)
    case None => None
    case Some((column, t)) =>
      match ReadPattern(e, t)
      case None => None
      case Some((param, u)) =>
        match After(u, " OR ")
        case None => Some(([column], [param], u))
        case Some(v) =>
          match ReadLikes(e, v)
          case None => None
          case Some((columns, params, rest)) => Some(([column] + columns, [param] + params, rest))
  }

  /** A comparison operator between blanks. */
  function ReadOperator(s: Symbols): (r: Option<(Operator, Symbols)>)
    ensures r.Some? ==> |r.value.1| < |s|
  {
    if Starts(s, " = ") then Some((Eq, s[3..]))
    else if Starts(s, " <> ") then Some((Neq, s[4..]))
    else if Starts(s, " > ") then Some((Gt, s[3..]))
    else if Starts(s, " >= ") then Some((Gte, s[4..]))
    else if Starts(s, " < ") then Some((Lt, s[3..]))
    else if Starts(s, " <= ") then Some((Lte, s[4..]))
    else None
  }

  /** What follows the column of a condition. */
  function ReadTest(e: Engine, column: string, s: Symbols): (r: Option<(Condition, Symbols)>)
    ensures r.Some? ==> |r.value.1| < |s|
  {
    if Starts(s, " IS NULL") then Some((Condition(NullTest(column, false), []), s[8..]))
    else if Starts(s, " IS NOT NULL") then Some((Condition(NullTest(column, true), []), s[12..]))
    else if Starts(s, " IN (") then
      match ReadValues(s[5..])
      case None => None
      case Some((params, t)) =>
        match After(t, ")")
        case None => None
        case Some(rest) => Some((Condition(InList(column, |params|), params), rest))
    else if Starts(s, LikeText(e)) then
      match ReadPattern(e, s)
      case None => None
      case Some((param, rest)) => Some((Condition(LikeTest(column), [param]), rest))
    else
      match ReadOperator(s)
      case None => None
      case Some((op, t)) =>
        match ReadValue(t)
        case None => None
        case Some((param, rest)) => Some((Condition(Compare(column, op), [param]), rest))
  }

  function ReadCondition(e: Engine, s: Symbols): (r: Option<(Condition, Symbols)>)
    ensures r.Some? ==> |r.value.1| < |s|
  {
    match After(s, "(")
    case Some(t) =>
      match ReadLikes(e, t) {
        case None => None
        case Some((columns, params, u)) =>
          match After(u, ")")
          case None => None
          case Some(rest) => Some((Condition(AnyLike(columns), params), rest))
      }
    case None =>
      match ReadName(e, s)
      case None => None
      case Some((column, t)) => ReadTest(e, column, t)
  }

  /** Conditions with AND. */
  function ReadConditions(e: Engine, s: Symbols): Option<(seq<Condition>, Symbols)>
    decreases |s|
  {
    match ReadCondition(e, s)
    case None => None
    case Some((condition, t)) =>
      match After(t, " AND ")
      case None => Some(([condition], t))
      case Some(u) =>
        match ReadConditions(e, u)
        case None => None
        case Some((conditions, rest)) => Some(([condition] + conditions, rest))
  }

  // ---- Keywords ----

  lemma StartsOwn(text: string, rest: Symbols)
    ensures Starts(Letters(text) + rest, text) && After(Letters(text) + rest, text) == Some(rest)
  {
    var s := Letters(text) + rest;
    assert s[..|text|] == Letters(text) && s[|text|..] == rest;
  }

  lemma StartsReads(s: Symbols, text: string, k: nat)
    requires Starts(s, text) && k < |text|
    ensures s[k] == Letter(text[k])
  {
    assert s[..|text|][k] == s[k];
  }

  /** Texts that differ at a position are told apart. */
  lemma Differs(text: string, other: string, k: nat, rest: Symbols)
    requires k < |text| && k < |other| && text[k] != other[k]
    ensures !Starts(Letters(text) + rest, other) && After(Letters(text) + rest, other) == None
  {
    var s := Letters(text) + rest;
    assert s[k] == Letter(text[k]) && Letters(other)[k] == Letter(other[k]);
    if Starts(s, other) {
      StartsReads(s, other, k);
    }
  }

  /** `s` does not go on with the character. */
  predicate Without(s: Symbols, c: char) { s == [] || s[0] != Letter(c) }

  lemma NotStarted(s: Symbols, text: string)
    requires text != "" && Without(s, text[0])
    ensures !Starts(s, text) && After(s, text) == None
  {
    if Starts(s, text) {
      StartsReads(s, text, 0);
    }
  }

  // ---- Names ----

  lemma LettersCons(c: char, text: string, rest: Symbols)
    ensures Letters([c] + text) + rest == [Letter(c)] + (Letters(text) + rest)
  {}

  lemma {:induction false} BodyBack(q: char, name: string, rest: Symbols)
    requires Without(rest, q)
    ensures ReadBody(q, Letters(ReplaceAll(name, q, [q, q]) + [q]) + rest) == Some((name, rest))
  {
    if name == "" {
      assert ReplaceAll(name, q, [q, q]) + [q] == [q] + "";
      LettersCons(q, "", rest);
      assert Letters("") + rest == rest;
      LastQuote(q, rest);
    } else {
      hide ReadBody, Letters;
      var more := ReplaceAll(name[1..], q, [q, q]) + [q];
      BodyBack(q, name[1..], rest);
      assert name == [name[0]] + name[1..];
      if name[0] == q {
        assert ReplaceAll(name, q, [q, q]) + [q] == [q] + ([q] + more);
        LettersCons(q, [q] + more, rest);
        LettersCons(q, more, rest);
        BodyQuote(q, Letters(more) + rest, name[1..], rest);
      } else {
        assert ReplaceAll(name, q, [q, q]) + [q] == [name[0]] + more;
        LettersCons(name[0], more, rest);
        BodyLetter(q, name[0], Letters(more) + rest, name[1..], rest);
      }
    }
  }

  lemma LastQuote(q: char, rest: Symbols)
    requires Without(rest, q)
    ensures ReadBody(q, [Letter(q)] + rest) == Some(("", rest))
  {
    var s := [Letter(q)] + rest;
    assert s[1..] == rest;
    assert |s| > 1 ==> s[1] == rest[0];
  }

  lemma BodyQuote(q: char, s: Symbols, name: string, rest: Symbols)
    requires ReadBody(q, s) == Some((name, rest))
    ensures ReadBody(q, [Letter(q)] + ([Letter(q)] + s)) == Some(([q] + name, rest))
  {
    var t := [Letter(q)] + ([Letter(q)] + s);
    assert t[2..] == s && t[1] == Letter(q);
  }

  lemma BodyLetter(q: char, c: char, s: Symbols, name: string, rest: Symbols)
    requires c != q && ReadBody(q, s) == Some((name, rest))
    ensures ReadBody(q, [Letter(c)] + s) == Some(([c] + name, rest))
  {
    assert ([Letter(c)] + s)[1..] == s;
  }

  lemma NameBack(e: Engine, name: string, rest: Symbols)
    requires Without(rest, SqlDump.IdentifierQuote(e))
    ensures ReadName(e, Letters(SqlDump.QuoteIdentifier(e, name)) + rest) == Some((name, rest))
    ensures After(Letters(SqlDump.QuoteIdentifier(e, name)) + rest, "(") == None
  {
    hide ReadBody, ReplaceAll;
    var q := SqlDump.IdentifierQuote(e);
    var body := ReplaceAll(name, q, [q, q]) + [q];
    assert SqlDump.QuoteIdentifier(e, name) == [q] + body;
    BodyBack(q, name, rest);
    LettersCons(q, body, rest);
    assert ([Letter(q)] + (Letters(body) + rest))[1..] == Letters(body) + rest;
    NotStarted(Letters(SqlDump.QuoteIdentifier(e, name)) + rest, "(");
  }

  lemma {:induction false} NamesBack(e: Engine, names: seq<string>, rest: Symbols)
    requires names != [] && Without(rest, SqlDump.IdentifierQuote(e)) && Without(rest, ',')
    ensures ReadNames(e, Letters(Join(SqlDump.QuoteIdentifiers(e, names), ", ")) + rest) == Some((names, rest))
  {
    hide ReadName, After, SqlDump.QuoteIdentifier, Letters;
    var texts := SqlDump.QuoteIdentifiers(e, names);
    assert texts[0] == SqlDump.QuoteIdentifier(e, names[0]) && texts[1..] == SqlDump.QuoteIdentifiers(e, names[1..]);
    if names[1..] == [] {
      assert Join(texts, ", ") == texts[0];
      NameBack(e, names[0], rest);
      NotStarted(rest, ", ");
      assert names == [names[0]];
    } else {
      var u := Letters(Join(texts[1..], ", ")) + rest;
      NamesBack(e, names[1..], rest);
      ListSplits(texts[0], ", ", Join(texts[1..], ", "), rest);
      CommaWithout(e, u);
      NameBack(e, names[0], Letters(", ") + u);
      StartsOwn(", ", u);
      assert names == [names[0]] + names[1..];
      assert |texts| > 1;
    }
  }

  lemma ListSplits(first: string, separator: string, others: string, rest: Symbols)
    ensures Letters(first + separator + others) + rest == Letters(first) + (Letters(separator) + (Letters(others) + rest))
  {}

  lemma CommaWithout(e: Engine, u: Symbols)
    ensures Without(Letters(", ") + u, SqlDump.IdentifierQuote(e))
  {}

  // ---- Conditions ----

  lemma ValueBack(param: Param, rest: Symbols)
    ensures ReadValue([Value(param)] + rest) == Some((param, rest))
  {
    assert ([Value(param)] + rest)[1..] == rest;
  }

  lemma OneHoleFilled(param: Param)
    ensures HoleCount([Hole]) == 1 && Fill([Hole], [param]) == [Value(param)]
  {
    assert [Hole][1..] == [] && [param][1..] == [];
  }

  lemma HoleAndCommaFilled(param: Param)
    ensures HoleCount([Hole, Fixed(", ")]) == 1
    ensures Fill([Hole, Fixed(", ")], [param]) == [Value(param)] + Letters(", ")
  {
    hide Fill, HoleCount, Letters;
    OneHoleFilled(param);
    FillFixed(", ");
    FillAppend([Hole], [param], [Fixed(", ")], []);
    assert [param] + [] == [param] && [Hole] + [Fixed(", ")] == [Hole, Fixed(", ")];
  }

  /** Values with commas. */
  function ValueSymbols(params: seq<Param>): Symbols
    requires params != []
  {
    [Value(params[0])] + if |params| == 1 then [] else Letters(", ") + ValueSymbols(params[1..])
  }

  lemma HoleListUnfold(n: nat)
    requires n >= 2
    ensures HoleList(n) == [Hole, Fixed(", ")] + HoleList(n - 1)
  {}

  lemma {:induction false} HolesFilled(params: seq<Param>)
    requires params != []
    ensures HoleCount(HoleList(|params|)) == |params|
    ensures Fill(HoleList(|params|), params) == ValueSymbols(params)
  {
    var n := |params|;
    HoleListCount(n);
    if n == 1 {
      OneHoleFilled(params[0]);
      assert params == [params[0]];
    } else {
      HoleListUnfold(n);
      HoleListCount(n - 1);
      hide Fill, HoleCount, HoleList, Letters;
      HolesFilled(params[1..]);
      HoleAndCommaFilled(params[0]);
      FillAppend([Hole, Fixed(", ")], [params[0]], HoleList(n - 1), params[1..]);
      assert [params[0]] + params[1..] == params;
      Assoc([Value(params[0])], Letters(", "), ValueSymbols(params[1..]));
    }
  }

  lemma {:induction false} ValuesBack(params: seq<Param>, rest: Symbols)
    requires params != [] && Without(rest, ',')
    ensures ReadValues(ValueSymbols(params) + rest) == Some((params, rest))
  {
    hide ReadValue, After, Letters;
    if |params| == 1 {
      assert ValueSymbols(params) == [Value(params[0])];
      ValueBack(params[0], rest);
      NotStarted(rest, ", ");
      assert params == [params[0]];
    } else {
      var u := ValueSymbols(params[1..]) + rest;
      ValuesBack(params[1..], rest);
      assert ValueSymbols(params) + rest == [Value(params[0])] + (Letters(", ") + u);
      ValueBack(params[0], Letters(", ") + u);
      StartsOwn(", ", u);
      assert params == [params[0]] + params[1..];
    }
  }

  /** A LIKE with its pattern, as the server receives it. */
  function LikeSymbols(e: Engine, column: string, param: Param, rest: Symbols): Symbols {
    Letters(SqlDump.QuoteIdentifier(e, column))
    + (Letters(LikeText(e)) + ([Value(param)] + (Letters(EscapeText(e)) + rest)))
  }

  lemma LikeFilled(e: Engine, column: string, param: Param, rest: Symbols)
    ensures HoleCount(LikeParts(e, column)) == 1
    ensures Fill(LikeParts(e, column), [param]) + rest == LikeSymbols(e, column, param, rest)
  {
    var name := SqlDump.QuoteIdentifier(e, column);
    hide SqlDump.QuoteIdentifier;
    LikeCount(e, column);
    var none: seq<Param> := [];
    FillFixed(name);
    FillFixed(EscapeText(e));
    FillPair(LikeText(e), param);
    FillAppend([Fixed(name)], none, [Fixed(LikeText(e)), Hole], [param]);
    FillAppend([Fixed(name)] + [Fixed(LikeText(e)), Hole], [param], [Fixed(EscapeText(e))], none);
    assert none + [param] == [param] && [param] + none == [param];
    assert LikeParts(e, column) == [Fixed(name)] + [Fixed(LikeText(e)), Hole] + [Fixed(EscapeText(e))];
    hide Letters, Fill, LikeText, EscapeText;
    var a, b, v, z := Letters(name), Letters(LikeText(e)), [Value(param)], Letters(EscapeText(e));
    assert a + (b + v) + z + rest == a + (b + (v + (z + rest)));
  }

  lemma PatternBack(e: Engine, param: Param, rest: Symbols)
    ensures ReadPattern(e, Letters(LikeText(e)) + ([Value(param)] + (Letters(EscapeText(e)) + rest))) == Some((param, rest))
  {
    hide Letters, After, ReadValue, LikeText, EscapeText;
    StartsOwn(EscapeText(e), rest);
    ValueBack(param, Letters(EscapeText(e)) + rest);
    StartsOwn(LikeText(e), [Value(param)] + (Letters(EscapeText(e)) + rest));
  }

  lemma LikeNameBack(e: Engine, column: string, param: Param, rest: Symbols)
    ensures ReadName(e, LikeSymbols(e, column, param, rest))
         == Some((column, Letters(LikeText(e)) + ([Value(param)] + (Letters(EscapeText(e)) + rest))))
    ensures After(LikeSymbols(e, column, param, rest), "(") == None
  {
    hide ReadName, SqlDump.QuoteIdentifier;
    var t := Letters(LikeText(e)) + ([Value(param)] + (Letters(EscapeText(e)) + rest));
    assert t[0] == Letter(' ');
    NameBack(e, column, t);
  }

  lemma LikesFilled(e: Engine, columns: seq<string>, params: seq<Param>, rest: Symbols)
    requires columns != [] && |params| == |columns|
    ensures HoleCount(AnyLikeParts(e, columns)) == |params| && HoleCount(AnyLikeParts(e, columns[1..])) == |params| - 1
    ensures Fill(AnyLikeParts(e, columns), params) + rest
         == LikeSymbols(e, columns[0], params[0],
              if |columns| == 1 then rest else Letters(" OR ") + (Fill(AnyLikeParts(e, columns[1..]), params[1..]) + rest))
  {
    hide Fill, LikeParts, Letters, LikeSymbols;
    AnyLikeCount(e, columns);
    AnyLikeCount(e, columns[1..]);
    var p, none := [params[0]], [];
    LikeCount(e, columns[0]);
    if |columns| == 1 {
      assert params == p;
      LikeFilled(e, columns[0], params[0], rest);
    } else {
      var others := AnyLikeParts(e, columns[1..]);
      FillFixed(" OR ");
      FillAppend(LikeParts(e, columns[0]), p, [Fixed(" OR ")], none);
      assert p + none == p && p + params[1..] == params;
      FillAppend(LikeParts(e, columns[0]) + [Fixed(" OR ")], p, others, params[1..]);
      var a, b, c := Fill(LikeParts(e, columns[0]), p), Letters(" OR "), Fill(others, params[1..]);
      assert a + b + c + rest == a + (b + (c + rest));
      LikeFilled(e, columns[0], params[0], b + (c + rest));
    }
  }

  lemma {:induction false} LikesBack(e: Engine, columns: seq<string>, params: seq<Param>, rest: Symbols)
    requires columns != [] && |params| == |columns| && Without(rest, ' ')
    ensures HoleCount(AnyLikeParts(e, columns)) == |params|
    ensures ReadLikes(e, Fill(AnyLikeParts(e, columns), params) + rest) == Some((columns, params, rest))
  {
    hide Fill, AnyLikeParts, LikeSymbols, ReadName, ReadPattern, After, Letters;
    LikesFilled(e, columns, params, rest);
    if |columns| == 1 {
      LikeNameBack(e, columns[0], params[0], rest);
      PatternBack(e, params[0], rest);
      NotStarted(rest, " OR ");
      assert columns == [columns[0]] && params == [params[0]];
    } else {
      var u := Fill(AnyLikeParts(e, columns[1..]), params[1..]) + rest;
      LikesBack(e, columns[1..], params[1..], rest);
      LikeNameBack(e, columns[0], params[0], Letters(" OR ") + u);
      PatternBack(e, params[0], Letters(" OR ") + u);
      StartsOwn(" OR ", u);
      assert columns == [columns[0]] + columns[1..] && params == [params[0]] + params[1..];
    }
  }

  /** The conditions that filters and searches lead to. */
  predicate Readable(c: Condition) {
    && Matched(c)
    && (c.clause.InList? ==> c.clause.count >= 1)
    && (c.clause.AnyLike? ==> c.clause.columns != [])
    && (c.clause.Compare? ==> c.clause.operator in [Eq, Neq, Gt, Gte, Lt, Lte])
  }

  /** What a condition says of its column. */
  function TestSymbols(e: Engine, c: Condition, rest: Symbols): Symbols
    requires Readable(c) && !c.clause.AnyLike?
  {
    match c.clause
    case NullTest(_, negated) => Letters(if negated then " IS NOT NULL" else " IS NULL") + rest
    case InList(_, _) => Letters(" IN (") + (ValueSymbols(c.params) + (Letters(")") + rest))
    case LikeTest(_) => Letters(LikeText(e)) + ([Value(c.params[0])] + (Letters(EscapeText(e)) + rest))
    case Compare(_, op) => Letters(" " + OperatorText(op) + " ") + ([Value(c.params[0])] + rest)
  }

  lemma TestFilled(e: Engine, c: Condition, rest: Symbols)
    requires Readable(c) && !c.clause.AnyLike?
    ensures ConditionSymbols(e, c) + rest
         == Letters(SqlDump.QuoteIdentifier(e, c.clause.column)) + TestSymbols(e, c, rest)
  {
    var name := SqlDump.QuoteIdentifier(e, c.clause.column);
    hide SqlDump.QuoteIdentifier, Fill, HoleCount, Letters, HoleList, LikeParts, ValueSymbols;
    ClauseHoles(e, c.clause);
    var none: seq<Param> := [];
    FillFixed(name);
    assert none + c.params == c.params;
    match c.clause {
      case NullTest(_, negated) =>
        var text := if negated then " IS NOT NULL" else " IS NULL";
        FillFixed(text);
        FillAppend([Fixed(name)], none, [Fixed(text)], none);
        assert ClauseParts(e, c.clause) == [Fixed(name)] + [Fixed(text)] && c.params == none + none;
        Assoc(Letters(name), Letters(text), rest);
      case InList(_, count) =>
        InListFilled(e, name, count, c.params, rest);
        assert ClauseParts(e, c.clause) == [Fixed(name), Fixed(" IN (")] + HoleList(count) + [Fixed(")")];
      case LikeTest(column) =>
        LikeFilled(e, column, c.params[0], rest);
        assert c.params == [c.params[0]];
      case Compare(_, op) =>
        var text := " " + OperatorText(op) + " ";
        FillPair(text, c.params[0]);
        assert c.params == [c.params[0]];
        FillAppend([Fixed(name)], none, [Fixed(text), Hole], c.params);
        assert ClauseParts(e, c.clause) == [Fixed(name)] + [Fixed(text), Hole];
        assert Letters(name) + (Letters(text) + [Value(c.params[0])]) + rest
            == Letters(name) + (Letters(text) + ([Value(c.params[0])] + rest));
    }
  }

  lemma InListFilled(e: Engine, name: string, count: nat, params: seq<Param>, rest: Symbols)
    requires |params| == count && params != []
    ensures var parts := [Fixed(name), Fixed(" IN (")] + HoleList(count) + [Fixed(")")];
      HoleCount(parts) == count
      && Fill(parts, params) + rest
         == Letters(name) + (Letters(" IN (") + (ValueSymbols(params) + (Letters(")") + rest)))
  {
    hide Fill, HoleCount, Letters, HoleList, ValueSymbols;
    var none: seq<Param> := [];
    HolesFilled(params);
    FillFixed(name);
    FillFixed(" IN (");
    FillFixed(")");
    FillAppend([Fixed(name)], none, [Fixed(" IN (")], none);
    var open := [Fixed(name)] + [Fixed(" IN (")];
    assert open == [Fixed(name), Fixed(" IN (")] && none + none == none;
    FillAppend(open, none, HoleList(count), params);
    assert none + params == params && params + none == params;
    FillAppend(open + HoleList(count), params, [Fixed(")")], none);
    var a, b, v, z := Letters(name), Letters(" IN ("), ValueSymbols(params), Letters(")");
    assert a + b + v + z + rest == a + (b + (v + (z + rest)));
  }

  /** The operators in the order in which the reader tries them. */
  lemma OperatorBack(op: Operator, rest: Symbols)
    requires op in [Eq, Neq, Gt, Gte, Lt, Lte]
    ensures ReadOperator(Letters(" " + OperatorText(op) + " ") + rest) == Some((op, rest))
  {
    hide Starts, After, Letters;
    match op {
      case Eq =>
        OwnOperator(op, " = ", rest);
      case Neq =>
        OwnOperator(op, " <> ", rest);
        Differs(" <> ", " = ", 1, rest);
      case Gt =>
        OwnOperator(op, " > ", rest);
        Differs(" > ", " = ", 1, rest);
        Differs(" > ", " <> ", 1, rest);
      case Gte =>
        OwnOperator(op, " >= ", rest);
        Differs(" >= ", " = ", 1, rest);
        Differs(" >= ", " <> ", 1, rest);
        Differs(" >= ", " > ", 2, rest);
      case Lt =>
        OwnOperator(op, " < ", rest);
        Differs(" < ", " = ", 1, rest);
        Differs(" < ", " <> ", 2, rest);
        Differs(" < ", " > ", 1, rest);
        Differs(" < ", " >= ", 1, rest);
      case Lte =>
        OwnOperator(op, " <= ", rest);
        Differs(" <= ", " = ", 1, rest);
        Differs(" <= ", " <> ", 2, rest);
        Differs(" <= ", " > ", 1, rest);
        Differs(" <= ", " >= ", 1, rest);
        Differs(" <= ", " < ", 2, rest);
      case _ =>
    }
  }

  lemma OwnOperator(op: Operator, text: string, rest: Symbols)
    requires " " + OperatorText(op) + " " == text
    ensures Starts(Letters(text) + rest, text) && |text| <= |Letters(text) + rest|
    ensures (Letters(text) + rest)[|text|..] == rest
    ensures Letters(" " + OperatorText(op) + " ") + rest == Letters(text) + rest
  {
    StartsOwn(text, rest);
  }

  lemma AfterIs(s: Symbols, text: string, rest: Symbols)
    requires After(s, text) == Some(rest)
    ensures |text| <= |s| && s[|text|..] == rest
  {}

  /** The first four tests do not match a text that differs from them in its second or third character. */
  lemma NoKeyword(e: Engine, text: string, rest: Symbols)
    requires |text| >= 3 && text[0] == ' ' && text[1] != 'I' && text[1] != 'L'
    ensures !Starts(Letters(text) + rest, " IS NULL") && !Starts(Letters(text) + rest, " IS NOT NULL")
    ensures !Starts(Letters(text) + rest, " IN (") && !Starts(Letters(text) + rest, LikeText(e))
  {
    hide Starts, Letters;
    Differs(text, " IS NULL", 1, rest);
    Differs(text, " IS NOT NULL", 1, rest);
    Differs(text, " IN (", 1, rest);
    Differs(text, LikeText(e), 1, rest);
  }

  lemma NullBack(e: Engine, column: string, negated: bool, rest: Symbols)
    ensures ReadTest(e, column, Letters(if negated then " IS NOT NULL" else " IS NULL") + rest)
         == Some((Condition(NullTest(column, negated), []), rest))
  {
    hide Starts, After, Letters, ReadPattern, ReadOperator;
    var text := if negated then " IS NOT NULL" else " IS NULL";
    StartsOwn(text, rest);
    AfterIs(Letters(text) + rest, text, rest);
    if negated {
      Differs(text, " IS NULL", 5, rest);
    }
  }

  lemma InKeyword(u: Symbols)
    ensures var s := Letters(" IN (") + u;
      !Starts(s, " IS NULL") && !Starts(s, " IS NOT NULL") && Starts(s, " IN (") && |s| >= 5 && s[5..] == u
  {
    hide Letters, Starts;
    StartsOwn(" IN (", u);
    AfterIs(Letters(" IN (") + u, " IN (", u);
    Differs(" IN (", " IS NULL", 2, u);
    Differs(" IN (", " IS NOT NULL", 2, u);
  }

  lemma InBack(e: Engine, column: string, params: seq<Param>, rest: Symbols)
    requires params != []
    ensures ReadTest(e, column, Letters(" IN (") + (ValueSymbols(params) + (Letters(")") + rest)))
         == Some((Condition(InList(column, |params|), params), rest))
  {
    hide Starts, After, Letters, ReadPattern, ReadOperator, ValueSymbols, ReadValues, Without;
    var close := Letters(")") + rest;
    Closing(rest);
    ValuesBack(params, close);
    StartsOwn(")", rest);
    InKeyword(ValueSymbols(params) + close);
  }

  lemma Closing(rest: Symbols)
    ensures Without(Letters(")") + rest, ',') && Without(Letters(")") + rest, ' ')
  {}

  lemma LikeBack(e: Engine, column: string, param: Param, rest: Symbols)
    ensures ReadTest(e, column, Letters(LikeText(e)) + ([Value(param)] + (Letters(EscapeText(e)) + rest)))
         == Some((Condition(LikeTest(column), [param]), rest))
  {
    hide Starts, After, Letters, ReadPattern, ReadOperator, ReadValues;
    var u := [Value(param)] + (Letters(EscapeText(e)) + rest);
    PatternBack(e, param, rest);
    StartsOwn(LikeText(e), u);
    Differs(LikeText(e), " IS NULL", if e == SqlLexer.Mysql then 1 else 2, u);
    Differs(LikeText(e), " IS NOT NULL", if e == SqlLexer.Mysql then 1 else 2, u);
    Differs(LikeText(e), " IN (", if e == SqlLexer.Mysql then 1 else 2, u);
  }

  lemma CompareBack(e: Engine, column: string, op: Operator, param: Param, rest: Symbols)
    requires op in [Eq, Neq, Gt, Gte, Lt, Lte]
    ensures ReadTest(e, column, Letters(" " + OperatorText(op) + " ") + ([Value(param)] + rest))
         == Some((Condition(Compare(column, op), [param]), rest))
  {
    var text := " " + OperatorText(op) + " ";
    NoKeyword(e, text, [Value(param)] + rest);
    hide Starts, After, Letters, ReadPattern, ReadOperator, ReadValue, ReadValues, OperatorText;
    OperatorBack(op, [Value(param)] + rest);
    ValueBack(param, rest);
  }

  /** A condition on one column is read back from its own text. */
  lemma TestBack(e: Engine, c: Condition, rest: Symbols)
    requires Readable(c) && !c.clause.AnyLike?
    ensures ReadTest(e, c.clause.column, TestSymbols(e, c, rest)) == Some((c, rest))
  {
    hide ReadTest, Letters, Fill;
    match c.clause
    case NullTest(column, negated) =>
      assert c.params == [];
      NullBack(e, column, negated, rest);
    case InList(column, count) =>
      InBack(e, column, c.params, rest);
    case LikeTest(column) =>
      assert c.params == [c.params[0]];
      LikeBack(e, column, c.params[0], rest);
    case Compare(column, op) =>
      assert c.params == [c.params[0]];
      CompareBack(e, column, op, c.params[0], rest);
  }

  lemma TestUnquoted(e: Engine, c: Condition, rest: Symbols)
    requires Readable(c) && !c.clause.AnyLike?
    ensures Without(TestSymbols(e, c, rest), SqlDump.IdentifierQuote(e))
  {
    var s := TestSymbols(e, c, rest);
    assert s[0] == Letter(' ');
  }

  lemma AnyLikeFilled(e: Engine, c: Condition, rest: Symbols)
    requires Readable(c) && c.clause.AnyLike?
    ensures HoleCount(AnyLikeParts(e, c.clause.columns)) == |c.params|
    ensures ConditionSymbols(e, c) + rest
         == Letters("(") + (Fill(AnyLikeParts(e, c.clause.columns), c.params) + (Letters(")") + rest))
  {
    hide Fill, HoleCount, Letters, AnyLikeParts;
    var likes, none := AnyLikeParts(e, c.clause.columns), [];
    ClauseHoles(e, c.clause);
    AnyLikeCount(e, c.clause.columns);
    FillFixed("(");
    FillFixed(")");
    FillAppend([Fixed("(")], none, likes, c.params);
    assert none + c.params == c.params && c.params + none == c.params;
    FillAppend([Fixed("(")] + likes, c.params, [Fixed(")")], none);
    var a, v, z := Letters("("), Fill(likes, c.params), Letters(")");
    assert a + v + z + rest == a + (v + (z + rest));
  }

  /** Every condition is read back from its own text, whatever its columns are called. */
  lemma ConditionBack(e: Engine, c: Condition, rest: Symbols)
    requires Readable(c)
    ensures ReadCondition(e, ConditionSymbols(e, c) + rest) == Some((c, rest))
  {
    if c.clause.AnyLike? {
      var close := Letters(")") + rest;
      Closing(rest);
      hide Letters, Fill, After, ReadLikes, ConditionSymbols, Without;
      AnyLikeFilled(e, c, rest);
      LikesBack(e, c.clause.columns, c.params, close);
      StartsOwn(")", rest);
      StartsOwn("(", Fill(AnyLikeParts(e, c.clause.columns), c.params) + close);
    } else {
      hide Letters, After, ReadName, ReadTest, ConditionSymbols, TestSymbols, SqlDump.QuoteIdentifier, Without;
      TestFilled(e, c, rest);
      TestUnquoted(e, c, rest);
      NameBack(e, c.clause.column, TestSymbols(e, c, rest));
      TestBack(e, c, rest);
    }
  }

  /** `s` does not go on with ` AND `. */
  predicate NoAnd(s: Symbols) { !Starts(s, " AND ") }

  lemma {:induction false} ConditionsBack(e: Engine, cs: seq<Condition>, rest: Symbols)
    requires cs != [] && (forall c | c in cs :: Matched(c) && Readable(c)) && NoAnd(rest)
    ensures ReadConditions(e, WhereSymbols(e, cs) + rest) == Some((cs, rest))
  {
    hide ReadCondition, ConditionSymbols, After, Letters, Readable, Starts;
    if |cs| == 1 {
      ConditionBack(e, cs[0], rest);
      NoAfter(rest);
      assert cs == [cs[0]];
    } else {
      var u := WhereSymbols(e, cs[1..]) + rest;
      ConditionsBack(e, cs[1..], rest);
      var a, b := ConditionSymbols(e, cs[0]), Letters(" AND ");
      assert a + b + WhereSymbols(e, cs[1..]) + rest == a + (b + u);
      ConditionBack(e, cs[0], b + u);
      StartsOwn(" AND ", u);
      assert cs == [cs[0]] + cs[1..];
    }
  }

  lemma NoAfter(s: Symbols)
    requires NoAnd(s)
    ensures After(s, " AND ") == None
  {}
}
