/**
 * Where an upload may be cut into chunks without changing the statements found in it, and what
 * holds of the statements however it is cut.
 */
module SqlChunks {
  import opened Text
  import opened SqlLexer

  // ---- One token at a chunk boundary ----

  /** `a` could be the beginning of a longer dollar tag. */
  predicate PartialTag(a: string) {
    a != "" && a[0] == '$' && IdentLength(a[1..]) == |a| - 1
  }

  /** `a` is the beginning of a token that only later text completes. */
  predicate Open(e: Engine, m: Mode, a: string) {
    match m
    case Normal => a == "-" || a == "/" || (e == Postgresql && PartialTag(a))
    case LineComment => false
    case BlockComment(_) => a == "/" || a == "*"
    case Quoted(_) => a == "\\"
    case Dollar(tag) => a != "" && |a| < |tag| && a <= tag
  }

  lemma {:induction false} WordPrefix(a: string, b: string)
    ensures WordLength(a + b) == if WordLength(a) < |a| then WordLength(a) else |a| + WordLength(b)
  {
    if a == "" {
      assert a + b == b;
    } else {
      assert (a + b)[0] == a[0];
      assert (a + b)[1..] == a[1..] + b;
      WordPrefix(a[1..], b);
    }
  }

  lemma TagPrefix(a: string, b: string)
    requires a != ""
    ensures TagLength(a) != 0 || (TagLength(a + b) != 0 && !PartialTag(a)) ==> TagLength(a + b) == TagLength(a)
    ensures TagLength(a + b) <= |a| ==> TagLength(a + b) == TagLength(a)
  {
    var c := a + b;
    assert c[0] == a[0];
    assert c[1..] == a[1..] + b;
    WordPrefix(a[1..], b);
    var n := 1 + IdentLength(a[1..]);
    if a[0] == '$' && |a| > 1 {
      assert c[1..][0] == a[1..][0];
      if IsIdentStart(a[1]) {
        assert WordLength(a[1..]) > 0;
      }
      assert n < |a| ==> IdentLength(c[1..]) == n - 1 && c[n] == a[n];
    }
  }

  /** A token that ends inside `a` is the same whether or not `b` follows. */
  lemma FitStep(e: Engine, m: Mode, a: string, b: string)
    requires a != "" && Step(e, m, a + b).width <= |a|
    ensures Step(e, m, a) == Step(e, m, a + b)
  {
    var c := a + b;
    assert c[0] == a[0];
    assert |a| >= 2 ==> c[1] == a[1];
    match m
    case Normal =>
      TagPrefix(a, b);
      assert c[..TagLength(a)] == a[..TagLength(a)];
    case Dollar(tag) =>
      assert |tag| <= |a| ==> c[..|tag|] == a[..|tag|];
    case _ =>
  }

  /** Unless it is open or a closing quote at the end of `a`, the first token ignores what follows. */
  lemma StableStep(e: Engine, m: Mode, a: string, b: string)
    requires a != "" && !Open(e, m, a) && !(m.Quoted? && a == [m.quote])
    ensures Step(e, m, a) == Step(e, m, a + b)
    ensures Step(e, m, a).width <= |a|
  {
    var c := a + b;
    assert c[0] == a[0];
    assert |a| >= 2 ==> c[1] == a[1];
    match m
    case Normal =>
      TagPrefix(a, b);
      assert c[..TagLength(a)] == a[..TagLength(a)];
    case Dollar(tag) =>
      if |tag| <= |a| {
        assert c[..|tag|] == a[..|tag|];
      } else {
        var j :| 0 <= j < |a| && a[j] != tag[j];
        assert c[j] == a[j];
      }
    case _ =>
  }

  // ---- Aligned chunks ----

  /**
   * The boundary between `a` and `b` falls between two tokens of the lexer run on the joined text,
   * or between the two characters of a doubled quote.
   */
  predicate Aligned(e: Engine, m: Mode, a: string, b: string)
    decreases |a|
  {
    if a == "" || b == "" then true
    else
      var k := Step(e, m, a + b);
      if k.width <= |a| then Aligned(e, k.mode, a[k.width..], b)
      else m.Quoted? && a == [m.quote] && b[0] == m.quote
  }

  /** Every chunk boundary is aligned. */
  predicate AlignedChunks(e: Engine, m: Mode, chunks: seq<string>)
    decreases chunks
  {
    chunks == []
    || (Aligned(e, m, chunks[0], Concat(chunks[1..])) && AlignedChunks(e, EndMode(e, m, chunks[0]), chunks[1..]))
  }

  /** `k` is the first token of `t`. */
  lemma Unfold(e: Engine, m: Mode, t: string, k: Token, pos: nat)
    requires t != "" && Step(e, m, t) == k && k.width <= |t|
    ensures Cuts(e, m, t, pos) == (if k.cut then [pos] else []) + Cuts(e, k.mode, t[k.width..], pos + k.width)
    ensures EndMode(e, m, t) == EndMode(e, k.mode, t[k.width..])
  {
    hide Step;
  }

  /** `k` is the first token of both `a` and `a + b`. */
  lemma UnfoldBoth(e: Engine, m: Mode, a: string, b: string, k: Token, pos: nat)
    requires a != "" && Step(e, m, a) == k == Step(e, m, a + b) && k.width <= |a|
    ensures Cuts(e, m, a + b, pos)
         == (if k.cut then [pos] else []) + Cuts(e, k.mode, a[k.width..] + b, pos + k.width)
    ensures Cuts(e, m, a, pos) == (if k.cut then [pos] else []) + Cuts(e, k.mode, a[k.width..], pos + k.width)
    ensures EndMode(e, m, a + b) == EndMode(e, k.mode, a[k.width..] + b)
    ensures EndMode(e, m, a) == EndMode(e, k.mode, a[k.width..])
  {
    hide Step;
    Unfold(e, m, a, k, pos);
    Unfold(e, m, a + b, k, pos);
    assert (a + b)[k.width..] == a[k.width..] + b;
  }

  /** Reading an aligned boundary in one or in two parts makes no difference. */
  lemma {:induction false} Sync(e: Engine, m: Mode, a: string, b: string, pos: nat)
    requires ValidMode(e, m) && Aligned(e, m, a, b)
    ensures Cuts(e, m, a + b, pos) == Cuts(e, m, a, pos) + Cuts(e, EndMode(e, m, a), b, pos + |a|)
    ensures EndMode(e, m, a + b) == EndMode(e, EndMode(e, m, a), b)
    decreases |a|
  {
    hide Step, Cuts, EndMode;
    if a == "" || b == "" {
      SyncEmpty(e, m, a, b, pos);
    } else {
      var k := Step(e, m, a + b);
      if k.width <= |a| {
        FitStep(e, m, a, b);
        StepValid(e, m, a);
        UnfoldBoth(e, m, a, b, k, pos);
        Sync(e, k.mode, a[k.width..], b, pos + k.width);
        Assoc(if k.cut then [pos] else [], Cuts(e, k.mode, a[k.width..], pos + k.width),
              Cuts(e, EndMode(e, m, a), b, pos + |a|));
      } else {
        SyncDoubledQuote(e, m.quote, b, pos);
      }
    }
  }

  lemma SyncEmpty(e: Engine, m: Mode, a: string, b: string, pos: nat)
    requires a == "" || b == ""
    ensures Cuts(e, m, a + b, pos) == Cuts(e, m, a, pos) + Cuts(e, EndMode(e, m, a), b, pos + |a|)
    ensures EndMode(e, m, a + b) == EndMode(e, EndMode(e, m, a), b)
  {
    hide Step;
    if a == "" {
      assert a + b == b && Cuts(e, m, a, pos) == [];
    } else {
      assert a + b == a && Cuts(e, EndMode(e, m, a), b, pos + |a|) == [];
    }
  }

  lemma SyncDoubledQuote(e: Engine, q: char, b: string, pos: nat)
    requires IsQuote(e, q) && b != "" && b[0] == q
    ensures Cuts(e, Quoted(q), [q], pos) == [] && EndMode(e, Quoted(q), [q]) == Normal
    ensures Cuts(e, Quoted(q), [q] + b, pos) == Cuts(e, Normal, b, pos + 1)
    ensures EndMode(e, Quoted(q), [q] + b) == EndMode(e, Normal, b)
  {
    var t := [q] + b;
    assert StartsWith(t, q, q);
    Unfold(e, Quoted(q), t, Token(Quoted(q), 2, false), pos);
    Unfold(e, Normal, b, Token(Quoted(q), 1, false), pos + 1);
    Unfold(e, Quoted(q), [q], Token(Normal, 1, false), pos);
    assert t[2..] == b[1..];
    assert [q][1..] == "";
  }

  lemma {:induction false} EndModeValid(e: Engine, m: Mode, t: string)
    requires ValidMode(e, m)
    ensures ValidMode(e, EndMode(e, m, t))
    decreases |t|
  {
    hide Step;
    if t != "" {
      StepValid(e, m, t);
      EndModeValid(e, Step(e, m, t).mode, Rest(e, m, t));
    }
  }

  lemma {:induction false} AlignedCuts(e: Engine, m: Mode, chunks: seq<string>, pos: nat)
    requires ValidMode(e, m) && AlignedChunks(e, m, chunks)
    ensures ChunkCuts(e, m, chunks, pos) == Cuts(e, m, Concat(chunks), pos)
    decreases chunks
  {
    hide Step;
    if chunks != [] {
      var c := chunks[0];
      EndModeValid(e, m, c);
      Sync(e, m, c, Concat(chunks[1..]), pos);
      AlignedCuts(e, EndMode(e, m, c), chunks[1..], pos + |c|);
    }
  }

  lemma OneChunk(e: Engine, t: string)
    ensures Concat([t]) == t
    ensures ChunkCuts(e, Normal, [t], 0) == Cuts(e, Normal, t, 0)
  {
    hide Step, Cuts;
    assert [t][1..] == [];
    assert t + "" == t;
    var rest: seq<string> := [];
    assert ChunkCuts(e, EndMode(e, Normal, t), rest, |t|) == [];
    assert Cuts(e, Normal, t, 0) + [] == Cuts(e, Normal, t, 0);
  }

  /** Chunking invariance: an aligned upload yields the statements and offsets of the whole text. */
  lemma AlignedChunkingInvariant(e: Engine, chunks: seq<string>)
    requires AlignedChunks(e, Normal, chunks)
    ensures Statements(e, chunks) == Statements(e, [Concat(chunks)])
  {
    AlignedCuts(e, Normal, chunks, 0);
    OneChunk(e, Concat(chunks));
  }

  // ---- Which first chunks are safe whatever follows ----

  /** The last token of `a` is left open: later text could still complete it. */
  predicate Pending(e: Engine, m: Mode, a: string)
    decreases |a|
  {
    a != "" && (Open(e, m, a) || (Step(e, m, a).width <= |a| && Pending(e, Step(e, m, a).mode, a[Step(e, m, a).width..])))
  }

  lemma {:induction false} NotPendingAligned(e: Engine, m: Mode, a: string, b: string)
    requires ValidMode(e, m) && !Pending(e, m, a)
    ensures Aligned(e, m, a, b)
    decreases |a|
  {
    hide Step;
    if a != "" && b != "" {
      if m.Quoted? && a == [m.quote] {
        QuoteAtEnd(e, m.quote, b);
      } else {
        StableStep(e, m, a, b);
        StepValid(e, m, a);
        NotPendingAligned(e, Step(e, m, a).mode, a[Step(e, m, a).width..], b);
      }
    }
  }

  lemma QuoteAtEnd(e: Engine, q: char, b: string)
    requires IsQuote(e, q) && b != ""
    ensures Aligned(e, Quoted(q), [q], b)
  {
    var t := [q] + b;
    assert t[0] == q && t[1] == b[0];
  }

  /** A semicolon and a last statement. */
  const SPLIT := ";x"

  lemma {:induction false} CutsBounded(e: Engine, m: Mode, t: string, pos: nat)
    ensures forall c | c in Cuts(e, m, t, pos) :: pos <= c < pos + |t|
    decreases |t|
  {
    hide Step;
    if t != "" {
      CutsBounded(e, Step(e, m, t).mode, Rest(e, m, t), pos + |t| - |Rest(e, m, t)|);
    }
  }

  lemma SplitCuts(e: Engine, m: Mode, pos: nat)
    requires ValidMode(e, m)
    ensures Cuts(e, m, SPLIT, pos) == if m == Normal then [pos] else []
  {
    var k := Step(e, m, SPLIT);
    assert SPLIT[1..] == "x" && "x"[1..] == "";
    assert k == Token(m, 1, m == Normal);
    assert Step(e, m, "x") == Token(m, 1, false);
    Unfold(e, m, SPLIT, k, pos);
    Unfold(e, m, "x", Token(m, 1, false), pos + 1);
  }

  /** The semicolon of `SPLIT` separates statements exactly when the text before it ends in `Normal`. */
  lemma SplitAfter(e: Engine, m: Mode, t: string, pos: nat)
    requires ValidMode(e, m) && Aligned(e, m, t, SPLIT)
    ensures pos + |t| in Cuts(e, m, t + SPLIT, pos) <==> EndMode(e, m, t) == Normal
  {
    hide Step, Cuts, EndMode;
    Sync(e, m, t, SPLIT, pos);
    EndModeValid(e, m, t);
    CutsBounded(e, m, t, pos);
    SplitCuts(e, EndMode(e, m, t), pos + |t|);
  }

  /** Reading `a + core` at once and in two parts ends in `Normal` in one of the two ways only. */
  ghost predicate Diverges(e: Engine, m: Mode, a: string, core: string) {
    && Aligned(e, m, a + core, SPLIT) && Aligned(e, EndMode(e, m, a), core, SPLIT)
    && (EndMode(e, m, a + core) == Normal) != (EndMode(e, EndMode(e, m, a), core) == Normal)
  }

  /** One token of known mode and width. */
  lemma OneToken(e: Engine, m: Mode, t: string, b: string, k: Token)
    requires t != "" && b != "" && k.width <= |t| && Step(e, m, t + b) == k
    ensures EndMode(e, m, t) == EndMode(e, k.mode, t[k.width..])
    ensures Aligned(e, m, t, b) == Aligned(e, k.mode, t[k.width..], b)
  {
    FitStep(e, m, t, b);
    Unfold(e, m, t, k, 0);
  }

  /** `n` times a blank and the end of a comment. */
  function Closers(n: nat): string {
    if n == 0 then "" else " */" + Closers(n - 1)
  }

  lemma CloseOne(e: Engine, d: nat, t: string, rest: string)
    requires d >= 1 && t == " */" + rest
    ensures var next := if d <= 1 then Normal else BlockComment(d - 1);
      && EndMode(e, BlockComment(d), t) == EndMode(e, next, rest)
      && Aligned(e, BlockComment(d), t, SPLIT) == Aligned(e, next, rest, SPLIT)
  {
    var u := t[1..];
    assert t[0] == ' ' && u[0] == '*' && u[1] == '/' && u[2..] == rest;
    OneToken(e, BlockComment(d), t, SPLIT, Token(BlockComment(d), 1, false));
    OneToken(e, BlockComment(d), u, SPLIT, Token(if d <= 1 then Normal else BlockComment(d - 1), 2, false));
  }

  lemma {:induction false} CloseComments(e: Engine, d: nat, n: nat)
    requires n <= d && 1 <= d
    ensures Aligned(e, BlockComment(d), Closers(n), SPLIT)
    ensures EndMode(e, BlockComment(d), Closers(n)) == if n == d then Normal else BlockComment(d - n)
  {
    hide Step;
    if n > 0 {
      CloseOne(e, d, Closers(n), Closers(n - 1));
      if d > 1 {
        CloseComments(e, d - 1, n - 1);
      } else {
        assert Closers(n - 1) == "";
      }
    }
  }

  lemma DivergeBlock(e: Engine, d: nat, a: string) returns (core: string)
    requires d >= 1 && (a == "/" || a == "*")
    ensures Diverges(e, BlockComment(d), a, core)
  {
    var m, n := BlockComment(d), if a == "/" then d else d - 1;
    var c := Closers(n);
    core := (if a == "/" then "*" else "/") + c;
    var t := a + core;
    assert core[1..] == c && t[2..] == c;
    assert c != "" ==> c[0] == ' ';
    var inner := if a == "/" then BlockComment(d + 1) else if d == 1 then Normal else BlockComment(d - 1);
    assert (t + SPLIT)[0] == a[0] && (t + SPLIT)[1] == core[0];
    OneToken(e, m, t, SPLIT, Token(inner, 2, false));
    assert a[1..] == "";
    Unfold(e, m, a, Token(m, 1, false), 0);
    assert (core + SPLIT)[0] == core[0] && ((core + SPLIT)[1] == ' ' || (core + SPLIT)[1] == ';');
    OneToken(e, m, core, SPLIT, Token(m, 1, false));
    CloseComments(e, d, n);
    if inner == Normal {
      assert c == "";
    } else {
      CloseComments(e, inner.depth, n);
    }
  }

  lemma LastToken(e: Engine, m: Mode, a: string)
    requires |a| == 1
    ensures EndMode(e, m, a) == Step(e, m, a).mode
  {
    hide Step;
    assert Rest(e, m, a) == "";
  }

  lemma DivergeShort(e: Engine, m: Mode, a: string) returns (core: string)
    requires ValidMode(e, m) && ((m == Normal && (a == "-" || a == "/")) || (m.Quoted? && a == "\\"))
    ensures Diverges(e, m, a, core)
  {
    core := if a == "-" then "-" else if a == "/" then "*" else [m.quote];
    var whole := if a == "-" then LineComment else if a == "/" then BlockComment(1) else m;
    assert (a + core)[2..] == "" && core[1..] == "";
    OneToken(e, m, a + core, SPLIT, Token(whole, 2, false));
    LastToken(e, m, a);
    OneToken(e, m, core, SPLIT, Token(Normal, 1, false));
  }

  /** Text that only has dollars right before the split cannot open or close a tag. */
  lemma {:induction false} InsideTag(e: Engine, m: Mode, t: string)
    requires ValidMode(e, m) && m.Dollar?
    requires forall i | 0 <= i < |t| - 1 :: t[i] != '$'
    ensures EndMode(e, m, t) == m && Aligned(e, m, t, SPLIT)
  {
    hide EndMode, Aligned;
    if t == "" {
      EmptyText(e, m, SPLIT);
    } else {
      var u := t + SPLIT;
      assert u[0] == t[0];
      assert |t| == 1 ==> u[1] == ';';
      assert m.tag[0] != u[0] || m.tag[1] != u[1];
      OneToken(e, m, t, SPLIT, Token(m, 1, false));
      InsideTag(e, m, t[1..]);
    }
  }

  lemma EmptyText(e: Engine, m: Mode, b: string)
    ensures EndMode(e, m, "") == m && Aligned(e, m, "", b)
  {}

  lemma DivergeDollar(e: Engine, m: Mode, a: string) returns (core: string)
    requires ValidMode(e, m) && m.Dollar? && Open(e, m, a)
    ensures Diverges(e, m, a, core)
  {
    core := m.tag[|a|..];
    var t := a + core;
    assert t == m.tag;
    assert t + SPLIT == m.tag + SPLIT && m.tag <= t + SPLIT;
    OneToken(e, m, t, SPLIT, Token(Normal, |t|, false));
    assert t[|t|..] == "";
    EmptyText(e, Normal, SPLIT);
    StaysInTag(e, m, a);
    InsideTag(e, m, core);
  }

  /** A text shorter than the tag cannot close it. */
  lemma {:induction false} StaysInTag(e: Engine, m: Mode, a: string)
    requires m.Dollar? && |a| < |m.tag|
    ensures EndMode(e, m, a) == m
    decreases |a|
  {
    if a != "" {
      Unfold(e, m, a, Token(m, 1, false), 0);
      StaysInTag(e, m, a[1..]);
    }
  }

  /** Identifier characters are ordinary text. */
  lemma {:induction false} PlainWord(e: Engine, a: string)
    requires WordLength(a) == |a|
    ensures EndMode(e, Normal, a) == Normal
  {
    hide EndMode;
    if a == "" {
      EmptyText(e, Normal, "");
    } else {
      Unfold(e, Normal, a, Token(Normal, 1, false), 0);
      PlainWord(e, a[1..]);
    }
  }

  lemma DivergeTag(e: Engine, a: string) returns (core: string)
    requires e == Postgresql && PartialTag(a)
    ensures Diverges(e, Normal, a, core)
  {
    core := "$";
    var t, u := a + core, a + core + SPLIT;
    assert u[1..] == a[1..] + ("$" + SPLIT);
    WordPrefix(a[1..], "$" + SPLIT);
    assert WordLength("$" + SPLIT) == 0;
    assert |a| > 1 ==> u[1..][0] == a[1..][0];
    assert |a| == 1 ==> u[1..][0] == '$';
    assert IdentLength(u[1..]) == |a| - 1;
    assert u[|a|] == '$';
    assert TagLength(u) == |t| && u[..|t|] == t;
    OneToken(e, Normal, t, SPLIT, Token(Dollar(t), |t|, false));
    assert t[|t|..] == "" && core[1..] == "";
    EmptyText(e, Dollar(t), SPLIT);
    assert TagLength(a) == 0;
    Unfold(e, Normal, a, Token(Normal, 1, false), 0);
    PlainWord(e, a[1..]);
    assert (core + SPLIT)[1..][0] == ';';
    assert TagLength(core + SPLIT) == 0;
    OneToken(e, Normal, core, SPLIT, Token(Normal, 1, false));
  }

  lemma DivergeOpen(e: Engine, m: Mode, a: string) returns (core: string)
    requires ValidMode(e, m) && Open(e, m, a)
    ensures Diverges(e, m, a, core)
  {
    hide Step, EndMode, Aligned;
    match m
    case Normal =>
      if a == "-" || a == "/" {
        core := DivergeShort(e, m, a);
      } else {
        core := DivergeTag(e, a);
      }
    case BlockComment(d) => core := DivergeBlock(e, d, a);
    case Quoted(_) => core := DivergeShort(e, m, a);
    case Dollar(_) => core := DivergeDollar(e, m, a);
  }

  /** The semicolon of `b == core + SPLIT` separates in one of the two readings only. */
  ghost predicate Breaks(e: Engine, m: Mode, a: string, core: string, pos: nat) {
    (pos + |a + core| in Cuts(e, m, a + (core + SPLIT), pos))
    != (pos + |a + core| in Cuts(e, m, a, pos) + Cuts(e, EndMode(e, m, a), core + SPLIT, pos + |a|))
  }

  lemma {:induction false} PendingBreaks(e: Engine, m: Mode, a: string, pos: nat) returns (core: string)
    requires ValidMode(e, m) && Pending(e, m, a)
    ensures Breaks(e, m, a, core, pos)
    decreases |a|
  {
    hide Step, EndMode, Aligned, Cuts;
    if Open(e, m, a) {
      core := DivergeOpen(e, m, a);
      SplitAfter(e, m, a + core, pos);
      EndModeValid(e, m, a);
      SplitAfter(e, EndMode(e, m, a), core, pos + |a|);
      CutsBounded(e, m, a, pos);
      Assoc(a, core, SPLIT);
    } else {
      var k := Step(e, m, a);
      StepValid(e, m, a);
      core := PendingBreaks(e, k.mode, a[k.width..], pos + k.width);
      StableStep(e, m, a, core + SPLIT);
      UnfoldBoth(e, m, a, core + SPLIT, k, pos);
    }
  }

  // ---- From cuts to statements ----

  /** Where the last statement begins. */
  function LastStart(start: nat, cuts: seq<nat>): nat {
    if cuts == [] then start else cuts[|cuts| - 1] + 1
  }

  lemma {:induction false} LastRecord(t: string, start: nat, cuts: seq<nat>)
    requires start <= |t| && Separators(t, start, |t|, cuts)
    requires t != "" && !IsSpace(t[|t| - 1]) && t[|t| - 1] != ';'
    requires start < |t|
    ensures var rs := Records(t, start, cuts);
      rs != [] && rs[|rs| - 1].start == LastStart(start, cuts)
    decreases |cuts|
  {
    hide IsSpace, Trim, Emit, EmitFinal;
    var all := Records(t, start, cuts);
    if cuts == [] {
      FinalRecord(t, start);
    } else {
      assert cuts[0] != |t| - 1;
      LastRecord(t, cuts[0] + 1, cuts[1..]);
      var rs := Records(t, cuts[0] + 1, cuts[1..]);
      assert all == Emit(t[start..cuts[0]], start) + rs;
      assert all[|all| - 1] == rs[|rs| - 1];
      assert LastStart(start, cuts) == LastStart(cuts[0] + 1, cuts[1..]);
    }
  }

  lemma FinalRecord(t: string, start: nat)
    requires start < |t| && !IsSpace(t[|t| - 1])
    ensures EmitFinal(t[start..], start) == [Record(Trim(t[start..]), start, |t|)]
  {
    hide IsSpace;
    var u := t[start..];
    assert u[|u| - 1] == t[|t| - 1];
    assert Tail(u) == |u|;
  }

  /** The last statement begins at `|t| - 1` exactly when the character before it is a cut. */
  lemma {:induction false} LastStartAtSplit(t: string, start: nat, cuts: seq<nat>)
    requires start + 2 <= |t| && Separators(t, start, |t|, cuts) && t[|t| - 1] != ';'
    ensures LastStart(start, cuts) == |t| - 1 <==> |t| - 2 in cuts
    decreases |cuts|
  {
    if cuts != [] {
      var rest := cuts[1..];
      assert cuts[0] != |t| - 1;
      if cuts[0] == |t| - 2 {
        assert rest == [];
      } else {
        LastStartAtSplit(t, cuts[0] + 1, rest);
        assert LastStart(start, cuts) == LastStart(cuts[0] + 1, rest);
      }
    }
  }

  lemma TwoChunks(e: Engine, a: string, b: string)
    ensures Concat([a, b]) == a + b
    ensures ChunkCuts(e, Normal, [a, b], 0) == Cuts(e, Normal, a, 0) + Cuts(e, EndMode(e, Normal, a), b, |a|)
  {
    hide Step, Cuts, EndMode;
    assert [a, b][1..] == [b] && [b][1..] == [];
    assert b + "" == b && Concat([b]) == b;
    var m := EndMode(e, Normal, a);
    assert ChunkCuts(e, m, [b], |a|) == Cuts(e, m, b, |a|) + ChunkCuts(e, EndMode(e, m, b), [], |a| + |b|);
    assert Cuts(e, m, b, |a|) + [] == Cuts(e, m, b, |a|);
  }

  lemma PendingIsUnsafe(e: Engine, a: string) returns (b: string)
    requires Pending(e, Normal, a)
    ensures Statements(e, [a, b]) != Statements(e, [a + b])
  {
    hide Step, EndMode, Cuts, Records, Pending;
    var core := PendingBreaks(e, Normal, a, 0);
    b := core + SPLIT;
    var t := a + b;
    assert t[|t| - 1] == 'x';
    TwoChunks(e, a, b);
    OneChunk(e, t);
    var whole, parts := ChunkCuts(e, Normal, [t], 0), ChunkCuts(e, Normal, [a, b], 0);
    ChunkCutsInside(e, Normal, t, 0, [t]);
    ChunkCutsInside(e, Normal, t, 0, [a, b]);
    LastRecord(t, 0, whole);
    LastRecord(t, 0, parts);
    LastStartAtSplit(t, 0, whole);
    LastStartAtSplit(t, 0, parts);
  }

  /**
   * A first chunk may be followed by any second chunk without changing the statements exactly when
   * it does not end inside a token that later text could complete.
   */
  lemma SafeFirstChunk(e: Engine, a: string)
    ensures (forall b: string :: Statements(e, [a, b]) == Statements(e, [a + b])) <==> !Pending(e, Normal, a)
  {
    hide Step, EndMode, Cuts, Records, Pending;
    if Pending(e, Normal, a) {
      var b := PendingIsUnsafe(e, a);
    } else {
      forall b: string
        ensures Statements(e, [a, b]) == Statements(e, [a + b])
      {
        NotPendingAligned(e, Normal, a, b);
        Sync(e, Normal, a, b, 0);
        TwoChunks(e, a, b);
        OneChunk(e, a + b);
      }
    }
  }

  // ---- Nothing is lost, however the upload is cut ----

  /** `rs` are disjoint, increasing spans of `t` from `start` on, and each holds its trimmed text. */
  ghost predicate Spans(t: string, start: nat, rs: seq<Record>)
    decreases |rs|
  {
    rs == [] || (
      && start <= rs[0].start < rs[0].end <= |t|
      && rs[0].sql == Trim(t[rs[0].start..rs[0].end]) != ""
      && Spans(t, rs[0].end, rs[1..]))
  }

  ghost predicate Covered(rs: seq<Record>, i: nat) {
    exists r | r in rs :: r.start <= i < r.end
  }

  lemma Tight(u: string)
    requires u != "" && !IsSpace(u[0]) && !IsSpace(u[|u| - 1])
    ensures Lead(u) == 0 && Tail(u) == |u| && Trim(u) == u
  {
    hide IsSpace;
    assert u[0..|u|] == u;
  }

  lemma TrimSlice(s: string)
    requires Lead(s) < |s|
    ensures Lead(s) < Tail(s) && Trim(s) == s[Lead(s)..Tail(s)]
    ensures !IsSpace(s[Lead(s)]) && !IsSpace(s[Tail(s) - 1])
  {
    hide IsSpace, Lead, Tail;
    assert !IsSpace(s[Lead(s)]);
  }

  lemma TrimTrimmed(s: string)
    requires Lead(s) < |s|
    ensures Lead(s) < Tail(s) && Trim(s) == s[Lead(s)..Tail(s)] != ""
    ensures Trim(Trim(s)) == Trim(s)
  {
    hide IsSpace, Lead, Tail, Trim;
    TrimSlice(s);
    var l, n := Lead(s), Tail(s);
    var u := s[l..n];
    assert u[0] == s[l] && u[|u| - 1] == s[n - 1];
    Tight(u);
  }

  lemma {:induction false} RecordsLossless(t: string, start: nat, cuts: seq<nat>)
    requires start <= |t| && Separators(t, start, |t|, cuts)
    ensures Spans(t, start, Records(t, start, cuts))
    ensures forall i | start <= i < |t| && !Covered(Records(t, start, cuts), i) :: IsSpace(t[i]) || i in cuts
    decreases |cuts|
  {
    hide IsSpace, Lead, Tail, Trim, Emit, EmitFinal;
    if cuts == [] {
      FinalLossless(t, start);
    } else {
      var c := cuts[0];
      RecordsLossless(t, c + 1, cuts[1..]);
      EmitLossless(t, start, c);
      var one, rest := Emit(t[start..c], start), Records(t, c + 1, cuts[1..]);
      SpansJoin(t, start, c, one, rest);
      forall i | start <= i < |t| && !Covered(one + rest, i)
        ensures IsSpace(t[i]) || i in cuts
      {
        assert !Covered(one, i) && !Covered(rest, i) by {
          assert forall r | r in one || r in rest :: r in one + rest;
        }
        assert i in cuts[1..] ==> i in cuts;
      }
    }
  }

  lemma EmitLossless(t: string, start: nat, end: nat)
    requires start <= end <= |t|
    ensures var rs := Emit(t[start..end], start);
      && |rs| <= 1 && Spans(t[..end], start, rs)
      && forall i | start <= i < end && !Covered(rs, i) :: IsSpace(t[i])
  {
    hide IsSpace, Lead, Tail;
    var u := t[start..end];
    var rs := Emit(u, start);
    if Lead(u) < |u| {
      TrimTrimmed(u);
      assert t[..end][rs[0].start..rs[0].end] == u[Lead(u)..Tail(u)];
    }
    forall i | start <= i < end && !Covered(rs, i)
      ensures IsSpace(t[i])
    {
      assert t[i] == u[i - start];
      assert rs != [] ==> rs[0] in rs;
    }
  }

  lemma FinalLossless(t: string, start: nat)
    requires start <= |t|
    ensures var rs := EmitFinal(t[start..], start);
      && Spans(t, start, rs)
      && forall i | start <= i < |t| && !Covered(rs, i) :: IsSpace(t[i])
  {
    hide IsSpace, Lead, Tail, Trim;
    var u := t[start..];
    var rs := EmitFinal(u, start);
    assert u == t[start..|t|];
    if Lead(u) < |u| {
      TrimTrimmed(u);
      assert rs == [Record(Trim(u), start, |t|)];
      assert forall i | start <= i < |t| :: Covered(rs, i) by {
        assert rs[0] in rs;
      }
    } else {
      BlankTrim(u);
      assert forall i | start <= i < |t| :: IsSpace(t[i]) by {
        assert forall i | start <= i < |t| :: t[i] == u[i - start];
      }
    }
  }

  lemma BlankTrim(s: string)
    requires Lead(s) == |s|
    ensures Trim(s) == ""
  {
    hide IsSpace, Lead, Tail;
  }

  lemma SpansJoin(t: string, start: nat, mid: nat, one: seq<Record>, rest: seq<Record>)
    requires start <= mid <= |t| && |one| <= 1
    requires Spans(t[..mid], start, one) && Spans(t, mid + 1, rest)
    ensures Spans(t, start, one + rest)
  {
    hide IsSpace, Lead, Tail, Trim;
    if one == [] {
      assert one + rest == rest;
    } else {
      assert (one + rest)[1..] == rest;
      assert t[..mid][one[0].start..one[0].end] == t[one[0].start..one[0].end];
    }
  }

  /**
   * Statement splitting is lossless for every chunking: the spans are disjoint and increasing, each
   * statement is the trimmed text of its span, and outside them there are only blanks and `;`.
   */
  lemma SplittingLossless(e: Engine, chunks: seq<string>)
    ensures var t, rs := Concat(chunks), Statements(e, chunks);
      && Spans(t, 0, rs)
      && forall i | 0 <= i < |t| && !Covered(rs, i) :: IsSpace(t[i]) || t[i] == ';'
  {
    hide Step, EndMode, Cuts, Records;
    var t, cuts := Concat(chunks), ChunkCuts(e, Normal, chunks, 0);
    ChunkCutsInside(e, Normal, t, 0, chunks);
    RecordsLossless(t, 0, cuts);
    SeparatorsHit(t, 0, cuts);
  }

  lemma {:induction false} SeparatorsHit(t: string, start: nat, cuts: seq<nat>)
    requires Separators(t, start, |t|, cuts)
    ensures forall c | c in cuts :: start <= c < |t| && t[c] == ';'
    decreases |cuts|
  {
    if cuts != [] {
      SeparatorsHit(t, cuts[0] + 1, cuts[1..]);
      assert forall c | c in cuts :: c == cuts[0] || c in cuts[1..];
    }
  }
}
