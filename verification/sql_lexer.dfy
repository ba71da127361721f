/**
 * The streaming statement splitter behind SQL imports.
 *
 * `Step` is one turn of the splitter's loop seen as a function of the mode and of the text that is
 * still visible; `Statements` is what the splitter yields for a list of chunks, and the whole-text
 * lexer is the case of a single chunk.
 */
module SqlLexer {
  import opened Text

  datatype Engine = Mysql | Postgresql

  datatype Mode =
    | Normal
    | LineComment
    | BlockComment(depth: nat)
    | Quoted(quote: char)
    | Dollar(tag: string)

  datatype Token = Token(mode: Mode, width: nat, cut: bool)

  /** A statement with its offsets in the whole input. */
  datatype Record = Record(sql: string, start: nat, end: nat)

  predicate IsIdentStart(c: char) { 'A' <= c <= 'Z' || 'a' <= c <= 'z' || c == '_' }

  predicate IsIdentPart(c: char) { IsIdentStart(c) || '0' <= c <= '9' }

  function WordLength(t: string): (n: nat)
    ensures n <= |t|
  {
    if t == "" || !IsIdentPart(t[0]) then 0 else 1 + WordLength(t[1..])
  }

  /** Length of the optional identifier between the dollars of a tag. */
  function IdentLength(t: string): (n: nat)
    ensures n <= |t|
  {
    if t == "" || !IsIdentStart(t[0]) then 0 else WordLength(t)
  }

  /** Length of the dollar tag that starts `t`, 0 when there is none. */
  function TagLength(t: string): (n: nat)
    ensures n <= |t|
  {
    if t == "" || t[0] != '$' then 0
    else
      var n := 1 + IdentLength(t[1..]);
      if n < |t| && t[n] == '$' then
        n + 1
      else 0
  }

  ghost predicate ValidTag(tag: string) {
    && |tag| >= 2
    && tag[0] == '$' && tag[|tag| - 1] == '$'
    && forall i | 0 < i < |tag| - 1 :: IsIdentPart(tag[i])
  }

  predicate IsQuote(e: Engine, c: char) { c == '\'' || c == '"' || (c == '`' && e == Mysql) }

  /** The modes the splitter can be in. */
  ghost predicate ValidMode(e: Engine, m: Mode) {
    match m
    case BlockComment(d) => d >= 1
    case Quoted(q) => IsQuote(e, q)
    case Dollar(tag) => e == Postgresql && ValidTag(tag)
    case _ => true
  }

  predicate StartsWith(t: string, c: char, d: char) { |t| >= 2 && t[0] == c && t[1] == d }

  function Step(e: Engine, m: Mode, t: string): (k: Token)
    requires t != ""
    ensures k.width >= 1
    ensures k.width > |t| ==> m.Quoted? && t == "\\"
    ensures k.cut ==> t[0] == ';' && m == Normal && k == Token(Normal, 1, true)
  {
    match m
    case LineComment => Token(if t[0] == '\n' then Normal else LineComment, 1, false)
    case BlockComment(d) =>
      if StartsWith(t, '/', '*') then Token(BlockComment(d + 1), 2, false)
      else if StartsWith(t, '*', '/') then Token(if d <= 1 then Normal else BlockComment(d - 1), 2, false)
      else Token(m, 1, false)
    case Quoted(q) =>
      if t[0] == '\\' then Token(m, 2, false)
      else if t[0] == q then
        if StartsWith(t, q, q) then Token(m, 2, false) else Token(Normal, 1, false)
      else Token(m, 1, false)
    case Dollar(tag) => if tag != "" && tag <= t then Token(Normal, |tag|, false) else Token(m, 1, false)
    case Normal =>
      if StartsWith(t, '-', '-') then Token(LineComment, 2, false)
      else if t[0] == '#' && e == Mysql then Token(LineComment, 1, false)
      else if StartsWith(t, '/', '*') then Token(BlockComment(1), 2, false)
      else if IsQuote(e, t[0]) then Token(Quoted(t[0]), 1, false)
      else if t[0] == '$' && e == Postgresql && TagLength(t) != 0 then
        Token(Dollar(t[..TagLength(t)]), TagLength(t), false)
      else Token(Normal, 1, t[0] == ';')
  }

  /** What is left of `t` after its first token. */
  function Rest(e: Engine, m: Mode, t: string): (r: string)
    requires t != ""
    ensures |r| < |t|
  {
    t[if Step(e, m, t).width <= |t| then Step(e, m, t).width else |t|..]
  }

  /** Positions of the separating semicolons of `t`, which is read from position `pos` on. */
  function Cuts(e: Engine, m: Mode, t: string, pos: nat): seq<nat>
    decreases |t|
  {
    if t == "" then []
    else
      (if Step(e, m, t).cut then [pos] else [])
      + Cuts(e, Step(e, m, t).mode, Rest(e, m, t), pos + |t| - |Rest(e, m, t)|)
  }

  function EndMode(e: Engine, m: Mode, t: string): Mode
    decreases |t|
  {
    if t == "" then m else EndMode(e, Step(e, m, t).mode, Rest(e, m, t))
  }

  /** The cuts found when lookahead ends with each chunk. */
  function ChunkCuts(e: Engine, m: Mode, chunks: seq<string>, pos: nat): seq<nat>
    decreases chunks
  {
    if chunks == [] then []
    else Cuts(e, m, chunks[0], pos) + ChunkCuts(e, EndMode(e, m, chunks[0]), chunks[1..], pos + |chunks[0]|)
  }

  // ---- Statements ----

  function Lead(s: string): (n: nat)
    ensures n <= |s|
    ensures forall i | 0 <= i < n :: IsSpace(s[i])
    ensures n < |s| ==> !IsSpace(s[n])
  {
    if s == "" || !IsSpace(s[0]) then 0 else 1 + Lead(s[1..])
  }

  function Tail(s: string): (n: nat)
    ensures n <= |s|
    ensures forall i | n <= i < |s| :: IsSpace(s[i])
    ensures n > 0 ==> !IsSpace(s[n - 1])
  {
    if s == "" || !IsSpace(s[|s| - 1]) then |s| else Tail(s[..|s| - 1])
  }

  function Trim(s: string): string {
    if Lead(s) < Tail(s) then s[Lead(s)..Tail(s)] else ""
  }

  /** `emit`: a blank candidate yields nothing. */
  function Emit(candidate: string, offset: nat): seq<Record> {
    if Lead(candidate) == |candidate| then []
    else [Record(Trim(candidate), offset + Lead(candidate), offset + Tail(candidate))]
  }

  /** The last statement keeps the untrimmed span. */
  function EmitFinal(text: string, offset: nat): seq<Record> {
    if Trim(text) == "" then [] else [Record(Trim(text), offset, offset + |text|)]
  }

  /** `cuts` are increasing positions of semicolons in `t[start..end]`. */
  ghost predicate Separators(t: string, start: nat, end: nat, cuts: seq<nat>)
    requires end <= |t|
    decreases |cuts|
  {
    cuts == [] || (start <= cuts[0] < end && t[cuts[0]] == ';' && Separators(t, cuts[0] + 1, end, cuts[1..]))
  }

  function Records(t: string, start: nat, cuts: seq<nat>): seq<Record>
    requires start <= |t|
    requires Separators(t, start, |t|, cuts)
    decreases |cuts|
  {
    if cuts == [] then EmitFinal(t[start..], start)
    else Emit(t[start..cuts[0]], start) + Records(t, cuts[0] + 1, cuts[1..])
  }

  lemma {:induction false} SeparatorsJoin(t: string, start: nat, mid: nat, end: nat, xs: seq<nat>, ys: seq<nat>)
    requires start <= mid <= end <= |t|
    requires Separators(t, start, mid, xs) && Separators(t, mid, end, ys)
    ensures Separators(t, start, end, xs + ys)
    decreases |xs|
  {
    if xs == [] {
      assert xs + ys == ys;
      if ys != [] {
        assert start <= ys[0];
      }
    } else {
      assert (xs + ys)[1..] == xs[1..] + ys;
      SeparatorsJoin(t, xs[0] + 1, mid, end, xs[1..], ys);
    }
  }

  /** The first token of `t[pos..end]`, seen from the whole text. */
  lemma CutsUnfold(e: Engine, m: Mode, t: string, pos: nat, end: nat) returns (k: Token, next: nat)
    requires pos < end <= |t|
    ensures pos < next <= end
    ensures k.cut ==> t[pos] == ';'
    ensures Cuts(e, m, t[pos..end], pos) == (if k.cut then [pos] else []) + Cuts(e, k.mode, t[next..end], next)
  {
    hide Step;
    var u := t[pos..end];
    k := Step(e, m, u);
    next := end - |Rest(e, m, u)|;
    assert Rest(e, m, u) == t[next..end];
  }

  /** Only semicolons cut, in increasing order. */
  lemma {:induction false} CutsInside(e: Engine, m: Mode, t: string, pos: nat, end: nat)
    requires pos <= end <= |t|
    ensures Separators(t, pos, end, Cuts(e, m, t[pos..end], pos))
    decreases end - pos
  {
    if pos < end {
      var k, next := CutsUnfold(e, m, t, pos, end);
      CutsInside(e, k.mode, t, next, end);
      SeparatorsJoin(t, pos, next, end, if k.cut then [pos] else [], Cuts(e, k.mode, t[next..end], next));
    }
  }

  lemma {:induction false} ChunkCutsInside(e: Engine, m: Mode, t: string, pos: nat, chunks: seq<string>)
    requires pos <= |t| && t[pos..] == Concat(chunks)
    ensures Separators(t, pos, |t|, ChunkCuts(e, m, chunks, pos))
    decreases chunks
  {
    hide Step, Cuts, EndMode;
    if chunks != [] {
      var c := chunks[0];
      var next := pos + |c|;
      assert t[pos..next] == t[pos..][..|c|] == c;
      assert t[next..] == t[pos..][|c|..] == Concat(chunks[1..]);
      CutsInside(e, m, t, pos, next);
      ChunkCutsInside(e, EndMode(e, m, c), t, next, chunks[1..]);
      SeparatorsJoin(t, pos, next, |t|, Cuts(e, m, c, pos), ChunkCuts(e, EndMode(e, m, c), chunks[1..], next));
    }
  }

  lemma StepValid(e: Engine, m: Mode, t: string)
    requires ValidMode(e, m) && t != ""
    ensures ValidMode(e, Step(e, m, t).mode)
  {
    if m == Normal {
      TagIsValid(t);
    }
  }

  lemma {:induction false} WordParts(t: string)
    ensures forall i | 0 <= i < WordLength(t) :: IsIdentPart(t[i])
  {
    if t != "" && IsIdentPart(t[0]) {
      WordParts(t[1..]);
      assert forall i | 1 <= i < WordLength(t) :: t[i] == t[1..][i - 1];
    }
  }

  lemma TagIsValid(t: string)
    ensures TagLength(t) != 0 ==> ValidTag(t[..TagLength(t)])
  {
    if TagLength(t) != 0 {
      WordParts(t[1..]);
      assert forall i | 1 <= i < TagLength(t) - 1 :: t[i] == t[1..][i - 1];
    }
  }

  /** Everything the splitter yields for the chunks of an upload. */
  function Statements(e: Engine, chunks: seq<string>): seq<Record> {
    ChunkCutsInside(e, Normal, Concat(chunks), 0, chunks);
    Records(Concat(chunks), 0, ChunkCuts(e, Normal, chunks, 0))
  }
}
