/** The splitter itself: one pass over the chunks that keeps only the unfinished statement. */
module SqlSplitter {
  import opened Text
  import opened SqlLexer

  datatype State = InText | Single | Double | Backtick | InLineComment | InBlockComment

  /** The lexer mode held by the splitter's three variables; no tag is the empty string. */
  function ModeOf(state: State, blockDepth: nat, dollarTag: string): Mode {
    match state
    case InLineComment => LineComment
    case InBlockComment => BlockComment(blockDepth)
    case Single => Quoted('\'')
    case Double => Quoted('"')
    case Backtick => Quoted('`')
    case InText => if dollarTag != "" then Dollar(dollarTag) else Normal
  }

  /** What is still to come at position `p`: a statement began at `start` and `chunks` are left. */
  ghost function Remaining(e: Engine, m: Mode, t: string, start: nat, p: nat, chunks: seq<string>): seq<Record>
    requires start <= p <= |t| && t[p..] == Concat(chunks)
  {
    ChunkCutsInside(e, m, t, p, chunks);
    SeparatorsEarlier(t, start, p, ChunkCuts(e, m, chunks, p));
    Records(t, start, ChunkCuts(e, m, chunks, p))
  }

  lemma SeparatorsEarlier(t: string, start: nat, later: nat, cuts: seq<nat>)
    requires start <= later && Separators(t, later, |t|, cuts)
    ensures Separators(t, start, |t|, cuts)
  {}

  lemma ChunkStep(e: Engine, m: Mode, rest: string, later: seq<string>, p: nat)
    requires rest != ""
    ensures var k, r := Step(e, m, rest), Rest(e, m, rest);
      ChunkCuts(e, m, [rest] + later, p)
      == (if k.cut then [p] else []) + ChunkCuts(e, k.mode, [r] + later, p + |rest| - |r|)
  {
    hide Step, Rest;
    var k, r := Step(e, m, rest), Rest(e, m, rest);
    var q := p + |rest| - |r|;
    assert ([rest] + later)[1..] == later && ([r] + later)[1..] == later;
    var xs, ys := if k.cut then [p] else [], Cuts(e, k.mode, r, q);
    assert Cuts(e, m, rest, p) == xs + ys && EndMode(e, m, rest) == EndMode(e, k.mode, r);
    var zs := ChunkCuts(e, EndMode(e, k.mode, r), later, q + |r|);
    assert ChunkCuts(e, k.mode, [r] + later, q) == ys + zs;
    assert ChunkCuts(e, m, [rest] + later, p) == xs + ys + zs;
    Assoc(xs, ys, zs);
  }

  lemma RestConcat(t: string, p: nat, next: nat, rest: string, r: string, later: seq<string>)
    requires p <= next <= |t| && t[p..] == Concat([rest] + later)
    requires next - p <= |rest| && r == rest[next - p..]
    ensures t[next..] == Concat([r] + later)
  {
    assert ([rest] + later)[1..] == later && ([r] + later)[1..] == later;
    assert t[next..] == t[p..][next - p..];
  }

  /** One token: a cut emits the statement before it, anything else only moves on. */
  lemma TokenRemaining(e: Engine, m: Mode, t: string, start: nat, p: nat, rest: string, later: seq<string>)
    requires rest != "" && start <= p <= |t| && t[p..] == Concat([rest] + later)
    ensures var k, r := Step(e, m, rest), Rest(e, m, rest);
      var next := p + |rest| - |r|;
      && next <= |t| && t[next..] == Concat([r] + later)
      && Remaining(e, m, t, start, p, [rest] + later)
         == if k.cut then Emit(t[start..p], start) + Remaining(e, k.mode, t, next, next, [r] + later)
            else Remaining(e, k.mode, t, start, next, [r] + later)
  {
    hide Step, Emit;
    var k, r := Step(e, m, rest), Rest(e, m, rest);
    var next := p + |rest| - |r|;
    assert |t[p..]| == |rest| + |Concat(later)| by {
      assert ([rest] + later)[1..] == later;
    }
    RestConcat(t, p, next, rest, r, later);
    hide Rest, Concat, Separators;
    ChunkStep(e, m, rest, later, p);
    var cuts := ChunkCuts(e, k.mode, [r] + later, next);
    if k.cut {
      assert ([p] + cuts)[1..] == cuts;
    } else {
      assert [] + cuts == cuts;
    }
  }

  lemma ChunkDone(e: Engine, m: Mode, t: string, start: nat, p: nat, later: seq<string>)
    requires start <= p <= |t| && t[p..] == Concat([""] + later)
    ensures t[p..] == Concat(later)
    ensures Remaining(e, m, t, start, p, [""] + later) == Remaining(e, m, t, start, p, later)
  {
    assert ([""] + later)[1..] == later;
    assert "" + Concat(later) == Concat(later);
    var cuts := ChunkCuts(e, m, later, p);
    assert ChunkCuts(e, m, [""] + later, p) == [] + cuts == cuts;
  }

  lemma LeadIs(s: string, n: nat)
    requires n <= |s| && (forall i | 0 <= i < n :: IsSpace(s[i])) && (n < |s| ==> !IsSpace(s[n]))
    ensures Lead(s) == n
  {
    hide IsSpace;
    assert Lead(s) < |s| ==> !IsSpace(s[Lead(s)]);
  }

  lemma TailIs(s: string, n: nat)
    requires n <= |s| && (forall i | n <= i < |s| :: IsSpace(s[i])) && (n > 0 ==> !IsSpace(s[n - 1]))
    ensures Tail(s) == n
  {
    hide IsSpace;
    assert Tail(s) > 0 ==> !IsSpace(s[Tail(s) - 1]);
  }

  method EmitStatement(text: string, statementStart: nat, end: nat, baseOffset: nat) returns (record: Option<Record>)
    requires statementStart <= end <= |text|
    ensures (match record case None => [] case Some(r) => [r])
         == Emit(text[statementStart..end], baseOffset + statementStart)
  {
    hide IsSpace, Lead, Tail;
    ghost var candidate := text[statementStart..end];
    var leading := 0;
    while leading < end - statementStart && IsSpace(text[statementStart + leading])
      invariant leading <= |candidate|
      invariant forall i | 0 <= i < leading :: IsSpace(candidate[i])
    {
      assert candidate[leading] == text[statementStart + leading];
      leading := leading + 1;
    }
    assert leading < |candidate| ==> candidate[leading] == text[statementStart + leading];
    LeadIs(candidate, leading);
    if leading == end - statementStart {
      return None;
    }
    var trimmedEnd := end;
    while trimmedEnd > statementStart && IsSpace(text[trimmedEnd - 1])
      invariant statementStart <= trimmedEnd <= end
      invariant forall i | trimmedEnd - statementStart <= i < |candidate| :: IsSpace(candidate[i])
    {
      assert candidate[trimmedEnd - 1 - statementStart] == text[trimmedEnd - 1];
      trimmedEnd := trimmedEnd - 1;
    }
    ghost var n := trimmedEnd - statementStart;
    assert n > 0 ==> candidate[n - 1] == text[trimmedEnd - 1];
    TailIs(candidate, n);
    assert leading < n by {
      assert !IsSpace(candidate[leading]);
    }
    SubSlice(text, statementStart, end, leading, n);
    return Some(Record(text[statementStart + leading..trimmedEnd],
                       baseOffset + statementStart + leading, baseOffset + trimmedEnd));
  }

  /** The text after the `index`-th character, which a skipped character may lie beyond. */
  ghost function From(text: string, index: nat): string {
    if index <= |text| then text[index..] else ""
  }

  lemma NextRest(e: Engine, m: Mode, text: string, index: nat, skip: nat)
    requires index < |text| && Step(e, m, text[index..]).width == skip + 1
    ensures Rest(e, m, text[index..]) == From(text, index + skip + 1)
  {
    hide Step;
  }

  lemma LastRemaining(e: Engine, m: Mode, t: string, start: nat, p: nat)
    requires start <= p <= |t| && t[p..] == Concat([])
    ensures p == |t| && Remaining(e, m, t, start, p, []) == EmitFinal(t[start..], start)
  {
    hide EmitFinal, Emit;
    assert |t[p..]| == 0;
  }

  ghost predicate StateOk(e: Engine, state: State, blockDepth: nat, dollarTag: string) {
    && (dollarTag != "" ==> state == InText)
    && ValidMode(e, ModeOf(state, blockDepth, dollarTag))
  }

  /** One turn of the loop, for any of the six states. */
  method Turn(e: Engine, text: string, index: nat, state: State, blockDepth: nat, dollarTag: string)
    returns (state': State, blockDepth': nat, dollarTag': string, skip: nat, semicolon: bool)
    requires index < |text| && StateOk(e, state, blockDepth, dollarTag)
    ensures StateOk(e, state', blockDepth', dollarTag')
    ensures Step(e, ModeOf(state, blockDepth, dollarTag), text[index..])
         == Token(ModeOf(state', blockDepth', dollarTag'), skip + 1, semicolon)
  {
    state', blockDepth', dollarTag', skip, semicolon := state, blockDepth, dollarTag, 0, false;
    ghost var t := text[index..];
    var current := text[index];
    var hasNext := index + 1 < |text|;
    var next := if hasNext then text[index + 1] else ' ';
    assert current == t[0] && (hasNext <==> |t| > 1) && (hasNext ==> next == t[1]);
    if state == InLineComment {
      if current == '\n' { state' := InText; }
      return;
    }
    if state == InBlockComment {
      if current == '/' && hasNext && next == '*' {
        blockDepth' := blockDepth + 1;
        skip := 1;
      } else if current == '*' && hasNext && next == '/' {
        blockDepth' := blockDepth - 1;
        skip := 1;
        if blockDepth' == 0 { state' := InText; }
      }
      return;
    }
    if state == Single || state == Double || state == Backtick {
      var closing := if state == Single then '\'' else if state == Double then '"' else '`';
      if current == '\\' { skip := 1; }
      else if current == closing {
        if hasNext && next == current { skip := 1; } else { state' := InText; }
      }
      return;
    }
    if dollarTag != "" {
      if dollarTag <= text[index..] {
        skip := |dollarTag| - 1;
        dollarTag' := "";
      }
      return;
    }
    if current == '-' && hasNext && next == '-' {
      state' := InLineComment;
      skip := 1;
    } else if current == '#' && e == Mysql {
      state' := InLineComment;
    } else if current == '/' && hasNext && next == '*' {
      state' := InBlockComment;
      blockDepth' := 1;
      skip := 1;
    } else if current == '\'' {
      state' := Single;
    } else if current == '"' {
      state' := Double;
    } else if current == '`' && e == Mysql {
      state' := Backtick;
    } else if current == '$' && e == Postgresql {
      var n := TagLength(text[index..]);
      if n != 0 {
        TagIsValid(t);
        dollarTag' := text[index..][..n];
        skip := n - 1;
      }
    } else if current == ';' {
      semicolon := true;
    }
  }

  /** The inner loop: reads `text` from `from` on and yields the statements that end in it. */
  method ScanChunk(e: Engine, text: string, from: nat, baseOffset: nat, state: State, blockDepth: nat, dollarTag: string,
                   ghost t: string, ghost later: seq<string>)
    returns (emitted: seq<Record>, statementStart: nat, state': State, blockDepth': nat, dollarTag': string)
    requires from <= |text| && StateOk(e, state, blockDepth, dollarTag)
    requires baseOffset + |text| <= |t| && text == t[baseOffset..baseOffset + |text|]
    requires t[baseOffset + from..] == Concat([text[from..]] + later)
    ensures StateOk(e, state', blockDepth', dollarTag') && statementStart <= |text|
    ensures t[baseOffset + |text|..] == Concat(later)
    ensures emitted + Remaining(e, ModeOf(state', blockDepth', dollarTag'), t, baseOffset + statementStart,
                                baseOffset + |text|, later)
         == Remaining(e, ModeOf(state, blockDepth, dollarTag), t, baseOffset, baseOffset + from, [text[from..]] + later)
  {
    hide Step, Emit, Concat, Remaining, ValidMode, Rest;
    ghost var goal := Remaining(e, ModeOf(state, blockDepth, dollarTag), t, baseOffset, baseOffset + from,
                                [text[from..]] + later);
    ghost var end := baseOffset + |text|;
    emitted, statementStart := [], 0;
    state', blockDepth', dollarTag' := state, blockDepth, dollarTag;
    var index := from;
    while index < |text|
      invariant StateOk(e, state', blockDepth', dollarTag')
      invariant statementStart <= |text| - |From(text, index)|
      invariant t[end - |From(text, index)|..] == Concat([From(text, index)] + later)
      invariant emitted + Remaining(e, ModeOf(state', blockDepth', dollarTag'), t, baseOffset + statementStart,
                                    end - |From(text, index)|, [From(text, index)] + later)
             == goal
    {
      ghost var m, rest := ModeOf(state', blockDepth', dollarTag'), text[index..];
      ghost var start, p := baseOffset + statementStart, baseOffset + index;
      TokenRemaining(e, m, t, start, p, rest, later);
      var skip, semicolon;
      state', blockDepth', dollarTag', skip, semicolon := Turn(e, text, index, state', blockDepth', dollarTag');
      NextRest(e, m, text, index, skip);
      if semicolon {
        var record := EmitStatement(text, statementStart, index, baseOffset);
        SubSlice(t, baseOffset, end, statementStart, index);
        Assoc(emitted, Emit(t[start..p], start),
              Remaining(e, Normal, t, p + 1, p + 1, [From(text, index + 1)] + later));
        if record.Some? {
          emitted := emitted + [record.value];
        } else {
          assert emitted + [] == emitted;
        }
        statementStart := index + 1;
      }
      index := index + skip + 1;
    }
    ChunkDone(e, ModeOf(state', blockDepth', dollarTag'), t, baseOffset + statementStart, end, later);
  }

  lemma FirstChunk(t: string, p: nat, chunks: seq<string>)
    requires p <= |t| && chunks != [] && t[p..] == Concat(chunks)
    ensures p + |chunks[0]| <= |t| && t[p..p + |chunks[0]|] == chunks[0]
    ensures [chunks[0]] + chunks[1..] == chunks
  {
    assert t[p..][..|chunks[0]|] == chunks[0];
  }

  lemma StatementsRemaining(e: Engine, chunks: seq<string>)
    ensures Statements(e, chunks) == Remaining(e, Normal, Concat(chunks), 0, 0, chunks)
  {
    assert Concat(chunks)[0..] == Concat(chunks);
  }

  method SqlRecords(e: Engine, chunks: seq<string>) returns (records: seq<Record>)
    ensures records == Statements(e, chunks)
  {
    hide Step, Emit, Concat, Remaining, Statements, Trim;
    ghost var t := Concat(chunks);
    assert t[0..] == t && chunks[0..] == chunks;
    records := [];
    var text, baseOffset := "", 0;
    var state, blockDepth, dollarTag := InText, 0, "";
    StatementsRemaining(e, chunks);
    for c := 0 to |chunks|
      invariant StateOk(e, state, blockDepth, dollarTag)
      invariant baseOffset + |text| <= |t| && text == t[baseOffset..baseOffset + |text|]
      invariant t[baseOffset + |text|..] == Concat(chunks[c..])
      invariant records + Remaining(e, ModeOf(state, blockDepth, dollarTag), t, baseOffset,
                                    baseOffset + |text|, chunks[c..])
             == Statements(e, chunks)
    {
      var startIndex := |text|;
      FirstChunk(t, baseOffset + startIndex, chunks[c..]);
      assert chunks[c..][1..] == chunks[c + 1..];
      text := text + chunks[c];
      assert text[startIndex..] == chunks[c];
      assert [text[startIndex..]] + chunks[c + 1..] == chunks[c..];
      var emitted, statementStart;
      emitted, statementStart, state, blockDepth, dollarTag :=
        ScanChunk(e, text, startIndex, baseOffset, state, blockDepth, dollarTag, t, chunks[c + 1..]);
      Assoc(records, emitted, Remaining(e, ModeOf(state, blockDepth, dollarTag), t, baseOffset + statementStart,
                                        baseOffset + |text|, chunks[c + 1..]));
      records := records + emitted;
      if statementStart > 0 {
        baseOffset := baseOffset + statementStart;
        text := text[statementStart..];
      }
    }
    assert chunks[|chunks|..] == [];
    LastRemaining(e, ModeOf(state, blockDepth, dollarTag), t, baseOffset, baseOffset + |text|);
    assert text == t[baseOffset..];
    var final := Trim(text);
    if final != "" {
      records := records + [Record(final, baseOffset, baseOffset + |text|)];
    }
  }
}
