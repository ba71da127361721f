/** The LIKE patterns of data filters, read as the database reads them. */
module LikePatterns {
  import opened Text

  /** `escapeLike`: three replacements one after the other. */
  function EscapeLike(value: string): string {
    ReplaceAll(ReplaceAll(ReplaceAll(value, '\\', "\\\\"), '%', "\\%"), '_', "\\_")
  }

  datatype Operator = Contains | StartsWith | EndsWith

  function Pattern(op: Operator, value: string): string {
    match op
    case Contains => "%" + EscapeLike(value) + "%"
    case StartsWith => EscapeLike(value) + "%"
    case EndsWith => "%" + EscapeLike(value)
  }

  type Fold = char -> char

  /**
   * `text LIKE pattern ESCAPE '\'`, comparing characters after `fold`; a pattern that ends in its
   * escape matches nothing.
   */
  predicate Like(fold: Fold, pattern: string, text: string)
    decreases |pattern|, |text|
  {
    if pattern == "" then text == ""
    else if pattern[0] == '%' then
      Like(fold, pattern[1..], text) || (text != "" && Like(fold, pattern, text[1..]))
    else if text == "" then false
    else if pattern[0] == '_' then Like(fold, pattern[1..], text[1..])
    else if pattern[0] == '\\' then
      |pattern| >= 2 && fold(pattern[1]) == fold(text[0]) && Like(fold, pattern[2..], text[1..])
    else fold(pattern[0]) == fold(text[0]) && Like(fold, pattern[1..], text[1..])
  }

  /** The texts agree character by character after folding. */
  ghost predicate SameText(fold: Fold, s: string, t: string) {
    |s| == |t| && forall i | 0 <= i < |s| :: fold(s[i]) == fold(t[i])
  }

  predicate IsSpecial(c: char) { c == '\\' || c == '%' || c == '_' }

  function EscapeChar(c: char): string { if IsSpecial(c) then ['\\', c] else [c] }

  /** Escaping character by character. */
  function EscapeEach(value: string): string {
    if value == "" then "" else EscapeChar(value[0]) + EscapeEach(value[1..])
  }

  lemma EscapeOne(c: char)
    ensures ReplaceAll(ReplaceAll(ReplaceAll([c], '\\', "\\\\"), '%', "\\%"), '_', "\\_") == EscapeChar(c)
  {
    assert [c][1..] == "";
    assert ReplaceAll("", '\\', "\\\\") == "" && ReplaceAll("", '%', "\\%") == "" && ReplaceAll("", '_', "\\_") == "";
    var once := ReplaceAll([c], '\\', "\\\\");
    assert once == if c == '\\' then "\\\\" else [c];
    assert "\\\\"[1..] == "\\" && "\\"[1..] == "";
    var twice := ReplaceAll(once, '%', "\\%");
    assert twice == if c == '%' then "\\%" else once;
    assert "\\%"[1..] == "%" && "%"[1..] == "";
  }

  /** The three replacements do not disturb each other. */
  lemma {:induction false} EscapeIsPerCharacter(value: string)
    ensures EscapeLike(value) == EscapeEach(value)
  {
    if value == "" {
    } else {
      var c, rest := value[0], value[1..];
      hide ReplaceAll, EscapeChar;
      assert value == [c] + rest;
      EscapeIsPerCharacter(rest);
      EscapeOne(c);
      ReplaceAllAppend([c], rest, '\\', "\\\\");
      var a, b := ReplaceAll([c], '\\', "\\\\"), ReplaceAll(rest, '\\', "\\\\");
      ReplaceAllAppend(a, b, '%', "\\%");
      ReplaceAllAppend(ReplaceAll(a, '%', "\\%"), ReplaceAll(b, '%', "\\%"), '_', "\\_");
    }
  }

  /** Reading one escaped character of a pattern takes one character of the text. */
  lemma EscapedStep(fold: Fold, c: char, p: string, text: string)
    ensures Like(fold, EscapeChar(c) + p, text)
            <==> text != "" && fold(c) == fold(text[0]) && Like(fold, p, text[1..])
  {
    var q := EscapeChar(c) + p;
    if IsSpecial(c) {
      assert q[0] == '\\' && q[1] == c && q[2..] == p;
    } else {
      assert q[0] == c && q[1..] == p;
    }
  }

  /** An escaped value followed by `p` matches what begins with the value and goes on as `p`. */
  lemma {:induction false} EscapedPrefix(fold: Fold, v: string, p: string, text: string)
    ensures Like(fold, EscapeEach(v) + p, text)
            <==> |v| <= |text| && SameText(fold, v, text[..|v|]) && Like(fold, p, text[|v|..])
    decreases |v|
  {
    hide Like, EscapeChar;
    if v == "" {
      assert "" + p == p && text[0..] == text;
    } else {
      var c, rest := v[0], v[1..];
      Assoc(EscapeChar(c), EscapeEach(rest), p);
      EscapedStep(fold, c, EscapeEach(rest) + p, text);
      if text != "" {
        EscapedPrefix(fold, rest, p, text[1..]);
        if |v| <= |text| {
          SameCons(fold, v, text);
          assert text[1..][|rest|..] == text[|v|..];
        }
      }
    }
  }

  lemma SameCons(fold: Fold, v: string, text: string)
    requires 1 <= |v| <= |text|
    ensures SameText(fold, v, text[..|v|])
            <==> fold(v[0]) == fold(text[0]) && SameText(fold, v[1..], text[1..][..|v| - 1])
  {
    var s, t := v[1..], text[1..][..|v| - 1];
    assert forall i | 0 <= i < |s| :: s[i] == v[i + 1] && t[i] == text[..|v|][i + 1];
    if fold(v[0]) == fold(text[0]) && SameText(fold, s, t) {
      forall i | 0 <= i < |v|
        ensures fold(v[i]) == fold(text[..|v|][i])
      {
        assert i > 0 ==> v[i] == s[i - 1] && text[..|v|][i] == t[i - 1];
      }
    }
  }

  /** `%` skips any number of characters. */
  lemma {:induction false} AnySuffix(fold: Fold, p: string, text: string)
    ensures Like(fold, "%" + p, text) <==> exists i :: 0 <= i <= |text| && Like(fold, p, text[i..])
    decreases |text|
  {
    var q := "%" + p;
    assert q[0] == '%' && q[1..] == p && text[0..] == text;
    if text != "" {
      AnySuffix(fold, p, text[1..]);
      hide Like;
      if i :| 0 <= i <= |text| && Like(fold, p, text[i..]) {
        if i > 0 {
          assert text[1..][i - 1..] == text[i..];
        }
      }
      if j :| 0 <= j <= |text[1..]| && Like(fold, p, text[1..][j..]) {
        assert text[1..][j..] == text[j + 1..];
      }
      assert Like(fold, q, text) <==> Like(fold, p, text) || Like(fold, q, text[1..]) by { PercentStep(fold, p, text); }
    }
  }

  lemma PercentStep(fold: Fold, p: string, text: string)
    requires text != ""
    ensures Like(fold, "%" + p, text) <==> Like(fold, p, text) || Like(fold, "%" + p, text[1..])
  {
    assert ("%" + p)[1..] == p;
  }

  lemma {:induction false} AnythingMatches(fold: Fold, text: string)
    ensures Like(fold, "%", text)
    decreases |text|
  {
    if text != "" {
      AnythingMatches(fold, text[1..]);
    }
  }

  lemma EmptyPattern(fold: Fold, text: string)
    ensures Like(fold, "", text) <==> text == ""
  {}

  /** `text` has `v` at position `i`, after folding. */
  ghost predicate At(fold: Fold, v: string, text: string, i: int) {
    0 <= i && i + |v| <= |text| && SameText(fold, v, text[i..i + |v|])
  }

  /**
   * The filter patterns match exactly the texts that contain, start with or end with the raw value,
   * whatever characters it has.
   */
  lemma PatternsAreExact(fold: Fold, v: string, text: string)
    ensures Like(fold, Pattern(Contains, v), text) <==> exists i :: At(fold, v, text, i)
    ensures Like(fold, Pattern(StartsWith, v), text) <==> At(fold, v, text, 0)
    ensures Like(fold, Pattern(EndsWith, v), text) <==> At(fold, v, text, |text| - |v|)
  {
    hide Like, EscapeLike;
    EscapeIsPerCharacter(v);
    ContainsExact(fold, v, text);
    EscapedPrefix(fold, v, "%", text);
    if |v| <= |text| {
      AnythingMatches(fold, text[|v|..]);
      assert text[0..0 + |v|] == text[..|v|];
    }
    EndsWithExact(fold, v, text);
  }

  lemma ContainsExact(fold: Fold, v: string, text: string)
    ensures Like(fold, "%" + EscapeEach(v) + "%", text) <==> exists i :: At(fold, v, text, i)
  {
    hide Like, SameText, EscapeEach;
    var p := EscapeEach(v) + "%";
    Assoc("%", EscapeEach(v), "%");
    AnySuffix(fold, p, text);
    forall i | 0 <= i <= |text|
      ensures Like(fold, p, text[i..]) <==> At(fold, v, text, i)
    {
      EscapedPrefix(fold, v, "%", text[i..]);
      if i + |v| <= |text| {
        AnythingMatches(fold, text[i..][|v|..]);
        assert text[i..][..|v|] == text[i..i + |v|];
      }
    }
  }

  lemma ValueAtEnd(fold: Fold, v: string, text: string, i: int)
    requires 0 <= i <= |text|
    ensures Like(fold, EscapeEach(v), text[i..]) <==> i == |text| - |v| && At(fold, v, text, i)
  {
    hide Like, SameText, EscapeEach;
    var p := EscapeEach(v);
    assert p + "" == p;
    EscapedPrefix(fold, v, "", text[i..]);
    if i + |v| <= |text| {
      EmptyPattern(fold, text[i..][|v|..]);
      SubSlice(text, i, |text|, 0, |v|);
      assert text[i..|text|] == text[i..];
    }
  }

  lemma EndsWithExact(fold: Fold, v: string, text: string)
    ensures Like(fold, "%" + EscapeEach(v), text) <==> At(fold, v, text, |text| - |v|)
  {
    hide Like, At, EscapeEach;
    AnySuffix(fold, EscapeEach(v), text);
    forall i | 0 <= i <= |text|
      ensures Like(fold, EscapeEach(v), text[i..]) <==> i == |text| - |v| && At(fold, v, text, i)
    {
      ValueAtEnd(fold, v, text, i);
    }
    if At(fold, v, text, |text| - |v|) {
      AtInside(fold, v, text, |text| - |v|);
      assert Like(fold, EscapeEach(v), text[|text| - |v|..]);
    }
  }

  lemma AtInside(fold: Fold, v: string, text: string, i: int)
    requires At(fold, v, text, i)
    ensures 0 <= i && i + |v| <= |text|
  {}
}
