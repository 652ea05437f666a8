/** The greedy line breaker of the slide thumbnails (`wrapTextForSvg` in
    scripts/office-wasm-reader/export-pptx-direct-cursor-canvas.ts). Widths are reals. */
module TextWrap {
  import opened Framing
  import opened Text

  const NEW_LINE := "\n"

  /** The characters that stay together in one token. */
  predicate IsRunChar(c: char) {
    || 'a' <= c <= 'z' || 'A' <= c <= 'Z' || '0' <= c <= '9' || c == '_'
    || IsSpace(c)
    || c in ".,:;!?()[]{}'\"/@#%&+-=|<>"
    || c in "\U{201C}\U{201D}\U{2018}\U{2019}\U{00B7}"
  }

  function Flush(latin: string): seq<string> {
    if latin != "" then [latin] else []
  }

  /** `textWrapTokens` with `latin` already collected. */
  function TokensFrom(text: string, latin: string): seq<string>
    decreases |text|
  {
    if text == "" then Flush(latin)
    else if IsRunChar(text[0]) then TokensFrom(text[1..], latin + [text[0]])
    else Flush(latin) + [[text[0]]] + TokensFrom(text[1..], "")
  }

  function Tokens(text: string): seq<string> {
    TokensFrom(text, "")
  }

  function CharWidth(c: char, fontSize: real): real {
    if IsSpace(c) then fontSize * 0.32
    else if c <= '\U{007F}' then fontSize * 0.55
    else fontSize * 0.95
  }

  /** `estimatedTextWidth` */
  function Width(text: string, fontSize: real): real {
    if text == "" then 0.0 else Width(text[..|text| - 1], fontSize) + CharWidth(text[|text| - 1], fontSize)
  }

  /** The lines of one source line: `line` is the line being filled and `lineWidth` its running width. */
  function Fill(tokens: seq<string>, fontSize: real, max: real, line: string, lineWidth: real): (lines: seq<string>)
    ensures lines != []
    decreases |tokens|
  {
    if tokens == [] then [TrimEnd(line)]
    else
      var token := tokens[0];
      if line != "" && lineWidth + Width(token, fontSize) > max
      then [TrimEnd(line)] + Fill(tokens[1..], fontSize, max, TrimStart(token), Width(TrimStart(token), fontSize))
      else Fill(tokens[1..], fontSize, max, line + token, lineWidth + Width(token, fontSize))
  }

  function FillAll(sources: seq<string>, fontSize: real, max: real): seq<string> {
    if sources == [] then []
    else FillAll(sources[..|sources| - 1], fontSize, max) + Fill(Tokens(sources[|sources| - 1]), fontSize, max, "", 0.0)
  }

  function MaxLineWidth(fontSize: real, maxWidth: real): real {
    if fontSize * 1.2 < maxWidth * 0.94 then maxWidth * 0.94 else fontSize * 1.2
  }

  /** All lines before they are joined. */
  function Emitted(text: string, fontSize: real, maxWidth: real): seq<string> {
    FillAll(SplitOn(text, NEW_LINE), fontSize, MaxLineWidth(fontSize, maxWidth))
  }

  // ----- the three loops -----

  lemma TokensStep(text: string, i: nat, latin: string, tokens: seq<string>)
    requires i < |text|
    ensures tokens + TokensFrom(text[i..], latin) ==
            if IsRunChar(text[i]) then tokens + TokensFrom(text[i + 1..], latin + [text[i]])
            else (if latin != "" then tokens + [latin] else tokens) + [[text[i]]] + TokensFrom(text[i + 1..], "")
  {
    hide IsRunChar;
    assert text[i..][0] == text[i] && text[i..][1..] == text[i + 1..];
    var after := TokensFrom(text[i + 1..], "");
    if !IsRunChar(text[i]) {
      assert tokens + (Flush(latin) + [[text[i]]] + after) == tokens + Flush(latin) + [[text[i]]] + after;
    }
  }

  method TextWrapTokens(text: string) returns (tokens: seq<string>)
    ensures tokens == Tokens(text)
  {
    hide IsRunChar, TokensFrom;
    tokens := [];
    assert text[0..] == text && [] + TokensFrom(text, "") == TokensFrom(text, "");
    var latin := "";
    for i := 0 to |text|
      invariant Tokens(text) == tokens + TokensFrom(text[i..], latin)
    {
      TokensStep(text, i, latin, tokens);
      if IsRunChar(text[i]) {
        latin := latin + [text[i]];
      } else {
        if latin != "" {
          tokens := tokens + [latin];
          latin := "";
        }
        tokens := tokens + [[text[i]]];
      }
    }
    assert text[|text|..] == "";
    NoMoreTokens(latin, tokens);
    if latin != "" {
      tokens := tokens + [latin];
    }
  }

  lemma NoMoreTokens(latin: string, tokens: seq<string>)
    ensures tokens + TokensFrom("", latin) == if latin != "" then tokens + [latin] else tokens
  {
  }

  method EstimatedTextWidth(text: string, fontSize: real) returns (width: real)
    ensures width == Width(text, fontSize)
  {
    width := 0.0;
    for i := 0 to |text|
      invariant width == Width(text[..i], fontSize)
    {
      assert text[..i + 1][..i] == text[..i];
      if IsSpace(text[i]) {
        width := width + fontSize * 0.32;
      } else if text[i] <= '\U{007F}' {
        width := width + fontSize * 0.55;
      } else {
        width := width + fontSize * 0.95;
      }
    }
    assert text[..|text|] == text;
  }

  /** One source line; `lineWidth` is the estimated width of `line` all along. */
  method WrapLine(source: string, fontSize: real, maxLineWidth: real) returns (lines: seq<string>)
    ensures lines == Fill(Tokens(source), fontSize, maxLineWidth, "", 0.0)
  {
    hide Width, Tokens, TrimEnd, TrimStart;
    var tokens := TextWrapTokens(source);
    var line, lineWidth := "", 0.0;
    lines := [];
    WidthNone(fontSize);
    for t := 0 to |tokens|
      invariant Fill(tokens, fontSize, maxLineWidth, "", 0.0) == lines + Fill(tokens[t..], fontSize, maxLineWidth, line, lineWidth)
      invariant lineWidth == Width(line, fontSize)
    {
      assert tokens[t..][1..] == tokens[t + 1..];
      var token := tokens[t];
      var tokenWidth := EstimatedTextWidth(token, fontSize);
      if line != "" && lineWidth + tokenWidth > maxLineWidth {
        lines := lines + [TrimEnd(line)];
        line := TrimStart(token);
        lineWidth := EstimatedTextWidth(line, fontSize);
      } else {
        WidthConcat(line, token, fontSize);
        line := line + token;
        lineWidth := lineWidth + tokenWidth;
      }
    }
    lines := lines + [TrimEnd(line)];
  }

  method WrapTextForSvg(text: string, fontSize: real, maxWidth: real) returns (wrapped: string)
    ensures Emitted(text, fontSize, maxWidth) != []
    ensures wrapped == Trim(Join(Emitted(text, fontSize, maxWidth), NEW_LINE))
    ensures Solid(wrapped) == Solid(text)
  {
    hide Tokens, Fill, Solid, Trim;
    var maxLineWidth := MaxLineWidth(fontSize, maxWidth);
    var lines: seq<string> := [];
    var sources := SplitOn(text, NEW_LINE);
    for s := 0 to |sources|
      invariant lines == FillAll(sources[..s], fontSize, maxLineWidth)
    {
      assert sources[..s + 1][..s] == sources[..s];
      var more := WrapLine(sources[s], fontSize, maxLineWidth);
      lines := lines + more;
    }
    assert sources[..|sources|] == sources;
    WrappingKeepsText(text, fontSize, maxWidth);
    wrapped := Trim(Join(lines, NEW_LINE));
  }

  // ----- tokens -----

  lemma {:induction false} TokensConcat(text: string, latin: string)
    ensures Flatten(TokensFrom(text, latin)) == latin + text
    decreases |text|
  {
    hide IsRunChar;
    FlattenOne(latin);
    if text == "" {
    } else if IsRunChar(text[0]) {
      TokensConcat(text[1..], latin + [text[0]]);
      assert latin + [text[0]] + text[1..] == latin + text;
    } else {
      var c, rest := [text[0]], TokensFrom(text[1..], "");
      TokensConcat(text[1..], "");
      FlattenOne(c);
      FlattenConcat(Flush(latin) + [c], rest);
      FlattenConcat(Flush(latin), [c]);
      assert latin + c + text[1..] == latin + text;
    }
  }

  /** The tokens of a line put together are the line; a token is a run or a single character, and no
      run stands next to another. */
  lemma TokensRebuild(text: string)
    ensures Flatten(Tokens(text)) == text
    ensures forall k :: 0 <= k < |Tokens(text)| ==> IsToken(Tokens(text)[k])
    ensures Maximal(Tokens(text))
  {
    TokensMaximal(text, "");
    TokensConcat(text, "");
    assert "" + text == text;
    TokensShape(text, "");
  }

  predicate IsToken(token: string) {
    || (token != "" && forall i :: 0 <= i < |token| ==> IsRunChar(token[i]))
    || (|token| == 1 && !IsRunChar(token[0]))
  }

  ghost predicate IsRun(token: string) {
    token != "" && IsRunChar(token[0])
  }

  /** No two neighbouring tokens could be one. */
  ghost predicate Maximal(tokens: seq<string>) {
    forall k :: 1 <= k < |tokens| ==> !(IsRun(tokens[k - 1]) && IsRun(tokens[k]))
  }

  lemma {:induction false} TokensMaximal(text: string, latin: string)
    requires forall i :: 0 <= i < |latin| ==> IsRunChar(latin[i])
    ensures Maximal(TokensFrom(text, latin))
    decreases |text|
  {
    hide IsRunChar;
    if text != "" {
      if IsRunChar(text[0]) {
        TokensMaximal(text[1..], latin + [text[0]]);
      } else {
        TokensMaximal(text[1..], "");
        assert !IsRun([text[0]]);
      }
    }
  }

  lemma {:induction false} TokensShape(text: string, latin: string)
    requires forall i :: 0 <= i < |latin| ==> IsRunChar(latin[i])
    ensures forall k :: 0 <= k < |TokensFrom(text, latin)| ==> IsToken(TokensFrom(text, latin)[k])
    decreases |text|
  {
    if text != "" {
      if IsRunChar(text[0]) { TokensShape(text[1..], latin + [text[0]]); } else { TokensShape(text[1..], ""); }
    }
  }

  // ----- widths -----

  lemma {:induction false} WidthConcat(a: string, b: string, fontSize: real)
    ensures Width(a + b, fontSize) == Width(a, fontSize) + Width(b, fontSize)
    decreases |b|
  {
    if b == "" {
      assert a + b == a;
    } else {
      assert (a + b)[..|a + b| - 1] == a + b[..|b| - 1];
      WidthConcat(a, b[..|b| - 1], fontSize);
    }
  }

  lemma WidthNone(fontSize: real)
    ensures Width("", fontSize) == 0.0
  {
  }

  lemma {:induction false} WidthPositive(s: string, fontSize: real)
    requires fontSize >= 0.0
    ensures Width(s, fontSize) >= 0.0
    decreases |s|
  {
    if s != "" {
      WidthPositive(s[..|s| - 1], fontSize);
    }
  }

  lemma TrimEndNarrows(s: string, fontSize: real)
    requires fontSize >= 0.0
    ensures Width(TrimEnd(s), fontSize) <= Width(s, fontSize)
  {
    TrimEndSpec(s);
    var t := TrimEnd(s);
    assert s == t + s[|t|..];
    WidthConcat(t, s[|t|..], fontSize);
    WidthPositive(s[|t|..], fontSize);
  }

  // ----- the lines -----

  /** A line being filled fits, or is one token, perhaps with its leading white space cut. */
  ghost predicate Filling(line: string, all: seq<string>, fontSize: real, max: real) {
    || line == ""
    || Width(line, fontSize) <= max
    || exists t :: t in all && (line == t || line == TrimStart(t))
  }

  /** An emitted line fits, or is a single token trimmed. */
  ghost predicate Fits(line: string, all: seq<string>, fontSize: real, max: real) {
    || Width(line, fontSize) <= max
    || exists t :: t in all && (line == TrimEnd(t) || line == Trim(t))
  }

  lemma TrimmedFits(line: string, all: seq<string>, fontSize: real, max: real)
    requires fontSize >= 0.0 && max >= 0.0 && Filling(line, all, fontSize, max)
    ensures Fits(TrimEnd(line), all, fontSize, max)
  {
    TrimEndNarrows(line, fontSize);
    if line != "" && Width(line, fontSize) > max {
      var t :| t in all && (line == t || line == TrimStart(t));
      assert TrimEnd(line) == TrimEnd(t) || TrimEnd(line) == Trim(t);
    }
  }

  lemma StartsToken(token: string, all: seq<string>, fontSize: real, max: real)
    requires token in all
    ensures Filling(token, all, fontSize, max) && Filling(TrimStart(token), all, fontSize, max)
  {
  }

  lemma {:induction false} FillFits(tokens: seq<string>, all: seq<string>, fontSize: real, max: real, line: string)
    requires fontSize >= 0.0 && max >= 0.0 && forall t :: t in tokens ==> t in all
    requires Filling(line, all, fontSize, max)
    ensures forall l :: l in Fill(tokens, fontSize, max, line, Width(line, fontSize)) ==> Fits(l, all, fontSize, max)
    decreases |tokens|
  {
    hide TrimStart, TrimEnd, Width, Filling, Fits;
    TrimmedFits(line, all, fontSize, max);
    if tokens != [] {
      var token, rest := tokens[0], tokens[1..];
      assert token in tokens && forall t :: t in rest ==> t in tokens;
      StartsToken(token, all, fontSize, max);
      if line != "" && Width(line, fontSize) + Width(token, fontSize) > max {
        FillFits(rest, all, fontSize, max, TrimStart(token));
      } else {
        WidthConcat(line, token, fontSize);
        JoinedFilling(line, token, all, fontSize, max);
        FillFits(rest, all, fontSize, max, line + token);
      }
    }
  }

  lemma JoinedFilling(line: string, token: string, all: seq<string>, fontSize: real, max: real)
    requires token in all
    requires line == "" || Width(line, fontSize) + Width(token, fontSize) <= max
    ensures Filling(line + token, all, fontSize, max)
  {
    WidthConcat(line, token, fontSize);
    if line == "" { assert line + token == token; }
  }

  /** Every line emitted for a source line is within the maximum or is one of its tokens, trimmed. */
  lemma LinesFit(source: string, fontSize: real, maxWidth: real)
    requires fontSize > 0.0
    ensures var max := MaxLineWidth(fontSize, maxWidth);
            var lines := Fill(Tokens(source), fontSize, max, "", 0.0);
            forall l :: l in lines ==> Fits(l, Tokens(source), fontSize, max)
  {
    FillFits(Tokens(source), Tokens(source), fontSize, MaxLineWidth(fontSize, maxWidth), "");
  }

  // ----- greed -----

  /** What a group of tokens looks like on its line; after a break the first loses leading space. */
  function Row(group: seq<string>, first: bool): string
    requires group != []
  {
    (if first then group[0] else TrimStart(group[0])) + Flatten(group[1..])
  }

  /** The tokens are cut into groups, one a line, so that within a group each token still fitted
      (or the line was still empty) and the first token of the next group did not fit. */
  ghost predicate Greedy(groups: seq<seq<string>>, tokens: seq<string>, lines: seq<string>, fontSize: real, max: real, first: bool) {
    && |groups| == |lines|
    && FlattenGroups(groups) == tokens
    && (forall k :: 0 <= k < |groups| ==> groups[k] != [])
    && (forall k :: 0 <= k < |groups| ==> Grown(groups[k], fontSize, max, first && k == 0))
    && (forall k :: 0 <= k < |groups| ==> lines[k] == TrimEnd(Row(groups[k], first && k == 0)))
    && (forall k :: 0 <= k < |groups| - 1 ==>
          !Joins(Row(groups[k], first && k == 0), groups[k + 1][0], fontSize, max))
  }

  /** A token goes on the line: the line is empty, or there is room. */
  predicate Joins(line: string, token: string, fontSize: real, max: real) {
    line == "" || Width(line, fontSize) + Width(token, fontSize) <= max
  }

  function FlattenGroups(groups: seq<seq<string>>): seq<string> {
    if groups == [] then [] else groups[0] + FlattenGroups(groups[1..])
  }

  lemma RowSnoc(group: seq<string>, token: string, first: bool)
    requires group != []
    ensures Row(group + [token], first) == Row(group, first) + token
  {
    assert (group + [token])[1..] == group[1..] + [token];
    FlattenConcat(group[1..], [token]);
    FlattenOne(token);
  }

  /** Every token of the group joined the ones before it. */
  ghost predicate Grown(group: seq<string>, fontSize: real, max: real, first: bool) {
    group != [] && forall m :: 1 <= m < |group| ==> Joins(Row(group[..m], first), group[m], fontSize, max)
  }

  lemma GrownSnoc(group: seq<string>, token: string, fontSize: real, max: real, first: bool)
    requires Grown(group, fontSize, max, first) && Joins(Row(group, first), token, fontSize, max)
    ensures Grown(group + [token], fontSize, max, first)
  {
    hide Row, Joins;
    var longer := group + [token];
    forall m | 1 <= m < |longer| ensures Joins(Row(longer[..m], first), longer[m], fontSize, max) {
      if m < |group| { assert longer[..m] == group[..m]; } else { assert longer[..m] == group; }
    }
  }

  /** The lines from a state whose current line is the row of `group`. */
  function FillAfter(group: seq<string>, tokens: seq<string>, fontSize: real, max: real, first: bool): seq<string>
    requires group != []
  {
    Fill(tokens, fontSize, max, Row(group, first), Width(Row(group, first), fontSize))
  }

  lemma LastGroup(group: seq<string>, fontSize: real, max: real, first: bool)
    requires Grown(group, fontSize, max, first)
    ensures Greedy([group], group, FillAfter(group, [], fontSize, max, first), fontSize, max, first)
  {
    assert FlattenGroups([group]) == group + FlattenGroups([]);
  }

  lemma GroupGrows(group: seq<string>, tokens: seq<string>, fontSize: real, max: real, first: bool)
    requires group != [] && tokens != [] && Joins(Row(group, first), tokens[0], fontSize, max)
    ensures FillAfter(group, tokens, fontSize, max, first) == FillAfter(group + [tokens[0]], tokens[1..], fontSize, max, first)
  {
    hide TrimStart, TrimEnd, Width, Row;
    RowSnoc(group, tokens[0], first);
    WidthConcat(Row(group, first), tokens[0], fontSize);
  }

  lemma GroupBreaks(group: seq<string>, tokens: seq<string>, fontSize: real, max: real, first: bool)
    requires group != [] && tokens != [] && !Joins(Row(group, first), tokens[0], fontSize, max)
    ensures FillAfter(group, tokens, fontSize, max, first)
         == [TrimEnd(Row(group, first))] + FillAfter([tokens[0]], tokens[1..], fontSize, max, false)
  {
    assert Row([tokens[0]], false) == TrimStart(tokens[0]) by {
      assert Flatten([tokens[0]][1..]) == "";
    }
  }

  lemma {:induction false} FillIsGreedy(group: seq<string>, tokens: seq<string>, fontSize: real, max: real, first: bool)
    returns (groups: seq<seq<string>>)
    requires Grown(group, fontSize, max, first)
    ensures Greedy(groups, group + tokens, FillAfter(group, tokens, fontSize, max, first), fontSize, max, first)
    ensures groups != [] && groups[0] != [] && groups[0][0] == group[0]
    decreases |tokens|
  {
    hide Greedy, FillAfter, Row, Joins;
    if tokens == [] {
      groups := [group];
      LastGroup(group, fontSize, max, first);
      assert group + tokens == group;
    } else {
      var token := tokens[0];
      if Joins(Row(group, first), token, fontSize, max) {
        GrownSnoc(group, token, fontSize, max, first);
        groups := FillIsGreedy(group + [token], tokens[1..], fontSize, max, first);
        GroupGrows(group, tokens, fontSize, max, first);
        assert group + [token] + tokens[1..] == group + tokens;
      } else {
        var rest := FillIsGreedy([token], tokens[1..], fontSize, max, false);
        groups := [group] + rest;
        assert [token] + tokens[1..] == tokens;
        GroupBreaks(group, tokens, fontSize, max, first);
        BreakIsGreedy(group, tokens, rest, FillAfter([token], tokens[1..], fontSize, max, false), fontSize, max, first);
      }
    }
  }

  lemma BreakIsGreedy(group: seq<string>, tokens: seq<string>, rest: seq<seq<string>>, restLines: seq<string>, fontSize: real, max: real, first: bool)
    requires Grown(group, fontSize, max, first) && tokens != []
    requires !Joins(Row(group, first), tokens[0], fontSize, max)
    requires rest != [] && rest[0] != [] && rest[0][0] == tokens[0]
    requires Greedy(rest, tokens, restLines, fontSize, max, false)
    ensures Greedy([group] + rest, group + tokens, [TrimEnd(Row(group, first))] + restLines, fontSize, max, first)
  {
    assert group != [];
    hide Row, Joins, Grown, TrimEnd;
    var groups, lines := [group] + rest, [TrimEnd(Row(group, first))] + restLines;
    forall k | 0 <= k < |groups|
      ensures Grown(groups[k], fontSize, max, first && k == 0)
      ensures lines[k] == TrimEnd(Row(groups[k], first && k == 0))
    {
      if k > 0 { assert groups[k] == rest[k - 1] && lines[k] == restLines[k - 1]; }
    }
    forall k | 0 <= k < |groups| - 1 ensures !Joins(Row(groups[k], first && k == 0), groups[k + 1][0], fontSize, max) {
      assert groups[k + 1] == rest[k];
      if k > 0 { assert groups[k] == rest[k - 1]; }
    }
    assert groups[1..] == rest;
  }

  /** The lines of a source line are those of the greedy cut of its tokens. */
  lemma WrapIsGreedy(source: string, fontSize: real, max: real)
    requires source != ""
    ensures exists groups :: Greedy(groups, Tokens(source), Fill(Tokens(source), fontSize, max, "", 0.0), fontSize, max, true)
  {
    hide Greedy, Fill, Tokens;
    var tokens := Tokens(source);
    NoTokensOfEmpty(source);
    var groups := FillIsGreedy([tokens[0]], tokens[1..], fontSize, max, true);
    assert [tokens[0]] + tokens[1..] == tokens;
    FirstToken(tokens, fontSize, max);
  }

  lemma NoTokensOfEmpty(source: string)
    requires source != ""
    ensures Tokens(source) != []
  {
    TokensRebuild(source);
    assert Flatten([]) == "";
  }

  lemma FirstToken(tokens: seq<string>, fontSize: real, max: real)
    requires tokens != []
    ensures Fill(tokens, fontSize, max, "", 0.0) == FillAfter([tokens[0]], tokens[1..], fontSize, max, true)
  {
    assert Flatten([tokens[0]][1..]) == "";
    assert "" + tokens[0] == tokens[0];
    assert Row([tokens[0]], true) == tokens[0];
  }

  // ----- nothing is lost -----

  lemma {:induction false} FillKeepsSolid(tokens: seq<string>, fontSize: real, max: real, line: string, lineWidth: real)
    ensures Solid(Join(Fill(tokens, fontSize, max, line, lineWidth), NEW_LINE)) == Solid(line) + Solid(Flatten(tokens))
    decreases |tokens|
  {
    hide Solid, Width, TrimEnd, TrimStart;
    TrimEndKeepsSolid(line);
    if tokens == [] {
      SolidSpace("");
    } else {
      var token := tokens[0];
      SolidConcat(token, Flatten(tokens[1..]));
      if line != "" && lineWidth + Width(token, fontSize) > max {
        var rest := Fill(tokens[1..], fontSize, max, TrimStart(token), Width(TrimStart(token), fontSize));
        FillKeepsSolid(tokens[1..], fontSize, max, TrimStart(token), Width(TrimStart(token), fontSize));
        TrimStartKeepsSolid(token);
        assert ([TrimEnd(line)] + rest)[1..] == rest;
        JoinSolid(TrimEnd(line), Join(rest, NEW_LINE));
      } else {
        FillKeepsSolid(tokens[1..], fontSize, max, line + token, lineWidth + Width(token, fontSize));
        SolidConcat(line, token);
      }
    }
  }

  lemma JoinSolid(a: string, b: string)
    ensures Solid(a + NEW_LINE + b) == Solid(a) + Solid(b)
  {
    SolidConcat(a + NEW_LINE, b);
    SolidConcat(a, NEW_LINE);
    SolidSpace(NEW_LINE);
  }

  lemma {:induction false} JoinInTwo(a: seq<string>, b: seq<string>)
    requires a != [] && b != []
    ensures Join(a + b, NEW_LINE) == Join(a, NEW_LINE) + NEW_LINE + Join(b, NEW_LINE)
    decreases |a|
  {
    if |a| == 1 {
      assert (a + b)[1..] == b;
    } else {
      assert (a + b)[1..] == a[1..] + b;
      JoinInTwo(a[1..], b);
    }
  }

  lemma LineKeepsSolid(source: string, fontSize: real, max: real)
    ensures Solid(Join(Fill(Tokens(source), fontSize, max, "", 0.0), NEW_LINE)) == Solid(source)
  {
    FillKeepsSolid(Tokens(source), fontSize, max, "", 0.0);
    TokensRebuild(source);
    SolidSpace("");
  }

  lemma {:induction false} FillAllKeepsSolid(sources: seq<string>, fontSize: real, max: real)
    requires sources != []
    ensures FillAll(sources, fontSize, max) != []
    ensures Solid(Join(FillAll(sources, fontSize, max), NEW_LINE)) == Solid(Join(sources, NEW_LINE))
    decreases |sources|
  {
    hide Fill, Tokens, Solid, Join;
    var front, last := sources[..|sources| - 1], sources[|sources| - 1];
    var lines := Fill(Tokens(last), fontSize, max, "", 0.0);
    LineKeepsSolid(last, fontSize, max);
    JoinOne(last);
    assert sources == front + [last];
    if front == [] {
      assert FillAll(front, fontSize, max) + lines == lines;
      assert sources == [last];
    } else {
      FillAllKeepsSolid(front, fontSize, max);
      JoinInTwo(FillAll(front, fontSize, max), lines);
      JoinInTwo(front, [last]);
      JoinSolid(Join(FillAll(front, fontSize, max), NEW_LINE), Join(lines, NEW_LINE));
      JoinSolid(Join(front, NEW_LINE), Join([last], NEW_LINE));
    }
  }

  lemma JoinOne(line: string)
    ensures Join([line], NEW_LINE) == line
  {
  }

  /** Wrapping keeps the sequence of characters that are not white space. */
  lemma WrappingKeepsText(text: string, fontSize: real, maxWidth: real)
    ensures Emitted(text, fontSize, maxWidth) != []
    ensures Solid(Trim(Join(Emitted(text, fontSize, maxWidth), NEW_LINE))) == Solid(text)
  {
    var max := MaxLineWidth(fontSize, maxWidth);
    FillAllKeepsSolid(SplitOn(text, NEW_LINE), fontSize, max);
    SplitJoin(text, NEW_LINE);
    TrimKeepsSolid(Join(Emitted(text, fontSize, maxWidth), NEW_LINE));
  }
}
