/** The two shell scanners of scripts/harness/analyze-search-tool-usage.ts: one cuts a command line
    at its separators, the other cuts a text into tokens. Both run the quote and escape machine. */
module ShellScan {
  import opened Options
  import opened Text

  type Quote = c: char | c == '\'' || c == '"' witness '"'

  datatype Mode = Mode(quote: Option<Quote>, escaped: bool)

  const PLAIN := Mode(None, false)

  /** The machine both scanners run. */
  function Next(m: Mode, c: char): Mode {
    if m.escaped then m.(escaped := false)
    else if c == '\\' then m.(escaped := true)
    else if m.quote.Some? then (if c == m.quote.value then PLAIN else m)
    else if c == '\'' || c == '"' then Mode(Some(c), false)
    else m
  }

  function ModeAfter(m: Mode, s: string): Mode
    decreases |s|
  {
    if s == "" then m else ModeAfter(Next(m, s[0]), s[1..])
  }

  // ----- tokens -----

  datatype Scan = Scan(tokens: seq<string>, current: string, mode: Mode)

  const START := Scan([], "", PLAIN)

  function Flush(tokens: seq<string>, current: string): seq<string> {
    if current != "" then tokens + [current] else tokens
  }

  function TokenStep(st: Scan, c: char): Scan {
    var next := Next(st.mode, c);
    if st.mode.escaped then Scan(st.tokens, st.current + [c], next)
    else if c == '\\' then st.(mode := next)
    else if st.mode.quote.Some? then
      (if c == st.mode.quote.value then st.(mode := next) else Scan(st.tokens, st.current + [c], next))
    else if c == '\'' || c == '"' then st.(mode := next)
    else if IsSpace(c) then Scan(Flush(st.tokens, st.current), "", next)
    else Scan(st.tokens, st.current + [c], next)
  }

  function Read(st: Scan, s: string): Scan
    decreases |s|
  {
    if s == "" then st else Read(TokenStep(st, s[0]), s[1..])
  }

  function Finish(st: Scan): seq<string> {
    Flush(st.tokens, st.current)
  }

  function Tokenize(s: string): seq<string> {
    Finish(Read(START, s))
  }

  method TokenizeShellLike(command: string) returns (tokens: seq<string>)
    ensures tokens == Tokenize(command)
  {
    tokens := [];
    var current := "";
    var quote: Option<Quote> := None;
    var escaped := false;
    var index := 0;
    while index < |command|
      invariant 0 <= index <= |command|
      invariant Read(START, command) == Read(Scan(tokens, current, Mode(quote, escaped)), command[index..])
    {
      var c := command[index];
      assert command[index..][0] == c && command[index..][1..] == command[index + 1..];
      index := index + 1;
      if escaped {
        current := current + [c];
        escaped := false;
      } else if c == '\\' {
        escaped := true;
      } else if quote.Some? {
        if c == quote.value {
          quote := None;
        } else {
          current := current + [c];
        }
      } else if c == '\'' || c == '"' {
        quote := Some(c);
      } else if IsSpace(c) {
        if current != "" {
          tokens := tokens + [current];
          current := "";
        }
      } else {
        current := current + [c];
      }
    }
    if current != "" {
      tokens := tokens + [current];
    }
  }

  // ----- segments -----

  /** How many characters the separator at the front of `s` has; 0 when there is none. */
  function Separator(s: string): nat {
    if s == "" then 0
    else if s[0] == '|' || s[0] == ';' then 1
    else if |s| > 1 && s[0] == '&' && s[1] == '&' then 2
    else 0
  }

  /** A separator counts only outside quotes and when it is not escaped. */
  function Cut(m: Mode, s: string): (n: nat)
    ensures n <= |s|
  {
    if m == PLAIN then Separator(s) else 0
  }

  /** The segments of `s` as they are collected, before trimming. */
  function Raw(s: string, current: string, m: Mode): (segments: seq<string>)
    ensures segments != []
    decreases |s|
  {
    if s == "" then [current]
    else if Cut(m, s) > 0 then [current] + Raw(s[Cut(m, s)..], "", m)
    else Raw(s[1..], current + [s[0]], Next(m, s[0]))
  }

  /** Each segment trimmed, empty ones dropped. */
  function Trimmed(raw: seq<string>): seq<string> {
    if raw == [] then []
    else (if Trim(raw[0]) != "" then [Trim(raw[0])] else []) + Trimmed(raw[1..])
  }

  function Segments(command: string): seq<string> {
    Trimmed(Raw(command, "", PLAIN))
  }

  /** The loop has collected `segments`, and the rest of the command from `index` gives the others. */
  ghost predicate SoFar(command: string, index: nat, segments: seq<string>, current: string, m: Mode) {
    index <= |command| && Segments(command) == segments + Trimmed(Raw(command[index..], current, m))
  }

  method SplitShellCommandSegments(command: string) returns (segments: seq<string>)
    ensures segments == Segments(command)
  {
    hide Raw, Trimmed, Trim, SoFar, Segments, Cut, Separator;
    segments := [];
    var current := "";
    var quote: Option<Quote> := None;
    var escaped := false;
    var index := 0;
    NothingYet(command);
    while index < |command|
      invariant 0 <= index <= |command|
      invariant SoFar(command, index, segments, current, Mode(quote, escaped))
    {
      var c := command[index];
      if escaped {
        Keep(command, index, segments, current, Mode(quote, escaped));
        current := current + [c];
        escaped := false;
      } else if c == '\\' {
        Keep(command, index, segments, current, Mode(quote, escaped));
        current := current + [c];
        escaped := true;
      } else if quote.Some? {
        Keep(command, index, segments, current, Mode(quote, escaped));
        current := current + [c];
        if c == quote.value {
          quote := None;
        }
      } else if c == '\'' || c == '"' {
        Keep(command, index, segments, current, Mode(quote, escaped));
        current := current + [c];
        quote := Some(c);
      } else {
        SeparatorAt(command, index);
        var isPipe := c == '|';
        var isSemicolon := c == ';';
        var isDoubleAmpersand := c == '&' && index + 1 < |command| && command[index + 1] == '&';
        if isPipe || isSemicolon || isDoubleAmpersand {
          CutOff(command, index, segments, current);
          var trimmed := Trim(current);
          if |trimmed| > 0 {
            segments := segments + [trimmed];
          }
          current := "";
          if isDoubleAmpersand {
            index := index + 1;
          }
        } else {
          Keep(command, index, segments, current, PLAIN);
          current := current + [c];
        }
      }
      index := index + 1;
    }
    AllRead(command, segments, current, Mode(quote, escaped));
    var trailing := Trim(current);
    if |trailing| > 0 {
      segments := segments + [trailing];
    }
  }

  lemma NothingYet(command: string)
    ensures SoFar(command, 0, [], "", PLAIN)
  {
    assert command[0..] == command;
    assert [] + Segments(command) == Segments(command);
  }

  lemma AllRead(command: string, segments: seq<string>, current: string, m: Mode)
    requires SoFar(command, |command|, segments, current, m)
    ensures Segments(command) == if |Trim(current)| > 0 then segments + [Trim(current)] else segments
  {
    hide Trim;
    assert command[|command|..] == "";
    TrimmedCons(current, []);
  }

  lemma Keep(command: string, index: nat, segments: seq<string>, current: string, m: Mode)
    requires index < |command| && SoFar(command, index, segments, current, m)
    ensures Cut(m, command[index..]) == 0 ==>
              SoFar(command, index + 1, segments, current + [command[index]], Next(m, command[index]))
    ensures m != PLAIN || command[index] in "\\'\"" ==> Cut(m, command[index..]) == 0
    ensures m == PLAIN ==> Cut(m, command[index..]) == Separator(command[index..])
  {
    assert command[index..][1..] == command[index + 1..];
  }

  lemma SeparatorAt(command: string, index: nat)
    requires index < |command|
    ensures Separator(command[index..]) ==
            if command[index] == '|' || command[index] == ';' then 1
            else if index + 1 < |command| && command[index] == '&' && command[index + 1] == '&' then 2
            else 0
  {
  }

  lemma CutOff(command: string, index: nat, segments: seq<string>, current: string)
    requires index < |command| && SoFar(command, index, segments, current, PLAIN)
    ensures var n := Separator(command[index..]);
            n > 0 ==> SoFar(command, index + n, if |Trim(current)| > 0 then segments + [Trim(current)] else segments, "", PLAIN)
  {
    hide Trim, Segments, Separator;
    var s := command[index..];
    var n := Separator(s);
    TrimmedCons(current, []);
    if n > 0 {
      assert n <= |s| && Cut(PLAIN, s) == n;
      assert s[n..] == command[index + n..];
      var rest := Raw(s[n..], "", PLAIN);
      TrimmedCons(current, rest);
      assert segments + Trimmed([current] + rest) == segments + Trimmed([current]) + Trimmed(rest);
    }
  }

  lemma TrimmedCons(first: string, rest: seq<string>)
    ensures Trimmed([first] + rest) == (if Trim(first) != "" then [Trim(first)] else []) + Trimmed(rest)
    ensures rest == [] ==> [first] + rest == [first] && Trimmed(rest) == []
  {
    assert ([first] + rest)[1..] == rest;
  }

  // ----- the two together -----

  /** The command with every separator that cuts replaced by spaces. */
  function Blank(s: string, m: Mode): string
    decreases |s|
  {
    if s == "" then ""
    else if Cut(m, s) == 2 then "  " + Blank(s[2..], m)
    else if Cut(m, s) == 1 then " " + Blank(s[1..], m)
    else [s[0]] + Blank(s[1..], Next(m, s[0]))
  }

  function TokensOf(segments: seq<string>): seq<string> {
    if segments == [] then [] else Tokenize(segments[0]) + TokensOf(segments[1..])
  }

  lemma {:induction false} ReadInTwo(st: Scan, a: string, b: string)
    ensures Read(st, a + b) == Read(Read(st, a), b)
    decreases |a|
  {
    if a == "" {
      assert a + b == b;
    } else {
      assert (a + b)[1..] == a[1..] + b;
      ReadInTwo(TokenStep(st, a[0]), a[1..], b);
    }
  }

  lemma {:induction false} ReadMode(st: Scan, s: string)
    ensures Read(st, s).mode == ModeAfter(st.mode, s)
    decreases |s|
  {
    if s != "" {
      ReadMode(TokenStep(st, s[0]), s[1..]);
    }
  }

  lemma {:induction false} ModeInTwo(m: Mode, a: string, b: string)
    ensures ModeAfter(m, a + b) == ModeAfter(ModeAfter(m, a), b)
    decreases |a|
  {
    if a == "" {
      assert a + b == b;
    } else {
      assert (a + b)[1..] == a[1..] + b;
      ModeInTwo(Next(m, a[0]), a[1..], b);
    }
  }

  /** Tokens found earlier only sit in front. */
  lemma {:induction false} ReadAfter(tokens: seq<string>, st: Scan, s: string)
    ensures Read(st.(tokens := tokens + st.tokens), s)
         == Read(st, s).(tokens := tokens + Read(st, s).tokens)
    decreases |s|
  {
    if s != "" {
      hide IsSpace;
      var next := TokenStep(st, s[0]);
      assert TokenStep(st.(tokens := tokens + st.tokens), s[0]) == next.(tokens := tokens + next.tokens);
      ReadAfter(tokens, next, s[1..]);
    }
  }

  /** A space outside quotes separates the tokens before it from those after it. */
  lemma SpaceSeparates(a: string, b: string)
    requires ModeAfter(PLAIN, a) == PLAIN
    ensures Tokenize(a + " " + b) == Tokenize(a) + Tokenize(b)
  {
    var st := Read(START, a);
    ReadMode(START, a);
    ReadInTwo(START, a + " ", b);
    ReadInTwo(START, a, " ");
    assert Read(st, " ") == Read(TokenStep(st, ' '), "");
    assert TokenStep(st, ' ') == Scan(Tokenize(a), "", PLAIN);
    assert Tokenize(a) + START.tokens == Tokenize(a);
    ReadAfter(Tokenize(a), START, b);
    var r := Read(START, b);
    assert Flush(Tokenize(a) + r.tokens, r.current) == Tokenize(a) + Flush(r.tokens, r.current);
  }

  lemma LeadingSpace(b: string)
    ensures Tokenize(" " + b) == Tokenize(b)
  {
    assert "" + " " + b == " " + b;
    SpaceSeparates("", b);
    assert Tokenize("") == [];
  }

  /** Tokenizing the blanked command is tokenizing the untrimmed segments one by one. */
  lemma {:induction false} BlankedIsRaw(s: string, current: string, m: Mode)
    requires ModeAfter(PLAIN, current) == m
    ensures Tokenize(current + Blank(s, m)) == TokensOf(Raw(s, current, m))
    decreases |s|
  {
    hide Tokenize, Cut, Next, TokensOf, Blank, Raw, ModeAfter;
    if s == "" {
      BlankOfNothing(current, m);
    } else if Cut(m, s) > 0 {
      var rest := s[Cut(m, s)..];
      ModeOfNothing();
      BlankedIsRaw(rest, "", PLAIN);
      CutIsBlank(s, current, m, Raw(rest, "", PLAIN));
      RawCuts(s, current, m);
    } else {
      var c := [s[0]];
      KeptCharacter(s, current, m);
      BlankedIsRaw(s[1..], current + c, Next(m, s[0]));
      assert current + (c + Blank(s[1..], Next(m, s[0]))) == current + c + Blank(s[1..], Next(m, s[0]));
    }
  }

  lemma BlankOfNothing(current: string, m: Mode)
    ensures Tokenize(current + Blank("", m)) == TokensOf(Raw("", current, m))
  {
    hide Tokenize;
    assert current + "" == current;
    assert TokensOf([current]) == Tokenize(current) + TokensOf([]);
  }

  lemma ModeOfNothing()
    ensures ModeAfter(PLAIN, "") == PLAIN
  {
  }

  lemma RawCuts(s: string, current: string, m: Mode)
    requires s != "" && Cut(m, s) > 0
    ensures m == PLAIN && Raw(s, current, m) == [current] + Raw(s[Cut(m, s)..], "", PLAIN)
  {
  }

  lemma KeptCharacter(s: string, current: string, m: Mode)
    requires s != "" && Cut(m, s) == 0 && ModeAfter(PLAIN, current) == m
    ensures ModeAfter(PLAIN, current + [s[0]]) == Next(m, s[0])
    ensures Blank(s, m) == [s[0]] + Blank(s[1..], Next(m, s[0]))
    ensures Raw(s, current, m) == Raw(s[1..], current + [s[0]], Next(m, s[0]))
  {
    ModeInTwo(PLAIN, current, [s[0]]);
    assert ModeAfter(m, [s[0]]) == ModeAfter(Next(m, s[0]), "");
  }

  lemma CutIsBlank(s: string, current: string, m: Mode, raw: seq<string>)
    requires s != "" && Cut(m, s) > 0 && ModeAfter(PLAIN, current) == m
    requires Tokenize("" + Blank(s[Cut(m, s)..], PLAIN)) == TokensOf(raw)
    ensures m == PLAIN && Tokenize(current + Blank(s, m)) == TokensOf([current] + raw)
  {
    hide Tokenize, ModeAfter, Blank, Cut, TokensOf;
    assert m == PLAIN by { OnlyPlainCuts(m, s); }
    var blank := Blank(s[Cut(m, s)..], PLAIN);
    assert "" + blank == blank;
    BlankCut(s);
    TokensOfCons(current, raw);
    if Cut(m, s) == 2 {
      assert current + ("  " + blank) == current + " " + (" " + blank);
      SpaceSeparates(current, " " + blank);
      LeadingSpace(blank);
    } else {
      assert current + (" " + blank) == current + " " + blank;
      SpaceSeparates(current, blank);
    }
  }

  lemma OnlyPlainCuts(m: Mode, s: string)
    ensures Cut(m, s) > 0 ==> m == PLAIN
  {
  }

  lemma BlankCut(s: string)
    requires s != "" && Cut(PLAIN, s) > 0
    ensures Blank(s, PLAIN) == (if Cut(PLAIN, s) == 2 then "  " else " ") + Blank(s[Cut(PLAIN, s)..], PLAIN)
  {
  }

  lemma TokensOfCons(first: string, rest: seq<string>)
    ensures TokensOf([first] + rest) == Tokenize(first) + TokensOf(rest)
  {
    hide Tokenize;
    assert ([first] + rest)[1..] == rest;
  }

  // ----- what trimming costs -----

  /** White space at the end of a segment that the machine reads as part of a token. */
  predicate TrimLoses(raw: string) {
    var start := TrimStart(raw);
    TrimEnd(start) != start && ModeAfter(PLAIN, TrimEnd(start)) != PLAIN
  }

  function Size(tokens: seq<string>): nat {
    if tokens == [] then 0 else Size(tokens[..|tokens| - 1]) + |tokens[|tokens| - 1]|
  }

  lemma SizeSnoc(tokens: seq<string>, last: string)
    ensures Size(tokens + [last]) == Size(tokens) + |last|
  {
    assert (tokens + [last])[..|tokens|] == tokens;
  }

  lemma {:induction false} SizeConcat(a: seq<string>, b: seq<string>)
    ensures Size(a + b) == Size(a) + Size(b)
    decreases |b|
  {
    if b == [] {
      assert a + b == a;
    } else {
      assert (a + b)[..|a + b| - 1] == a + b[..|b| - 1];
      SizeConcat(a, b[..|b| - 1]);
    }
  }

  /** Characters kept so far. */
  function Weight(st: Scan): nat {
    Size(st.tokens) + |st.current|
  }

  lemma FinishWeight(st: Scan)
    ensures Size(Finish(st)) == Weight(st)
  {
    SizeSnoc(st.tokens, st.current);
  }

  lemma StepWeight(st: Scan, c: char)
    ensures Weight(TokenStep(st, c)) >= Weight(st)
    ensures IsSpace(c) && st.mode != PLAIN ==> Weight(TokenStep(st, c)) == Weight(st) + 1
  {
    SizeSnoc(st.tokens, st.current);
  }

  lemma {:induction false} ReadWeight(st: Scan, s: string)
    ensures Weight(Read(st, s)) >= Weight(st)
    decreases |s|
  {
    if s != "" {
      StepWeight(st, s[0]);
      ReadWeight(TokenStep(st, s[0]), s[1..]);
    }
  }

  lemma {:induction false} PlainSpaceRead(st: Scan, s: string)
    requires AllSpace(s) && st.mode == PLAIN
    ensures s != "" ==> Read(st, s) == Scan(Finish(st), "", PLAIN)
    decreases |s|
  {
    if s != "" {
      var next := TokenStep(st, s[0]);
      PlainSpaceRead(next, s[1..]);
    }
  }

  lemma LeadingCostsNothing(raw: string)
    ensures Tokenize(TrimStart(raw)) == Tokenize(raw)
  {
    TrimStartSpec(raw);
    var t := TrimStart(raw);
    var head := raw[..|raw| - |t|];
    assert raw == head + t;
    ReadInTwo(START, head, t);
    PlainSpaceRead(START, head);
  }

  /** Trimming a segment keeps its tokens exactly when it does not lose protected white space. */
  lemma TrimKeepsTokensIff(raw: string)
    ensures Tokenize(Trim(raw)) == Tokenize(raw) <==> !TrimLoses(raw)
    ensures Size(Tokenize(Trim(raw))) <= Size(Tokenize(raw))
    ensures TrimLoses(raw) ==> Size(Tokenize(Trim(raw))) < Size(Tokenize(raw))
  {
    LeadingCostsNothing(raw);
    var start := TrimStart(raw);
    var t := TrimEnd(start);
    TrimEndSpec(start);
    var tail := start[|t|..];
    assert start == t + tail;
    ReadInTwo(START, t, tail);
    ReadMode(START, t);
    var st := Read(START, t);
    ReadWeight(st, tail);
    FinishWeight(st);
    FinishWeight(Read(st, tail));
    if tail == "" {
      assert t == start;
    } else if st.mode == PLAIN {
      PlainSpaceRead(st, tail);
    } else {
      StepWeight(st, tail[0]);
      ReadWeight(TokenStep(st, tail[0]), tail[1..]);
    }
  }

  lemma {:induction false} TrimmedSize(raw: seq<string>)
    ensures Size(TokensOf(Trimmed(raw))) <= Size(TokensOf(raw))
    ensures TokensOf(Trimmed(raw)) == TokensOf(raw) <==> forall r :: r in raw ==> !TrimLoses(r)
    ensures (exists r :: r in raw && TrimLoses(r)) ==> Size(TokensOf(Trimmed(raw))) < Size(TokensOf(raw))
    decreases |raw|
  {
    if raw != [] {
      var first, rest := raw[0], raw[1..];
      hide Tokenize, TrimLoses;
      TrimKeepsTokensIff(first);
      TrimmedSize(rest);
      FirstTrimmed(raw);
      SizeConcat(Tokenize(first), TokensOf(rest));
      SizeConcat(Tokenize(Trim(first)), TokensOf(Trimmed(rest)));
      assert raw == [first] + rest;
    }
  }

  lemma FirstTrimmed(raw: seq<string>)
    requires raw != []
    ensures TokensOf(Trimmed(raw)) == Tokenize(Trim(raw[0])) + TokensOf(Trimmed(raw[1..]))
  {
    var rest := Trimmed(raw[1..]);
    if Trim(raw[0]) != "" {
      assert ([Trim(raw[0])] + rest)[1..] == rest;
    } else {
      assert [] + rest == rest;
      assert Tokenize("") == [];
      assert [] + TokensOf(rest) == TokensOf(rest);
    }
  }

  /** For every command: tokenizing its segments gives the tokens of the command with the cutting
      separators blanked, exactly when trimming loses nothing in any segment. */
  lemma SegmentsTokenizeIff(command: string)
    ensures TokensOf(Segments(command)) == Tokenize(Blank(command, PLAIN))
            <==> forall r :: r in Raw(command, "", PLAIN) ==> !TrimLoses(r)
  {
    BlankedIsRaw(command, "", PLAIN);
    assert "" + Blank(command, PLAIN) == Blank(command, PLAIN);
    TrimmedSize(Raw(command, "", PLAIN));
  }

  // ----- a condition on the command alone -----

  /** A backslash is never followed by white space. */
  predicate NoEscapedSpace(s: string) {
    forall i :: 0 <= i < |s| - 1 && s[i] == '\\' ==> !IsSpace(s[i + 1])
  }

  lemma {:induction false} EscapedMeansBackslash(m: Mode, s: string)
    requires s != "" && ModeAfter(m, s).escaped
    ensures s[|s| - 1] == '\\'
    decreases |s|
  {
    if |s| > 1 {
      EscapedMeansBackslash(Next(m, s[0]), s[1..]);
    } else {
      assert ModeAfter(m, s) == ModeAfter(Next(m, s[0]), "");
    }
  }

  lemma {:induction false} SpaceKeepsQuote(m: Mode, s: string)
    requires AllSpace(s) && !m.escaped
    ensures ModeAfter(m, s) == m
    decreases |s|
  {
    if s != "" {
      SpaceKeepsQuote(m, s[1..]);
    }
  }

  lemma LossIsVisible(raw: string)
    requires TrimLoses(raw)
    ensures !NoEscapedSpace(raw) || ModeAfter(PLAIN, raw).quote.Some?
  {
    var start := TrimStart(raw);
    var t := TrimEnd(start);
    TrimStartSpec(raw);
    TrimEndSpec(start);
    var head, tail := raw[..|raw| - |start|], start[|t|..];
    hide TrimStart, TrimEnd, ModeAfter;
    assert raw == head + t + tail;
    LossInside(head, t, tail);
  }

  lemma LossInside(head: string, t: string, tail: string)
    requires AllSpace(head) && AllSpace(tail) && tail != "" && ModeAfter(PLAIN, t) != PLAIN
    ensures !NoEscapedSpace(head + t + tail) || ModeAfter(PLAIN, head + t + tail).quote.Some?
  {
    var raw, m := head + t + tail, ModeAfter(PLAIN, t);
    assert t != "" && raw == head + (t + tail);
    if m.escaped {
      EscapedMeansBackslash(PLAIN, t);
      var i := |head| + |t| - 1;
      assert raw[i] == '\\' && raw[i + 1] == tail[0];
    } else {
      SpaceKeepsQuote(PLAIN, head);
      ModeInTwo(PLAIN, head, t + tail);
      ModeInTwo(PLAIN, t, tail);
      SpaceKeepsQuote(m, tail);
    }
  }

  predicate Closed(s: string) {
    NoEscapedSpace(s) && ModeAfter(PLAIN, s).quote.None?
  }

  /** Every untrimmed segment is a slice of the command, and all but the last end outside quotes. */
  lemma {:induction false} RawSlices(command: string, a: nat, i: nat, m: Mode)
    requires a <= i <= |command| && m == ModeAfter(PLAIN, command[a..i])
    requires NoEscapedSpace(command) && ModeAfter(m, command[i..]).quote.None?
    ensures forall r :: r in Raw(command[i..], command[a..i], m) ==> Closed(r)
    decreases |command| - i
  {
    hide NoEscapedSpace;
    var s, current := command[i..], command[a..i];
    assert NoEscapedSpace(current) by { SliceIsFine(command, a, i); }
    if s == "" {
    } else if Cut(m, s) > 0 {
      var n := Cut(m, s);
      assert s[n..] == command[i + n..] && command[i + n..i + n] == "";
      SeparatorKeepsMode(s, n);
      RawSlices(command, i + n, i + n, PLAIN);
      assert Raw(s, current, m) == [current] + Raw(s[n..], "", PLAIN);
    } else {
      hide Cut, Next;
      OneMoreChar(command, a, i);
      ModeInTwo(PLAIN, current, [s[0]]);
      OneCharMode(m, s[0]);
      RawSlices(command, a, i + 1, Next(m, s[0]));
    }
  }

  lemma OneMoreChar(command: string, a: nat, i: nat)
    requires a <= i < |command|
    ensures command[i..][0] == command[i] && command[i..][1..] == command[i + 1..]
    ensures command[a..i] + [command[i..][0]] == command[a..i + 1]
  {
  }

  lemma OneCharMode(m: Mode, c: char)
    ensures ModeAfter(m, [c]) == Next(m, c)
  {
    var s := [c];
    assert s[0] == c && s[1..] == "";
    assert ModeAfter(Next(m, c), "") == Next(m, c);
  }

  lemma SliceIsFine(s: string, a: nat, i: nat)
    requires a <= i <= |s| && NoEscapedSpace(s)
    ensures NoEscapedSpace(s[a..i])
  {
    var r := s[a..i];
    forall k | 0 <= k < |r| - 1 && r[k] == '\\' ensures !IsSpace(r[k + 1]) {
      assert s[a + k] == '\\' && s[a + k + 1] == r[k + 1];
    }
  }

  lemma SeparatorKeepsMode(s: string, n: nat)
    requires n == Cut(PLAIN, s) && n > 0
    ensures ModeAfter(PLAIN, s) == ModeAfter(PLAIN, s[n..])
  {
    assert ModeAfter(PLAIN, s) == ModeAfter(Next(PLAIN, s[0]), s[1..]);
    if n == 2 {
      assert s[1..][1..] == s[2..];
      assert ModeAfter(PLAIN, s[1..]) == ModeAfter(Next(PLAIN, s[1]), s[2..]);
    }
  }

  /** A command with closed quotes and no backslash before white space is always safe. */
  lemma ClosedCommandsAgree(command: string)
    requires ModeAfter(PLAIN, command).quote.None? && NoEscapedSpace(command)
    ensures TokensOf(Segments(command)) == Tokenize(Blank(command, PLAIN))
  {
    assert command[0..] == command && command[0..0] == "";
    RawSlices(command, 0, 0, PLAIN);
    forall r | r in Raw(command, "", PLAIN) ensures !TrimLoses(r) {
      if TrimLoses(r) { LossIsVisible(r); }
    }
    SegmentsTokenizeIff(command);
  }

  /** `a\ |b`: the segments give "a" and "b", the whole command gives "a " and "b". */
  lemma EscapedSpaceIsLost()
    ensures var command := "a\\ |b";
            && ModeAfter(PLAIN, command) == PLAIN
            && TokensOf(Segments(command)) != Tokenize(Blank(command, PLAIN))
  {
    CutOfEscapedSpace();
    ModesOfEscapedSpace();
    SegmentsTokenizeIff("a\\ |b");
  }

  lemma RawKeeps(s: string, current: string, m: Mode)
    requires s != "" && (m != PLAIN || (s[0] != '|' && s[0] != ';' && s[0] != '&'))
    ensures Raw(s, current, m) == Raw(s[1..], current + [s[0]], Next(m, s[0]))
  {
  }

  lemma RawCutsBar(s: string, current: string)
    requires s != "" && s[0] == '|'
    ensures Raw(s, current, PLAIN) == [current] + Raw(s[1..], "", PLAIN)
  {
  }

  lemma CutOfEscapedSpace()
    ensures "a\\ " in Raw("a\\ |b", "", PLAIN)
  {
    hide Raw, Cut;
    var esc := Mode(None, true);
    assert "a\\ |b"[1..] == "\\ |b" && "\\ |b"[1..] == " |b" && " |b"[1..] == "|b";
    assert "" + "a" == "a" && "a" + "\\" == "a\\" && "a\\" + " " == "a\\ ";
    RawKeeps("a\\ |b", "", PLAIN);
    RawKeeps("\\ |b", "a", PLAIN);
    RawKeeps(" |b", "a\\", esc);
    RawCutsBar("|b", "a\\ ");
  }

  lemma ModesOfEscapedSpace()
    ensures ModeAfter(PLAIN, "a\\ |b") == PLAIN && TrimLoses("a\\ ")
  {
    var t, esc := "a\\", Mode(None, true);
    assert "a\\ |b" == t + " |b" && t[1..] == "\\" && " |b"[1..] == "|b" && "|b"[1..] == "b" && "b"[1..] == "";
    assert ModeAfter(PLAIN, t) == ModeAfter(PLAIN, "\\") == ModeAfter(esc, "") == esc;
    ModeInTwo(PLAIN, t, " |b");
    assert ModeAfter(esc, " |b") == ModeAfter(PLAIN, "|b") == ModeAfter(PLAIN, "b") == ModeAfter(PLAIN, "");
    assert "a\\ "[..2] == t && TrimStart("a\\ ") == "a\\ ";
    assert TrimEnd(t) == t == TrimEnd("a\\ ");
  }

  // ----- reading back what was printed -----

  /** One character of a token as it may be written. */
  datatype Written = Written(c: char, slashed: bool)

  /** A part of a token: a character outside quotes, or a quoted stretch. */
  datatype Piece = One(w: Written) | InQuotes(q: Quote, body: seq<Written>)

  function PrintWritten(w: Written): string {
    if w.slashed then ['\\', w.c] else [w.c]
  }

  function PrintBody(body: seq<Written>): string {
    if body == [] then "" else PrintWritten(body[0]) + PrintBody(body[1..])
  }

  function BodyText(body: seq<Written>): string {
    if body == [] then "" else [body[0].c] + BodyText(body[1..])
  }

  function PrintPiece(p: Piece): string {
    match p
    case One(w) => PrintWritten(w)
    case InQuotes(q, body) => [q] + PrintBody(body) + [q]
  }

  function PieceText(p: Piece): string {
    match p
    case One(w) => [w.c]
    case InQuotes(_, body) => BodyText(body)
  }

  predicate IsQuote(c: char) {
    c == '\'' || c == '"'
  }

  /** Outside quotes a bare character is no space, quote or backslash; inside, neither the quote nor a
      backslash. With a backslash any character may be written. */
  predicate IsWritable(p: Piece) {
    match p
    case One(w) => w.slashed || !(IsSpace(w.c) || IsQuote(w.c) || w.c == '\\')
    case InQuotes(q, body) => forall k :: 0 <= k < |body| ==> InBody(q, body[k])
  }

  function PrintPieces(ps: seq<Piece>): string {
    if ps == [] then "" else PrintPiece(ps[0]) + PrintPieces(ps[1..])
  }

  function PiecesText(ps: seq<Piece>): string {
    if ps == [] then "" else PieceText(ps[0]) + PiecesText(ps[1..])
  }

  /** A word and the white space behind it. */
  datatype Word = Word(pieces: seq<Piece>, after: string)

  predicate IsWord(w: Word) {
    (forall p :: p in w.pieces ==> IsWritable(p)) && AllSpace(w.after)
  }

  /** Every word but the last is followed by white space. */
  predicate AreWords(words: seq<Word>) {
    && (forall w :: w in words ==> IsWord(w))
    && (forall k :: 0 <= k < |words| - 1 ==> words[k].after != "")
  }

  function PrintWords(words: seq<Word>): string {
    if words == [] then "" else PrintPieces(words[0].pieces) + words[0].after + PrintWords(words[1..])
  }

  /** The texts of the words; a word without text is no token. */
  function TextsOf(words: seq<Word>): seq<string> {
    if words == [] then [] else Flush([], PiecesText(words[0].pieces)) + TextsOf(words[1..])
  }

  lemma ReadOne(st: Scan, c: char)
    ensures Read(st, [c]) == TokenStep(st, c)
  {
    assert Read(st, [c]) == Read(TokenStep(st, c), "");
  }

  lemma ReadSlashed(st: Scan, c: char)
    requires !st.mode.escaped
    ensures Read(st, ['\\', c]) == st.(current := st.current + [c])
  {
    hide IsSpace;
    assert ['\\', c] == ['\\'] + [c];
    ReadInTwo(st, ['\\'], [c]);
    ReadOne(st, '\\');
    ReadOne(TokenStep(st, '\\'), c);
  }

  predicate InBody(q: Quote, w: Written) {
    w.slashed || (w.c != q && w.c != '\\')
  }

  lemma ReadInQuotes(st: Scan, q: Quote, w: Written)
    requires st.mode == Mode(Some(q), false) && InBody(q, w)
    ensures Read(st, PrintWritten(w)) == st.(current := st.current + [w.c])
  {
    hide Read;
    if w.slashed {
      ReadSlashed(st, w.c);
    } else {
      ReadOne(st, w.c);
    }
  }

  lemma {:induction false} ReadBody(st: Scan, q: Quote, body: seq<Written>)
    requires st.mode == Mode(Some(q), false)
    requires forall k :: 0 <= k < |body| ==> InBody(q, body[k])
    ensures Read(st, PrintBody(body)) == st.(current := st.current + BodyText(body))
    decreases |body|
  {
    hide Read, InBody, PrintWritten;
    if body == [] {
      ReadNothing(st);
      assert st.current + "" == st.current;
    } else {
      var w, rest := body[0], body[1..];
      ReadInQuotes(st, q, w);
      ReadInTwo(st, PrintWritten(w), PrintBody(rest));
      ReadBody(st.(current := st.current + [w.c]), q, rest);
      assert st.current + ([w.c] + BodyText(rest)) == st.current + [w.c] + BodyText(rest);
    }
  }

  lemma ReadPiece(st: Scan, p: Piece)
    requires st.mode == PLAIN && IsWritable(p)
    ensures Read(st, PrintPiece(p)) == st.(current := st.current + PieceText(p))
  {
    hide Read, IsSpace;
    match p
    case One(w) =>
      if w.slashed {
        ReadSlashed(st, w.c);
      } else {
        ReadOne(st, w.c);
      }
    case InQuotes(q, body) =>
      var inside := st.(mode := Mode(Some(q), false));
      ReadOne(st, q);
      ReadInTwo(st, [q] + PrintBody(body), [q]);
      ReadInTwo(st, [q], PrintBody(body));
      ReadBody(inside, q, body);
      ReadOne(inside.(current := st.current + BodyText(body)), q);
  }

  lemma {:induction false} ReadPieces(st: Scan, ps: seq<Piece>)
    requires st.mode == PLAIN && forall p :: p in ps ==> IsWritable(p)
    ensures Read(st, PrintPieces(ps)) == st.(current := st.current + PiecesText(ps))
    decreases |ps|
  {
    hide IsWritable, Read, PieceText, PrintPiece;
    if ps == [] {
      ReadNothing(st);
      assert st.current + "" == st.current;
    } else {
      var p, rest := ps[0], ps[1..];
      assert p in ps;
      ReadPiece(st, p);
      ReadInTwo(st, PrintPiece(p), PrintPieces(rest));
      ReadPieces(st.(current := st.current + PieceText(p)), rest);
      assert st.current + (PieceText(p) + PiecesText(rest)) == st.current + PieceText(p) + PiecesText(rest);
    }
  }

  lemma ReadWord(tokens: seq<string>, w: Word)
    requires IsWord(w)
    ensures var text := PiecesText(w.pieces);
            Read(Scan(tokens, "", PLAIN), PrintPieces(w.pieces) + w.after) ==
            if w.after == "" then Scan(tokens, text, PLAIN) else Scan(tokens + Flush([], text), "", PLAIN)
  {
    hide IsWritable, IsSpace;
    var st, text := Scan(tokens, "", PLAIN), PiecesText(w.pieces);
    ReadPieces(st, w.pieces);
    assert "" + text == text;
    ReadInTwo(st, PrintPieces(w.pieces), w.after);
    PlainSpaceRead(Scan(tokens, text, PLAIN), w.after);
    assert Flush(tokens, text) == tokens + Flush([], text);
  }

  lemma {:induction false} ReadWords(tokens: seq<string>, words: seq<Word>)
    requires AreWords(words)
    ensures Finish(Read(Scan(tokens, "", PLAIN), PrintWords(words))) == tokens + TextsOf(words)
    decreases |words|
  {
    hide IsWord, Read, PiecesText, PrintPieces;
    var st := Scan(tokens, "", PLAIN);
    if words == [] {
      ReadNothing(st);
      assert tokens + [] == tokens;
    } else {
      var w, rest := words[0], words[1..];
      RestAreWords(words);
      var text := PiecesText(w.pieces);
      ReadWord(tokens, w);
      ReadInTwo(st, PrintPieces(w.pieces) + w.after, PrintWords(rest));
      if w.after == "" {
        ReadNothing(Scan(tokens, text, PLAIN));
        TextsOfOneMore(tokens, words);
        assert tokens + Flush([], text) + TextsOf(rest) == Flush(tokens, text);
      } else {
        ReadWords(tokens + Flush([], text), rest);
        TextsOfOneMore(tokens, words);
      }
    }
  }

  lemma TextsOfOneMore(tokens: seq<string>, words: seq<Word>)
    requires words != []
    ensures tokens + TextsOf(words) == tokens + Flush([], PiecesText(words[0].pieces)) + TextsOf(words[1..])
  {
    hide PiecesText;
  }

  lemma ReadNothing(st: Scan)
    ensures Read(st, "") == st
  {
  }

  lemma RestAreWords(words: seq<Word>)
    requires AreWords(words) && words != []
    ensures IsWord(words[0]) && AreWords(words[1..])
    ensures words[0].after == "" ==> words[1..] == []
  {
    assert words[0] in words;
    forall k | 0 <= k < |words[1..]| - 1 ensures words[1..][k].after != "" {
      assert words[1..][k] == words[k + 1];
    }
  }

  /** Round trip: whatever words are written, bare, quoted or with backslashes in any mixture, and with
      whatever white space before, between and after them, tokenizing gives their texts back in order. */
  lemma TokensRoundTrip(before: string, words: seq<Word>)
    requires AllSpace(before) && AreWords(words)
    ensures Tokenize(before + PrintWords(words)) == TextsOf(words)
  {
    hide AreWords, AllSpace, PrintWords;
    ReadInTwo(START, before, PrintWords(words));
    PlainSpaceRead(START, before);
    assert Flush([], "") == [];
    ReadWords([], words);
    assert [] + TextsOf(words) == TextsOf(words);
  }

  lemma {:induction false} TextsAreTokens(words: seq<Word>)
    requires forall w :: w in words ==> PiecesText(w.pieces) != ""
    ensures |TextsOf(words)| == |words| && forall k :: 0 <= k < |words| ==> TextsOf(words)[k] == PiecesText(words[k].pieces)
  {
    if words != [] {
      assert words[0] in words;
      TextsAreTokens(words[1..]);
    }
  }

  // ----- segments read back -----

  /** Outside quotes a bare character of a segment is no separator, quote or backslash. */
  predicate FitsSegment(p: Piece) {
    match p
    case One(w) => w.slashed || !(w.c == '|' || w.c == ';' || w.c == '&' || IsQuote(w.c) || w.c == '\\')
    case InQuotes(q, body) => forall k :: 0 <= k < |body| ==> InBody(q, body[k])
  }

  datatype Cutter = Pipe | Semicolon | And

  function PrintCutter(c: Cutter): string {
    match c
    case Pipe => "|"
    case Semicolon => ";"
    case And => "&&"
  }

  /** A segment and the separator behind it. */
  datatype Segment = Segment(pieces: seq<Piece>, cutter: Cutter)

  predicate IsSegment(pieces: seq<Piece>) {
    forall p :: p in pieces ==> FitsSegment(p)
  }

  function PrintSegments(segments: seq<Segment>, last: seq<Piece>): string {
    if segments == [] then PrintPieces(last)
    else PrintPieces(segments[0].pieces) + PrintCutter(segments[0].cutter) + PrintSegments(segments[1..], last)
  }

  function RawTexts(segments: seq<Segment>, last: seq<Piece>): seq<string> {
    if segments == [] then [PrintPieces(last)]
    else [PrintPieces(segments[0].pieces)] + RawTexts(segments[1..], last)
  }

  lemma RawKeepsOne(c: char, rest: string, current: string, m: Mode)
    requires m != PLAIN || (c != '|' && c != ';' && c != '&')
    ensures Raw([c] + rest, current, m) == Raw(rest, current + [c], Next(m, c))
  {
    RawKeeps([c] + rest, current, m);
    assert ([c] + rest)[1..] == rest;
  }

  lemma RawKeepsSlashed(c: char, rest: string, current: string, m: Mode)
    requires !m.escaped
    ensures Raw(['\\', c] + rest, current, m) == Raw(rest, current + ['\\', c], m)
  {
    hide Raw;
    assert ['\\', c] + rest == ['\\'] + ([c] + rest);
    RawKeepsOne('\\', [c] + rest, current, m);
    RawKeepsOne(c, rest, current + ['\\'], m.(escaped := true));
    assert current + ['\\'] + [c] == current + ['\\', c];
  }

  lemma RawInQuotes(q: Quote, w: Written, rest: string, current: string)
    requires InBody(q, w)
    ensures var m := Mode(Some(q), false);
            Raw(PrintWritten(w) + rest, current, m) == Raw(rest, current + PrintWritten(w), m)
  {
    hide Raw;
    if w.slashed {
      RawKeepsSlashed(w.c, rest, current, Mode(Some(q), false));
    } else {
      RawKeepsOne(w.c, rest, current, Mode(Some(q), false));
    }
  }

  lemma {:induction false} RawBody(q: Quote, body: seq<Written>, rest: string, current: string)
    requires forall k :: 0 <= k < |body| ==> InBody(q, body[k])
    ensures var m := Mode(Some(q), false);
            Raw(PrintBody(body) + rest, current, m) == Raw(rest, current + PrintBody(body), m)
    decreases |body|
  {
    hide Raw, InBody, PrintWritten;
    if body == [] {
      assert "" + rest == rest && current + "" == current;
    } else {
      var w, more := PrintWritten(body[0]), PrintBody(body[1..]);
      assert w + more + rest == w + (more + rest);
      RawInQuotes(q, body[0], more + rest, current);
      RawBody(q, body[1..], rest, current + w);
      assert current + w + more == current + (w + more);
    }
  }

  lemma RawPiece(p: Piece, rest: string, current: string)
    requires FitsSegment(p)
    ensures Raw(PrintPiece(p) + rest, current, PLAIN) == Raw(rest, current + PrintPiece(p), PLAIN)
  {
    hide Raw;
    match p
    case One(w) =>
      if w.slashed {
        RawKeepsSlashed(w.c, rest, current, PLAIN);
      } else {
        RawKeepsOne(w.c, rest, current, PLAIN);
      }
    case InQuotes(q, body) =>
      var inside, text := Mode(Some(q), false), PrintBody(body);
      assert [q] + text + [q] + rest == [q] + (text + ([q] + rest));
      RawKeepsOne(q, text + ([q] + rest), current, PLAIN);
      RawBody(q, body, [q] + rest, current + [q]);
      RawKeepsOne(q, rest, current + [q] + text, inside);
      assert current + [q] + text + [q] == current + ([q] + text + [q]);
  }

  lemma {:induction false} RawPieces(ps: seq<Piece>, rest: string, current: string)
    requires IsSegment(ps)
    ensures Raw(PrintPieces(ps) + rest, current, PLAIN) == Raw(rest, current + PrintPieces(ps), PLAIN)
    decreases |ps|
  {
    hide Raw, FitsSegment, PrintPiece;
    if ps == [] {
      assert "" + rest == rest && current + "" == current;
    } else {
      assert ps[0] in ps;
      var p, more := PrintPiece(ps[0]), PrintPieces(ps[1..]);
      assert p + more + rest == p + (more + rest);
      RawPiece(ps[0], more + rest, current);
      RawPieces(ps[1..], rest, current + p);
      assert current + p + more == current + (p + more);
    }
  }

  lemma RawAtCutter(c: Cutter, rest: string, current: string)
    ensures Raw(PrintCutter(c) + rest, current, PLAIN) == [current] + Raw(rest, "", PLAIN)
  {
    hide Raw;
    var s := PrintCutter(c) + rest;
    assert Cut(PLAIN, s) == |PrintCutter(c)| && s[|PrintCutter(c)|..] == rest;
    RawCuts(s, current, PLAIN);
  }

  lemma {:induction false} RawSegments(segments: seq<Segment>, last: seq<Piece>)
    requires (forall s :: s in segments ==> IsSegment(s.pieces)) && IsSegment(last)
    ensures Raw(PrintSegments(segments, last), "", PLAIN) == RawTexts(segments, last)
    decreases |segments|
  {
    hide Raw, IsSegment, PrintPieces, PrintCutter;
    if segments == [] {
      RawPieces(last, "", "");
      RawOfNothing(PrintPieces(last));
      assert PrintPieces(last) + "" == PrintPieces(last) == "" + PrintPieces(last);
    } else {
      assert segments[0] in segments;
      var text, cutter, rest := PrintPieces(segments[0].pieces), PrintCutter(segments[0].cutter), PrintSegments(segments[1..], last);
      assert text + cutter + rest == text + (cutter + rest);
      RawPieces(segments[0].pieces, cutter + rest, "");
      assert "" + text == text;
      RawAtCutter(segments[0].cutter, rest, text);
      RawSegments(segments[1..], last);
    }
  }

  lemma RawOfNothing(current: string)
    ensures Raw("", current, PLAIN) == [current]
  {
  }

  /** Round trip: whatever segments are written, with separators only inside quotes or behind a
      backslash, and joined by `|`, `;` or `&&`, splitting gives them back trimmed, without empty ones. */
  lemma SegmentsRoundTrip(segments: seq<Segment>, last: seq<Piece>)
    requires (forall s :: s in segments ==> IsSegment(s.pieces)) && IsSegment(last)
    ensures Segments(PrintSegments(segments, last)) == Trimmed(RawTexts(segments, last))
  {
    RawSegments(segments, last);
  }
}
