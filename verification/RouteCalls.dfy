/** `extractRouteCalls` of scripts/fitness/check-api-parity.ts: finds the calls
    `.route("path", chain)` in Rust source, balancing the parentheses of the chain. */
module RouteCalls {
  import opened Text
  import opened Framing

  datatype Call = Call(path: string, chain: string)

  function Prefix(): (p: string)
    ensures |p| == 7
  {
    ".route("
  }

  predicate IsGap(c: char) {
    IsSpace(c) || c == ','
  }

  // ----- the scans, each from an index to the index where it stops -----

  function SkipSpace(s: string, i: nat): (j: nat)
    ensures i <= j
    decreases |s| - i
  {
    if i < |s| && IsSpace(s[i]) then SkipSpace(s, i + 1) else i
  }

  function SkipGap(s: string, i: nat): (j: nat)
    ensures i <= j
    decreases |s| - i
  {
    if i < |s| && IsGap(s[i]) then SkipGap(s, i + 1) else i
  }

  function ClosingQuote(s: string, i: nat): (j: nat)
    ensures i <= j && (i <= |s| ==> j <= |s|)
    decreases |s| - i
  {
    if i < |s| && s[i] != '"' then ClosingQuote(s, i + 1) else i
  }

  function Deeper(depth: int, c: char): int {
    if c == '(' then depth + 1 else if c == ')' then depth - 1 else depth
  }

  /** The index of the parenthesis that brings `depth` to 0, or the end of the text. */
  function Balance(s: string, i: nat, depth: int): (j: nat)
    ensures i <= j
    decreases |s| - i
  {
    if i >= |s| || Deeper(depth, s[i]) <= 0 then i else Balance(s, i + 1, Deeper(depth, s[i]))
  }

  /** `content.slice(i, j)`. */
  function Slice(s: string, i: nat, j: nat): string {
    if i <= j <= |s| then s[i..j] else ""
  }

  // ----- one pass over the text -----

  datatype Reading = Malformed(next: nat) | Read(call: Call, next: nat)

  /** What the loop reads from `i`, right after a prefix. */
  function ReadCall(s: string, i: nat): (r: Reading)
    ensures r.next > i
  {
    var q := SkipSpace(s, i);
    if q >= |s| || s[q] != '"' then Malformed(q + 1)
    else
      var close := ClosingQuote(s, q + 1);
      var start := SkipGap(s, close + 1);
      var end := Balance(s, start, 1);
      Read(Call(s[q + 1..close], Slice(s, start, end)), end + 1)
  }

  function Extract(s: string, idx: nat): seq<Call>
    decreases |s| - idx
  {
    if idx >= |s| then []
    else
      var pos := IndexOf(s, Prefix(), idx);
      if pos == -1 then []
      else
        var r := ReadCall(s, pos + |Prefix()|);
        (if r.Read? then [r.call] else []) + Extract(s, r.next)
  }

  method ExtractRouteCalls(content: string) returns (results: seq<Call>)
    ensures results == Extract(content, 0)
  {
    hide Extract, ReadCall, IndexOf, Prefix;
    results := [];
    var idx := 0;
    while idx < |content|
      invariant results + Extract(content, idx) == Extract(content, 0)
      decreases |content| - idx
    {
      ExtractMore(content, idx, results);
      var pos := IndexOf(content, Prefix(), idx);
      if pos == -1 {
        return;
      }
      var reading := ReadArguments(content, pos + |Prefix()|);
      if reading.Read? {
        results := results + [reading.call];
      }
      idx := reading.next;
    }
    NothingBehind(content, idx);
  }

  lemma ExtractMore(s: string, idx: nat, results: seq<Call>)
    requires idx < |s|
    ensures var pos := IndexOf(s, Prefix(), idx);
            results + Extract(s, idx) ==
            if pos == -1 then results
            else
              var r := ReadCall(s, pos + |Prefix()|);
              (if r.Read? then results + [r.call] else results) + Extract(s, r.next)
  {
    hide Extract, ReadCall, IndexOf, Prefix;
    ExtractStep(s, idx);
    var pos := IndexOf(s, Prefix(), idx);
    if pos != -1 {
      var r := ReadCall(s, pos + |Prefix()|);
      var more := Extract(s, r.next);
      if r.Read? {
        assert results + ([r.call] + more) == results + [r.call] + more;
      } else {
        assert [] + more == more;
      }
    }
  }

  lemma NothingBehind(s: string, idx: nat)
    requires idx >= |s|
    ensures Extract(s, idx) == []
  {
  }

  lemma ExtractStep(s: string, idx: nat)
    requires idx < |s|
    ensures var pos := IndexOf(s, Prefix(), idx);
            Extract(s, idx) ==
            if pos == -1 then []
            else
              var r := ReadCall(s, pos + |Prefix()|);
              (if r.Read? then [r.call] else []) + Extract(s, r.next)
  {
  }

  /** The body of the loop, after the prefix. */
  method ReadArguments(content: string, from: nat) returns (reading: Reading)
    ensures reading == ReadCall(content, from)
  {
    hide IsSpace, SkipGap, Balance, ClosingQuote;
    var cursor := from;
    while cursor < |content| && IsSpace(content[cursor])
      invariant cursor >= from && SkipSpace(content, cursor) == SkipSpace(content, from)
    {
      cursor := cursor + 1;
    }
    if cursor >= |content| || content[cursor] != '"' {
      return Malformed(cursor + 1);
    }
    var subPath, closing := ReadPath(content, cursor + 1);
    cursor := closing + 1;
    var handlerStart, handlerEnd := ReadChain(content, cursor);
    reading := Read(Call(subPath, Slice(content, handlerStart, handlerEnd)), handlerEnd + 1);
  }

  /** Reads up to the closing quote. */
  method ReadPath(content: string, opening: nat) returns (subPath: string, cursor: nat)
    requires opening <= |content|
    ensures cursor == ClosingQuote(content, opening) && subPath == content[opening..cursor]
  {
    subPath, cursor := "", opening;
    while cursor < |content| && content[cursor] != '"'
      invariant opening <= cursor <= |content| && subPath == content[opening..cursor]
      invariant ClosingQuote(content, cursor) == ClosingQuote(content, opening)
    {
      subPath := subPath + [content[cursor]];
      cursor := cursor + 1;
    }
  }

  /** Skips commas and white space, then reads up to the parenthesis that closes the call. */
  method ReadChain(content: string, from: nat) returns (handlerStart: nat, cursor: nat)
    ensures handlerStart == SkipGap(content, from) && cursor == Balance(content, handlerStart, 1)
  {
    hide IsGap;
    cursor := from;
    while cursor < |content| && IsGap(content[cursor])
      invariant cursor >= from && SkipGap(content, cursor) == SkipGap(content, from)
    {
      cursor := cursor + 1;
    }
    handlerStart := cursor;
    var depth := 1;
    while cursor < |content| && depth > 0
      invariant cursor >= handlerStart && depth >= 0
      invariant Balance(content, handlerStart, 1) == if depth == 0 then cursor else Balance(content, cursor, depth)
      decreases |content| - cursor, depth
    {
      depth := Deeper(depth, content[cursor]);
      if depth > 0 {
        cursor := cursor + 1;
      }
    }
  }

  // ----- depth of a text -----

  /** Opening minus closing parentheses. */
  function Depth(s: string): int {
    if s == "" then 0 else Deeper(Depth(s[..|s| - 1]), s[|s| - 1])
  }

  /** No prefix closes more than it opened. */
  predicate StaysOpen(s: string) {
    forall k :: 0 <= k <= |s| ==> OpenAt(s, k)
  }

  predicate OpenAt(s: string, k: int)
    requires 0 <= k <= |s|
  {
    Depth(s[..k]) >= 0
  }

  predicate Balanced(s: string) {
    StaysOpen(s) && Depth(s) == 0
  }

  lemma DepthStep(s: string, i: nat, k: nat)
    requires i <= k < |s|
    ensures Depth(s[i..k + 1]) == Deeper(Depth(s[i..k]), s[k])
  {
    var t := s[i..k + 1];
    assert t[..|t| - 1] == s[i..k] && t[|t| - 1] == s[k];
  }

  // ----- reading back what was printed -----

  /** One call as it may stand in the text, with the text up to the next call. */
  datatype Item = Item(pad: string, call: Call, gap: string, after: string)

  predicate AllGap(s: string) {
    forall i :: 0 <= i < |s| ==> IsGap(s[i])
  }

  predicate Printable(item: Item) {
    && AllSpace(item.pad)
    && '"' !in item.call.path
    && AllGap(item.gap)
    && Balanced(item.call.chain)
    && (item.call.chain != "" ==> !IsGap(item.call.chain[0]))
    && !Occurs(item.after, Prefix())
  }

  function PrintCall(item: Item): string {
    Prefix() + item.pad + "\"" + item.call.path + "\"" + item.gap + item.call.chain + ")"
  }

  function Print(items: seq<Item>): string {
    if items == [] then "" else PrintCall(items[0]) + items[0].after + Print(items[1..])
  }

  function Calls(items: seq<Item>): seq<Call> {
    if items == [] then [] else [items[0].call] + Calls(items[1..])
  }

  lemma {:induction false} SkipSpaceStops(s: string, i: nat, j: nat)
    requires i <= j < |s| && AllSpace(s[i..j]) && !IsSpace(s[j])
    ensures SkipSpace(s, i) == j
    decreases j - i
  {
    if i < j {
      assert s[i] == s[i..j][0] && s[i + 1..j] == s[i..j][1..];
      SkipSpaceStops(s, i + 1, j);
    }
  }

  lemma {:induction false} SkipGapStops(s: string, i: nat, j: nat)
    requires i <= j < |s| && AllGap(s[i..j]) && !IsGap(s[j])
    ensures SkipGap(s, i) == j
    decreases j - i
  {
    if i < j {
      assert s[i] == s[i..j][0] && s[i + 1..j] == s[i..j][1..];
      SkipGapStops(s, i + 1, j);
    }
  }

  lemma {:induction false} ClosingQuoteStops(s: string, i: nat, j: nat)
    requires i <= j < |s| && '"' !in s[i..j] && s[j] == '"'
    ensures ClosingQuote(s, i) == j
    decreases j - i
  {
    if i < j {
      assert s[i] == s[i..j][0] && s[i + 1..j] == s[i..j][1..];
      ClosingQuoteStops(s, i + 1, j);
    }
  }

  lemma {:induction false} BalanceStops(s: string, i: nat, k: nat, j: nat)
    requires i <= k <= j < |s| && Balanced(s[i..j]) && s[j] == ')'
    ensures Balance(s, k, 1 + Depth(s[i..k])) == j
    decreases j - k
  {
    if k < j {
      DepthStep(s, i, k);
      assert OpenAt(s[i..j], k + 1 - i) && s[i..j][..k + 1 - i] == s[i..k + 1];
      BalanceStops(s, i, k + 1, j);
    }
  }

  /** Where the parts of a printed call stand in the text. */
  lemma Layout(before: string, prefix: string, pad: string, path: string, gap: string, chain: string, rest: string)
    ensures var s := before + (prefix + pad + "\"" + path + "\"" + gap + chain + ")") + rest;
            var a := |before| + |prefix|;
            var q := a + |pad|;
            var close := q + 1 + |path|;
            var start := close + 1 + |gap|;
            var end := start + |chain|;
            && s[a..q] == pad && s[q] == '"' && s[q + 1..close] == path && s[close] == '"'
            && s[close + 1..start] == gap && s[start..end] == chain && s[end] == ')'
            && |before + (prefix + pad + "\"" + path + "\"" + gap + chain + ")")| == end + 1
  {
  }

  /** A printed call is read back whole, wherever it stands. */
  lemma CallIsReadBack(before: string, item: Item, rest: string)
    requires Printable(item)
    ensures var s := before + PrintCall(item) + rest;
            ReadCall(s, |before| + |Prefix()|) == Read(item.call, |before + PrintCall(item)|)
  {
    hide Balanced, AllGap, AllSpace, IsSpace, Prefix;
    var Item(pad, Call(path, chain), gap, _) := item;
    Layout(before, Prefix(), pad, path, gap, chain, rest);
    LaidOutIsRead(before + PrintCall(item) + rest, |before| + |Prefix()|, pad, path, gap, chain);
  }

  lemma LaidOutIsRead(s: string, a: nat, pad: string, path: string, gap: string, chain: string)
    requires var q := a + |pad|;
             var close := q + 1 + |path|;
             var start := close + 1 + |gap|;
             var end := start + |chain|;
             && end < |s| && s[a..q] == pad && s[q] == '"' && s[q + 1..close] == path && s[close] == '"'
             && s[close + 1..start] == gap && s[start..end] == chain && s[end] == ')'
    requires AllSpace(pad) && '"' !in path && AllGap(gap) && Balanced(chain) && (chain != "" ==> !IsGap(chain[0]))
    ensures ReadCall(s, a) == Read(Call(path, chain), a + |pad| + 1 + |path| + 1 + |gap| + |chain| + 1)
  {
    hide Balanced, AllGap, AllSpace, IsSpace, Balance, SkipSpace, SkipGap, ClosingQuote, Depth;
    var q := a + |pad|;
    var close := q + 1 + |path|;
    var start := close + 1 + |gap|;
    var end := start + |chain|;
    NotSpace();
    EmptyIsFine();
    SkipSpaceStops(s, a, q);
    ClosingQuoteStops(s, q + 1, close);
    assert s[start] == (s[start..end] + [s[end]])[0];
    SkipGapStops(s, close + 1, start);
    assert s[start..start] == "";
    BalanceStops(s, start, start, end);
  }

  lemma NotSpace()
    ensures !IsSpace('"') && !IsSpace(')')
  {
  }

  /** No occurrence of `sep` starts in `s[from..to]`. */
  ghost predicate Free(s: string, sep: string, from: nat, to: nat) {
    forall j :: from <= j < to ==> !At(s, sep, j)
  }

  /** The first character of `prefix` does not come again in it. */
  predicate StartsOnce(prefix: string) {
    |prefix| > 0 && forall k :: 0 < k < |prefix| ==> prefix[k] != prefix[0]
  }

  /** A prefix that starts with its only dot cannot straddle the end of `gap`. */
  lemma NextPrefix(before: string, gap: string, prefix: string, rest: string)
    requires StartsOnce(prefix) && !Occurs(gap, prefix)
    requires |rest| == 0 || At(rest, prefix, 0)
    ensures IndexOf(before + gap + rest, prefix, |before|) == if |rest| == 0 then -1 else |before| + |gap|
  {
    hide IndexOf, At, Occurs, Free, StartsOnce;
    GapIsFree(before, gap, prefix, rest);
    AtEndOfGap(before, gap, prefix, rest);
    FirstFound(before + gap + rest, prefix, |before|, |before| + |gap|);
  }

  lemma FirstFound(s: string, sep: string, from: nat, n: nat)
    requires from <= n <= |s| && Free(s, sep, from, n) && (At(s, sep, n) || n == |s|)
    ensures IndexOf(s, sep, from) == if At(s, sep, n) then n else -1
  {
    IndexSpec(s, sep, from);
    var i := IndexOf(s, sep, from);
    assert i == -1 || n <= i;
  }

  lemma GapIsFree(before: string, gap: string, prefix: string, rest: string)
    requires StartsOnce(prefix) && !Occurs(gap, prefix)
    requires |rest| == 0 || At(rest, prefix, 0)
    ensures Free(before + gap + rest, prefix, |before|, |before| + |gap|)
  {
    hide At, Occurs;
    forall j | |before| <= j < |before| + |gap| ensures !At(before + gap + rest, prefix, j) {
      NotInGap(before, gap, prefix, rest, j);
    }
  }

  lemma NotInGap(before: string, gap: string, prefix: string, rest: string, j: nat)
    requires StartsOnce(prefix) && !Occurs(gap, prefix)
    requires |rest| == 0 || At(rest, prefix, 0)
    requires |before| <= j < |before| + |gap|
    ensures !At(before + gap + rest, prefix, j)
  {
    var s, n := before + gap + rest, |before| + |gap|;
    if |rest| > 0 {
      assert rest[0..0 + |prefix|] == prefix;
      assert s[n] == rest[0] == rest[0..0 + |prefix|][0];
    }
    if j + |prefix| <= n {
      assert !At(gap, prefix, j - |before|);
      assert gap[j - |before|..j - |before| + |prefix|] == s[j..j + |prefix|];
    } else if j + |prefix| <= |s| {
      assert prefix[n - j] != prefix[0];
      assert s[j..j + |prefix|][n - j] == s[n];
    }
  }

  lemma AtEndOfGap(before: string, gap: string, prefix: string, rest: string)
    requires StartsOnce(prefix) && (|rest| == 0 || At(rest, prefix, 0))
    ensures var s, n := before + gap + rest, |before| + |gap|;
            if |rest| > 0 then At(s, prefix, n) else n == |s| && !At(s, prefix, n)
  {
    var s, n := before + gap + rest, |before| + |gap|;
    if |rest| > 0 {
      assert s[n..n + |prefix|] == rest[0..|prefix|];
    }
  }

  /** Whatever calls are printed, with whatever other text between them, they are read back in order. */
  lemma {:induction false} RoundTripFrom(before: string, gap: string, items: seq<Item>)
    requires !Occurs(gap, Prefix()) && forall k :: 0 <= k < |items| ==> Printable(items[k])
    ensures Extract(before + gap + Print(items), |before|) == Calls(items)
    decreases |items|
  {
    hide Printable, PrintCall, IndexOf, ReadCall, Prefix, At, Occurs, StartsOnce;
    var rest := Print(items);
    var s := before + gap + rest;
    PrefixIsFine();
    if items == [] {
      NextPrefix(before, gap, Prefix(), "");
    } else {
      var item, tail := items[0], Print(items[1..]);
      var done, more := before + gap + PrintCall(item), item.after + tail;
      assert s == done + more == done + item.after + tail by {
        assert rest == PrintCall(item) + more;
      }
      StartsWithPrefix(item, more);
      NextPrefix(before, gap, Prefix(), rest);
      CallIsReadBack(before + gap, item, more);
      AfterIsFree(item);
      RoundTripFrom(done, item.after, items[1..]);
      assert Extract(s, |before|) == [item.call] + Extract(s, |done|);
    }
  }

  lemma PrefixIsFine()
    ensures StartsOnce(Prefix())
  {
  }

  lemma StartsWithPrefix(item: Item, more: string)
    ensures At(PrintCall(item) + more, Prefix(), 0) && |PrintCall(item)| > 0
  {
    assert (PrintCall(item) + more)[0..|Prefix()|] == Prefix();
  }

  lemma AfterIsFree(item: Item)
    requires Printable(item)
    ensures !Occurs(item.after, Prefix())
  {
  }

  /** The main result, for a whole text. */
  lemma RoundTrip(leading: string, items: seq<Item>)
    requires !Occurs(leading, Prefix()) && forall k :: 0 <= k < |items| ==> Printable(items[k])
    ensures Extract(leading + Print(items), 0) == Calls(items)
  {
    hide Printable, Occurs, Extract, Print, Calls, Prefix;
    assert "" + leading + Print(items) == leading + Print(items);
    RoundTripFrom("", leading, items);
  }

  // ----- what is returned on any text -----

  /** A call of this path and chain starts at `i`, right after the prefix, and is closed by `)` or cut
      off by the end of the text. */
  predicate Stands(s: string, i: nat, call: Call, pad: string, gap: string) {
    && AllSpace(pad) && '"' !in call.path && AllGap(gap)
    && StaysOpen(call.chain) && (call.chain != "" ==> !IsGap(call.chain[0]))
    && i <= |s|
    && var text := pad + "\"" + call.path;
       var whole := text + "\"" + gap + call.chain;
       (|| (s[i..] == text && gap == call.chain == "")
        || s[i..] == whole
        || (Balanced(call.chain) && At(s, whole + ")", i)))
  }

  ghost predicate StandsAt(s: string, i: nat, call: Call) {
    exists pad, gap :: Stands(s, i, call, pad, gap)
  }

  ghost predicate CallAt(s: string, pos: nat, call: Call) {
    At(s, Prefix(), pos) && StandsAt(s, pos + |Prefix()|, call)
  }

  /** Where the calls returned stand. */
  ghost function Starts(s: string, idx: nat): seq<nat>
    decreases |s| - idx
  {
    if idx >= |s| then []
    else
      var pos := IndexOf(s, Prefix(), idx);
      if pos == -1 then []
      else
        var r := ReadCall(s, pos + |Prefix()|);
        (if r.Read? then [pos as nat] else []) + Starts(s, r.next)
  }

  lemma {:induction false} SkipSpaceSpec(s: string, i: nat)
    requires i <= |s|
    ensures var j := SkipSpace(s, i); j <= |s| && AllSpace(s[i..j])
    decreases |s| - i
  {
    if i < |s| && IsSpace(s[i]) {
      SkipSpaceSpec(s, i + 1);
      assert s[i..SkipSpace(s, i)] == [s[i]] + s[i + 1..SkipSpace(s, i)];
    }
  }

  lemma {:induction false} SkipGapSpec(s: string, i: nat)
    requires i <= |s|
    ensures var j := SkipGap(s, i); j <= |s| && AllGap(s[i..j]) && (j < |s| ==> !IsGap(s[j]))
    decreases |s| - i
  {
    if i < |s| && IsGap(s[i]) {
      SkipGapSpec(s, i + 1);
      assert s[i..SkipGap(s, i)] == [s[i]] + s[i + 1..SkipGap(s, i)];
    }
  }

  lemma {:induction false} ClosingQuoteSpec(s: string, i: nat)
    requires i <= |s|
    ensures var j := ClosingQuote(s, i); j <= |s| && '"' !in s[i..j] && (j < |s| ==> s[j] == '"')
    decreases |s| - i
  {
    if i < |s| && s[i] != '"' {
      ClosingQuoteSpec(s, i + 1);
      assert s[i..ClosingQuote(s, i)] == [s[i]] + s[i + 1..ClosingQuote(s, i)];
    }
  }

  lemma StaysOpenStep(s: string, c: char)
    requires StaysOpen(s) && Depth(s + [c]) >= 0
    ensures StaysOpen(s + [c])
  {
    var t := s + [c];
    forall m | 0 <= m <= |t| ensures OpenAt(t, m) {
      if m <= |s| {
        assert OpenAt(s, m) && t[..m] == s[..m];
      } else {
        assert t[..m] == t;
      }
    }
  }

  lemma {:induction false} BalanceSpec(s: string, i: nat, k: nat)
    requires i <= k <= |s| && StaysOpen(s[i..k])
    ensures var j := Balance(s, k, 1 + Depth(s[i..k]));
            j <= |s| && StaysOpen(s[i..j]) && (j < |s| ==> s[j] == ')' && Depth(s[i..j]) == 0)
    decreases |s| - k
  {
    hide StaysOpen, Depth;
    var t := s[i..k];
    LastOpen(t);
    if k < |s| {
      DepthStep(s, i, k);
      if Deeper(1 + Depth(t), s[k]) > 0 {
        assert s[i..k + 1] == t + [s[k]];
        StaysOpenStep(t, s[k]);
        BalanceSpec(s, i, k + 1);
      }
    }
  }

  lemma LastOpen(s: string)
    requires StaysOpen(s)
    ensures Depth(s) >= 0
  {
    assert OpenAt(s, |s|) && s[..|s|] == s;
  }

  lemma ReadCallSound(s: string, i: nat)
    requires i <= |s| && ReadCall(s, i).Read?
    ensures StandsAt(s, i, ReadCall(s, i).call)
  {
    hide SkipSpace, ClosingQuote, StandsAt;
    var q := SkipSpace(s, i);
    SkipSpaceSpec(s, i);
    ClosingQuoteSpec(s, q + 1);
    var close := ClosingQuote(s, q + 1);
    if close == |s| {
      CutOff(s, i, q);
    } else {
      Whole(s, i, q, close);
    }
  }

  lemma CutOff(s: string, i: nat, q: nat)
    requires i <= q < |s| && AllSpace(s[i..q]) && s[q] == '"' && '"' !in s[q + 1..]
    ensures StandsAt(s, i, Call(s[q + 1..|s|], ""))
  {
    hide StaysOpen, AllGap, AllSpace, Depth;
    EmptyIsFine();
    Cuts(s, i, q, |s|);
    assert s[q + 1..] == s[q + 1..|s|];
    assert Stands(s, i, Call(s[q + 1..|s|], ""), s[i..q], "");
  }

  lemma Whole(s: string, i: nat, q: nat, close: nat)
    requires i <= q < close < |s| && AllSpace(s[i..q]) && s[q] == '"' && '"' !in s[q + 1..close] && s[close] == '"'
    ensures var start := SkipGap(s, close + 1);
            var end := Balance(s, start, 1);
            StandsAt(s, i, Call(s[q + 1..close], Slice(s, start, end)))
  {
    hide StaysOpen, AllGap, AllSpace, IsGap, Depth, SkipGap, Balance, StandsAt;
    SkipGapSpec(s, close + 1);
    var start := SkipGap(s, close + 1);
    EmptyIsFine();
    assert s[start..start] == "";
    BalanceSpec(s, start, start);
    AllRead(s, i, q, close, start, Balance(s, start, 1));
  }

  lemma AllRead(s: string, i: nat, q: nat, close: nat, start: nat, end: nat)
    requires i <= q < close < start <= end <= |s|
    requires AllSpace(s[i..q]) && s[q] == '"' && '"' !in s[q + 1..close] && s[close] == '"'
    requires AllGap(s[close + 1..start]) && (start < |s| ==> !IsGap(s[start]))
    requires StaysOpen(s[start..end]) && (end < |s| ==> s[end] == ')' && Depth(s[start..end]) == 0)
    ensures StandsAt(s, i, Call(s[q + 1..close], s[start..end]))
  {
    hide StaysOpen, AllGap, AllSpace, IsGap, Depth, At;
    var chain := s[start..end];
    assert chain != "" ==> chain[0] == s[start];
    MoreCuts(s, i, q, close, start, end);
    assert Stands(s, i, Call(s[q + 1..close], chain), s[i..q], s[close + 1..start]);
  }

  lemma Cuts(s: string, i: nat, q: nat, close: nat)
    requires i <= q < close <= |s| && s[q] == '"'
    ensures s[i..close] == s[i..q] + "\"" + s[q + 1..close]
    ensures close == |s| ==> s[i..] == s[i..close]
  {
  }

  lemma MoreCuts(s: string, i: nat, q: nat, close: nat, start: nat, end: nat)
    requires i <= q < close < start <= end <= |s| && s[q] == s[close] == '"'
    ensures var whole := s[i..q] + "\"" + s[q + 1..close] + "\"" + s[close + 1..start] + s[start..end];
            && (end == |s| ==> s[i..] == whole)
            && (end < |s| && s[end] == ')' ==> At(s, whole + ")", i))
  {
    Cuts(s, i, q, close);
    assert s[i..start] == s[i..close] + "\"" + s[close + 1..start];
    assert s[i..end] == s[i..start] + s[start..end];
    if end < |s| {
      assert s[i..end + 1] == s[i..end] + [s[end]];
    } else {
      assert s[i..] == s[i..end];
    }
  }

  lemma EmptyIsFine()
    ensures StaysOpen("") && AllGap("") && AllSpace("") && Depth("") == 0
  {
  }

  /** On every text, each call returned stands where it was found, and the calls come in order. */
  lemma {:induction false} ExtractIsSound(s: string, idx: nat)
    ensures var (starts, calls) := (Starts(s, idx), Extract(s, idx));
            Stand(s, idx, starts, calls)
    decreases |s| - idx
  {
    hide CallAt, ReadCall, IndexOf, Prefix, Stand;
    if idx < |s| && IndexOf(s, Prefix(), idx) != -1 {
      ExtractIsSound(s, ReadCall(s, IndexOf(s, Prefix(), idx) + |Prefix()|).next);
      OneMoreStands(s, idx);
    } else {
      NoneStand(s, idx);
    }
  }

  lemma NoneStand(s: string, idx: nat)
    ensures Stand(s, idx, [], [])
  {
  }

  lemma OneMoreStands(s: string, idx: nat)
    requires idx < |s| && IndexOf(s, Prefix(), idx) != -1
    requires var next := ReadCall(s, IndexOf(s, Prefix(), idx) + |Prefix()|).next;
             Stand(s, next, Starts(s, next), Extract(s, next))
    ensures Stand(s, idx, Starts(s, idx), Extract(s, idx))
  {
    hide CallAt, ReadCall, IndexOf, Extract, Starts, Prefix, Stand, At;
    var pos := IndexOf(s, Prefix(), idx);
    var r := ReadCall(s, pos + |Prefix()|);
    var starts, calls := Starts(s, r.next), Extract(s, r.next);
    ExtractStep(s, idx);
    StartsStep(s, idx);
    if r.Read? {
      assert CallAt(s, pos, r.call) by {
        IndexSpec(s, Prefix(), idx);
        CallAtPrefix(s, pos);
      }
      Earlier(s, idx, pos, r.call, r.next, starts, calls);
    } else {
      assert [] + starts == starts && [] + calls == calls;
      From(s, idx, r.next, starts, calls);
    }
  }

  lemma From(s: string, idx: nat, next: nat, starts: seq<nat>, calls: seq<Call>)
    requires Stand(s, next, starts, calls) && idx <= next
    ensures Stand(s, idx, starts, calls)
  {
  }

  /** The calls stand at `starts`, in order, from `idx` on. */
  ghost predicate Stand(s: string, idx: nat, starts: seq<nat>, calls: seq<Call>) {
    && |starts| == |calls|
    && (forall k :: 0 <= k < |starts| ==> idx <= starts[k])
    && (forall j, k :: 0 <= j < k < |starts| ==> starts[j] < starts[k])
    && (forall k :: 0 <= k < |starts| ==> CallAt(s, starts[k], calls[k]))
  }

  lemma Earlier(s: string, idx: nat, pos: nat, call: Call, next: nat, starts: seq<nat>, calls: seq<Call>)
    requires Stand(s, next, starts, calls) && idx <= pos < next && CallAt(s, pos, call)
    ensures Stand(s, idx, [pos] + starts, [call] + calls)
  {
  }

  lemma CallAtPrefix(s: string, pos: nat)
    requires At(s, Prefix(), pos) && ReadCall(s, pos + |Prefix()|).Read?
    ensures CallAt(s, pos, ReadCall(s, pos + |Prefix()|).call)
  {
    hide ReadCall, StandsAt;
    ReadCallSound(s, pos + |Prefix()|);
  }

  lemma StartsStep(s: string, idx: nat)
    requires idx < |s|
    ensures var pos := IndexOf(s, Prefix(), idx);
            Starts(s, idx) ==
            if pos == -1 then []
            else
              var r := ReadCall(s, pos + |Prefix()|);
              (if r.Read? then [pos as nat] else []) + Starts(s, r.next)
  {
  }

  // ----- which calls are returned -----

  /** A prefix, white space and an opening quote. */
  ghost predicate Opens(s: string, p: nat) {
    At(s, Prefix(), p) && exists q :: p + |Prefix()| <= q < |s| && AllSpace(s[p + |Prefix()|..q]) && s[q] == '"'
  }

  /** Where the reading of the prefix at `p` ends. */
  function ReadingEnd(s: string, p: nat): (end: nat)
    ensures end > p
  {
    ReadCall(s, p + |Prefix()|).next
  }

  /** The prefixes from which the loop reads, malformed ones included. */
  ghost function Found(s: string, idx: nat): seq<nat>
    decreases |s| - idx
  {
    if idx >= |s| then []
    else
      var pos := IndexOf(s, Prefix(), idx);
      if pos == -1 then [] else [pos as nat] + Found(s, ReadingEnd(s, pos))
  }

  /** `p` lies inside the reading of an earlier prefix. */
  ghost predicate Swallowed(s: string, found: seq<nat>, p: nat) {
    exists f :: f in found && f < p < ReadingEnd(s, f)
  }

  lemma {:induction false} FoundAfter(s: string, idx: nat)
    ensures forall f :: f in Found(s, idx) ==> idx <= f
    decreases |s| - idx
  {
    hide ReadingEnd, Prefix;
    var pos := IndexOf(s, Prefix(), idx);
    if idx < |s| && pos != -1 {
      FoundAfter(s, ReadingEnd(s, pos));
    }
  }

  lemma {:induction false} FoundIff(s: string, idx: nat, p: nat)
    ensures p in Found(s, idx) <==> idx <= p && At(s, Prefix(), p) && !Swallowed(s, Found(s, idx), p)
    decreases |s| - idx
  {
    hide ReadingEnd, Prefix, At, IndexOf;
    FoundAfter(s, idx);
    var pos := IndexOf(s, Prefix(), idx);
    IndexSpec(s, Prefix(), idx);
    if idx < |s| && pos != -1 {
      var end := ReadingEnd(s, pos);
      var rest := Found(s, end);
      FoundAfter(s, end);
      FoundIff(s, end, p);
      assert Found(s, idx) == [pos as nat] + rest;
      assert Swallowed(s, Found(s, idx), p) <==> pos < p < end || Swallowed(s, rest, p);
    } else {
      NoneFound(s, idx, p);
    }
  }

  lemma NoneFound(s: string, idx: nat, p: nat)
    requires idx >= |s| || IndexOf(s, Prefix(), idx) == -1
    ensures Found(s, idx) == [] && (idx <= p ==> !At(s, Prefix(), p))
  {
    IndexSpec(s, Prefix(), idx);
  }

  lemma {:induction false} StartsAreFound(s: string, idx: nat, p: nat)
    ensures p in Starts(s, idx) <==> p in Found(s, idx) && ReadCall(s, p + |Prefix()|).Read?
    decreases |s| - idx
  {
    hide ReadCall, Prefix, IndexOf;
    var pos := IndexOf(s, Prefix(), idx);
    if idx < |s| && pos != -1 {
      StartsStep(s, idx);
      StartsAreFound(s, ReadingEnd(s, pos), p);
      FoundAfter(s, ReadingEnd(s, pos));
    }
  }

  lemma OpensIff(s: string, p: nat)
    requires At(s, Prefix(), p)
    ensures ReadCall(s, p + |Prefix()|).Read? <==> Opens(s, p)
  {
    hide AllSpace, IsSpace, Prefix, At;
    var i := p + |Prefix()|;
    assert i <= |s| by { AtFits(s, Prefix(), p); }
    SkipSpaceSpec(s, i);
    NotSpace();
    if Opens(s, p) {
      var q :| i <= q < |s| && AllSpace(s[i..q]) && s[q] == '"';
      SkipSpaceStops(s, i, q);
    }
  }

  lemma AtFits(s: string, sep: string, p: nat)
    requires At(s, sep, p)
    ensures p + |sep| <= |s|
  {
  }

  /** On every text a call is returned for exactly those prefixes that white space and a quote follow
      and that do not lie inside the reading of an earlier prefix. */
  lemma ReturnedIff(s: string, p: nat)
    ensures p in Starts(s, 0) <==> Opens(s, p) && !Swallowed(s, Found(s, 0), p)
  {
    hide ReadCall, Prefix, At, Found, Starts, Swallowed;
    FoundIff(s, 0, p);
    StartsAreFound(s, 0, p);
    if At(s, Prefix(), p) {
      OpensIff(s, p);
    }
  }

  /** A prefix right behind another one is swallowed: the reading of the first ends behind its dot. */
  lemma NestedCallIsMissed()
    ensures var s := ".route(.route(\"p\", h))";
            Opens(s, 7) && Found(s, 0) == [0] && Extract(s, 0) == []
  {
    var s := ".route(.route(\"p\", h))";
    assert At(s, Prefix(), 0) && At(s, Prefix(), 7) by {
      assert s[0..7] == ".route(" == s[7..14];
    }
    assert s[14..14] == "" && s[14] == '"';
    assert AllSpace(s[14..14]);
    IndexIsFirst(s, Prefix(), 0);
    assert SkipSpace(s, 7) == 7 && ReadCall(s, 7) == Malformed(8);
    NoMorePrefix(s);
    assert Found(s, 8) == [] && Extract(s, 8) == [];
  }

  lemma NoMorePrefix(s: string)
    requires s == ".route(.route(\"p\", h))"
    ensures IndexOf(s, Prefix(), 8) == -1
  {
    IndexSpec(s, Prefix(), 8);
    forall j | 8 <= j ensures !At(s, Prefix(), j) {
      if j + 7 <= |s| {
        assert s[j..j + 7][0] == s[j] != '.';
      }
    }
  }
}
