/** The brace matcher the bridge falls back on when a line is not JSON as a whole
    (`_tryExtractJson` in docker/opencode-bridge/server.js). */
module BraceScan {

  /** The slice of a line from index `from` up to, not including, index `to`. */
  datatype Span = Span(from: int, to: int)

  function Delta(c: char): int {
    if c == '{' then 1 else if c == '}' then -1 else 0
  }

  /** Opening minus closing braces among the first `k` characters. */
  function Depth(s: string, k: nat): int
    requires k <= |s|
  {
    if k == 0 then 0 else Depth(s, k - 1) + Delta(s[k - 1])
  }

  /** A text that opens with a brace which its last character, and no earlier one, closes. */
  predicate IsGroup(t: string) {
    && t != "" && t[0] == '{'
    && Depth(t, |t|) == 0
    && forall k :: 0 < k < |t| ==> Depth(t, k) >= 1
  }

  /** A group that starts where as many braces have been closed as opened before it. */
  predicate IsTopGroup(line: string, span: Span) {
    && 0 <= span.from < span.to <= |line|
    && IsGroup(line[span.from..span.to])
    && Depth(line, span.from) == 0
  }

  /** The loop of `_tryExtractJson` from index `i` on. */
  function ScanFrom(line: string, i: nat, depth: int, start: int): seq<Span>
    requires i <= |line|
    decreases |line| - i
  {
    if i == |line| then []
    else if line[i] == '{' then ScanFrom(line, i + 1, depth + 1, if depth == 0 then i else start)
    else if line[i] == '}' then
      if depth - 1 == 0 && start >= 0 then [Span(start, i + 1)] + ScanFrom(line, i + 1, depth - 1, -1)
      else ScanFrom(line, i + 1, depth - 1, start)
    else ScanFrom(line, i + 1, depth, start)
  }

  function Extract(line: string): seq<Span> {
    ScanFrom(line, 0, 0, -1)
  }

  /** What the two variables mean before index `i`; `start` is set exactly inside a group. */
  ghost predicate ScanState(line: string, i: nat, depth: int, start: int) {
    && i <= |line|
    && depth == Depth(line, i)
    && (start >= 0 <==> depth >= 1)
    && (start < 0 ==> start == -1)
    && (start >= 0 ==> start < i && line[start] == '{' && Depth(line, start) == 0)
    && (start >= 0 ==> forall k :: start < k <= i ==> Depth(line, k) >= 1)
  }

  /** `depth` and `start` after the first `i` characters. */
  function Variables(line: string, i: nat): (int, int)
    requires i <= |line|
  {
    if i == 0 then (0, -1)
    else
      var (depth, start) := Variables(line, i - 1);
      if line[i - 1] == '{' then (depth + 1, if depth == 0 then i - 1 else start)
      else if line[i - 1] == '}' then (depth - 1, if depth - 1 == 0 && start >= 0 then -1 else start)
      else (depth, start)
  }

  /** On every line and at every index: `start` is set exactly while the depth is at least 1, and is
      then the index of the brace that opened the current top group. */
  lemma {:induction false} StartSetInsideGroup(line: string, i: nat)
    requires i <= |line|
    ensures ScanState(line, i, Variables(line, i).0, Variables(line, i).1)
    decreases i
  {
    if i > 0 {
      StartSetInsideGroup(line, i - 1);
    }
  }

  /** `_tryExtractJson`, collecting the slices it would parse. */
  method TryExtract(line: string) returns (spans: seq<Span>)
    ensures spans == Extract(line)
  {
    spans := [];
    var depth, start := 0, -1;
    var i := 0;
    while i < |line|
      invariant i <= |line| && (depth, start) == Variables(line, i)
      invariant Extract(line) == spans + ScanFrom(line, i, depth, start)
    {
      if line[i] == '{' {
        if depth == 0 {
          start := i;
        }
        depth := depth + 1;
      } else if line[i] == '}' {
        depth := depth - 1;
        if depth == 0 && start >= 0 {
          spans := spans + [Span(start, i + 1)];
          start := -1;
        }
      }
      i := i + 1;
    }
  }

  lemma {:induction false} SliceDepth(s: string, from: nat, to: nat, k: nat)
    requires from <= to <= |s| && k <= to - from
    ensures Depth(s[from..to], k) == Depth(s, from + k) - Depth(s, from)
    decreases k
  {
    if k > 0 {
      SliceDepth(s, from, to, k - 1);
    }
  }

  /** A top group read off the depths of the line. */
  ghost predicate Excursion(line: string, from: int, to: int) {
    && 0 <= from < to <= |line| && line[from] == '{'
    && Depth(line, from) == 0 && Depth(line, to) == 0
    && forall k :: from < k < to ==> Depth(line, k) >= 1
  }

  lemma TopGroupIsExcursion(line: string, span: Span)
    ensures IsTopGroup(line, span) <==> Excursion(line, span.from, span.to)
  {
    if 0 <= span.from < span.to <= |line| && Depth(line, span.from) == 0 {
      var t := line[span.from..span.to];
      forall k | 0 <= k <= |t| ensures Depth(t, k) == Depth(line, span.from + k) {
        SliceDepth(line, span.from, span.to, k);
      }
      if Excursion(line, span.from, span.to) {
        assert IsGroup(t);
      }
      if IsGroup(t) {
        forall k | span.from < k < span.to ensures Depth(line, k) >= 1 {
          assert Depth(t, k - span.from) == Depth(line, k);
        }
      }
    }
  }

  ghost predicate InOrder(spans: seq<Span>, from: int) {
    && (forall k :: 0 <= k < |spans| ==> from <= spans[k].from < spans[k].to)
    && (forall j, k :: 0 <= j < k < |spans| ==> spans[j].to <= spans[k].from)
  }

  /** From index `i` on the scan finds exactly the excursions that end after `i`, in order. */
  lemma {:induction false} ScanFindsExcursions(line: string, i: nat, depth: int, start: int)
    requires ScanState(line, i, depth, start)
    ensures forall sp :: sp in ScanFrom(line, i, depth, start) <==> Excursion(line, sp.from, sp.to) && sp.to > i
    ensures InOrder(ScanFrom(line, i, depth, start), if start >= 0 then start else i)
    decreases |line| - i
  {
    if i < |line| {
      var d := depth + Delta(line[i]);
      var begun := if line[i] == '{' && depth == 0 then i else start;
      var closes := line[i] == '}' && d == 0 && begun >= 0;
      var next := if closes then -1 else begun;
      ScanFindsExcursions(line, i + 1, d, next);
      var rest := ScanFrom(line, i + 1, d, next);
      if closes {
        assert ScanFrom(line, i, depth, start) == [Span(start, i + 1)] + rest;
      } else {
        assert ScanFrom(line, i, depth, start) == rest;
      }
      forall sp: Span ensures Excursion(line, sp.from, sp.to) && sp.to == i + 1 <==> closes && sp == Span(start, i + 1) {
        if Excursion(line, sp.from, sp.to) && sp.to == i + 1 {
          assert Depth(line, i + 1) == 0;
          assert sp.from < i ==> Depth(line, i) >= 1;
        }
      }
    }
  }

  /** On every line, the slices handed to the JSON parser are exactly the top groups, in order and
      disjoint. A group preceded by a stray closing brace does not start at depth 0 and is missed. */
  lemma ExtractsTopGroups(line: string)
    ensures forall sp :: sp in Extract(line) <==> IsTopGroup(line, sp)
    ensures InOrder(Extract(line), 0)
  {
    ScanFindsExcursions(line, 0, 0, -1);
    forall sp: Span ensures sp in Extract(line) <==> IsTopGroup(line, sp) {
      TopGroupIsExcursion(line, sp);
    }
  }

  lemma {:induction false} LastZero(line: string, p: nat) returns (from: nat)
    requires p <= |line| && forall k :: 0 <= k <= |line| ==> Depth(line, k) >= 0
    ensures from <= p && Depth(line, from) == 0 && forall k :: from < k <= p ==> Depth(line, k) >= 1
    decreases p
  {
    if Depth(line, p) == 0 {
      from := p;
    } else {
      assert p > 0 by { assert Depth(line, 0) == 0; }
      from := LastZero(line, p - 1);
    }
  }

  lemma {:induction false} NextZero(line: string, p: nat) returns (to: nat)
    requires p <= |line| && Depth(line, |line|) == 0 && forall k :: 0 <= k <= |line| ==> Depth(line, k) >= 0
    ensures p <= to <= |line| && Depth(line, to) == 0 && forall k :: p <= k < to ==> Depth(line, k) >= 1
    decreases |line| - p
  {
    if Depth(line, p) == 0 {
      to := p;
    } else {
      to := NextZero(line, p + 1);
    }
  }

  /** On a balanced line whose depth never goes negative nothing is left behind: every brace lies
      in an extracted slice. */
  lemma BalancedLineIsCovered(line: string, p: nat)
    requires forall k :: 0 <= k <= |line| ==> Depth(line, k) >= 0
    requires Depth(line, |line|) == 0
    requires p < |line| && Delta(line[p]) != 0
    ensures exists sp :: sp in Extract(line) && sp.from <= p < sp.to
  {
    var from := LastZero(line, p);
    var to := NextZero(line, p + 1);
    assert Depth(line, p + 1) == Depth(line, p) + Delta(line[p]);
    assert Depth(line, from + 1) == Delta(line[from]);
    assert Excursion(line, from, to);
    TopGroupIsExcursion(line, Span(from, to));
    ExtractsTopGroups(line);
    assert Span(from, to) in Extract(line);
  }

  /** One stray `}` is enough: the complete object after it is never parsed. */
  lemma StrayBraceHidesObject()
    ensures IsGroup("}{}"[1..3]) && Extract("}{}") == []
  {
    var t := "}{}"[1..3];
    assert t == "{}";
    assert Depth(t, 1) == 1 && Depth(t, 2) == 0;
    assert ScanFrom("}{}", 3, -1, -1) == [];
    assert ScanFrom("}{}", 2, 0, -1) == [];
    assert ScanFrom("}{}", 1, -1, -1) == [];
  }

  // ----- an object inside other text -----

  predicate BraceFree(s: string) {
    forall k :: 0 <= k < |s| ==> s[k] != '{' && s[k] != '}'
  }

  lemma {:induction false} FreeDepth(s: string, from: nat, k: nat)
    requires from <= k <= |s| && BraceFree(s[from..k])
    ensures Depth(s, k) == Depth(s, from)
    decreases k
  {
    if from < k {
      assert s[k - 1] == s[from..k][k - 1 - from];
      assert s[from..k - 1] == s[from..k][..k - 1 - from];
      FreeDepth(s, from, k - 1);
    }
  }

  /** A group with text without braces on both sides is the one slice extracted. */
  lemma ExtractsTheObject(a: string, obj: string, b: string)
    requires BraceFree(a) && IsGroup(obj) && BraceFree(b)
    ensures Extract(a + obj + b) == [Span(|a|, |a| + |obj|)]
  {
    var line, span := a + obj + b, Span(|a|, |a| + |obj|);
    var spans := Extract(line);
    assert line[|a|..|a| + |obj|] == obj && line[0..|a|] == a && line[|a| + |obj|..|line|] == b;
    ExtractsTopGroups(line);
    FreeDepth(line, 0, |a|);
    assert span in spans;
    forall sp | sp in spans ensures sp == span {
      OnlyGroup(a, obj, b, sp);
    }
    OneSpan(spans, span);
  }

  lemma OneSpan(spans: seq<Span>, span: Span)
    requires InOrder(spans, 0) && span in spans && forall sp :: sp in spans ==> sp == span
    ensures spans == [span]
  {
    SpansDiffer(spans);
    forall k | 0 <= k < |spans| ensures spans[k] == span {
      assert spans[k] in spans;
    }
  }

  lemma SpansDiffer(spans: seq<Span>)
    requires InOrder(spans, 0)
    ensures |spans| > 1 ==> spans[0] != spans[1]
  {
  }

  lemma BraceInside(a: string, obj: string, b: string, i: nat)
    requires BraceFree(a) && BraceFree(b) && i < |a + obj + b| && (a + obj + b)[i] == '{'
    ensures |a| <= i < |a| + |obj|
  {
  }

  lemma OnlyGroup(a: string, obj: string, b: string, sp: Span)
    requires BraceFree(a) && IsGroup(obj) && BraceFree(b) && IsTopGroup(a + obj + b, sp)
    ensures sp == Span(|a|, |a| + |obj|)
  {
    var line, end := a + obj + b, |a| + |obj|;
    var group := line[sp.from..sp.to];
    assert line[|a|..end] == obj && line[0..|a|] == a && line[end..|line|] == b;
    assert line[sp.from] == group[0] == '{';
    BraceInside(a, obj, b, sp.from);
    FreeDepth(line, 0, |a|);
    SliceDepth(line, |a|, end, sp.from - |a|);
    assert sp.from == |a|;
    if sp.to > end {
      SliceDepth(line, |a|, sp.to, end - |a|);
      SliceDepth(line, |a|, end, end - |a|);
    } else if sp.to < end {
      SliceDepth(line, |a|, end, sp.to - |a|);
      SliceDepth(line, |a|, sp.to, sp.to - |a|);
    }
  }
}
