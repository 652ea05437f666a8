/** `String.prototype.split` with a fixed separator, and what both stream readers of the
    repository rely on: cutting the text into chunks does not change the pieces. */
module Framing {

  /** `sep` occurs in `s` at index `i`. */
  predicate At(s: string, sep: string, i: int) {
    0 <= i && i + |sep| <= |s| && s[i..i + |sep|] == sep
  }

  predicate Occurs(s: string, sep: string) {
    exists i :: 0 <= i <= |s| && At(s, sep, i)
  }

  /** `s.indexOf(sep, from)`. */
  function IndexOf(s: string, sep: string, from: nat): (i: int)
    ensures i == -1 || (from <= i && i + |sep| <= |s|)
    decreases |s| - from
  {
    if from + |sep| > |s| then -1
    else if s[from..from + |sep|] == sep then from
    else if from == |s| then -1
    else IndexOf(s, sep, from + 1)
  }

  /** The index returned is the first occurrence, and -1 means there is none. */
  lemma {:induction false} IndexSpec(s: string, sep: string, from: nat)
    ensures var i := IndexOf(s, sep, from);
            && (i != -1 ==> At(s, sep, i))
            && (forall j :: from <= j && (i == -1 || j < i) ==> !At(s, sep, j))
    decreases |s| - from
  {
    if from + |sep| <= |s| && s[from..from + |sep|] != sep && from != |s| {
      IndexSpec(s, sep, from + 1);
    }
  }

  function SplitOn(s: string, sep: string): (pieces: seq<string>)
    requires sep != ""
    ensures pieces != []
    decreases |s|
  {
    var i := IndexOf(s, sep, 0);
    if i < 0 then [s] else [s[..i]] + SplitOn(s[i + |sep|..], sep)
  }

  function Join(pieces: seq<string>, sep: string): string
    requires pieces != []
  {
    if |pieces| == 1 then pieces[0] else pieces[0] + sep + Join(pieces[1..], sep)
  }

  function Flatten(chunks: seq<string>): string {
    if chunks == [] then "" else chunks[0] + Flatten(chunks[1..])
  }

  lemma {:induction false} FlattenConcat(a: seq<string>, b: seq<string>)
    ensures Flatten(a + b) == Flatten(a) + Flatten(b)
    decreases |a|
  {
    if a == [] {
      assert a + b == b;
    } else {
      assert (a + b)[1..] == a[1..] + b;
      FlattenConcat(a[1..], b);
    }
  }

  lemma FlattenOne(s: string)
    ensures Flatten([s]) == s
  {
    assert Flatten([s]) == s + Flatten([]);
  }

  lemma IndexIsFirst(s: string, sep: string, i: int)
    requires At(s, sep, i)
    requires forall j :: 0 <= j < i ==> !At(s, sep, j)
    ensures IndexOf(s, sep, 0) == i
  {
    IndexSpec(s, sep, 0);
  }

  /** The pieces rebuild the text. */
  lemma {:induction false} SplitJoin(s: string, sep: string)
    requires sep != ""
    ensures Join(SplitOn(s, sep), sep) == s
    decreases |s|
  {
    var i := IndexOf(s, sep, 0);
    if i >= 0 {
      var rest := s[i + |sep|..];
      SplitJoin(rest, sep);
      assert SplitOn(s, sep)[1..] == SplitOn(rest, sep);
      IndexSpec(s, sep, 0);
      assert s == s[..i] + sep + rest;
    }
  }

  /** No piece holds a separator. */
  lemma {:induction false} SplitIsFine(s: string, sep: string)
    requires sep != ""
    ensures forall k :: 0 <= k < |SplitOn(s, sep)| ==> !Occurs(SplitOn(s, sep)[k], sep)
    decreases |s|
  {
    hide Occurs, IndexOf, At;
    var i := IndexOf(s, sep, 0);
    IndexSpec(s, sep, 0);
    if i >= 0 {
      var rest := s[i + |sep|..];
      SplitIsFine(rest, sep);
      PrefixHasNone(s, sep, i);
      assert SplitOn(s, sep) == [s[..i]] + SplitOn(rest, sep);
    } else {
      PrefixHasNone(s, sep, |s|);
      assert s[..|s|] == s && SplitOn(s, sep) == [s];
    }
  }

  lemma PrefixHasNone(s: string, sep: string, i: nat)
    requires i <= |s| && forall j :: 0 <= j < i ==> !At(s, sep, j)
    ensures sep != "" ==> !Occurs(s[..i], sep)
  {
    if sep != "" {
      forall j | At(s[..i], sep, j) ensures false {
        assert s[..i][j..j + |sep|] == s[j..j + |sep|];
        assert At(s, sep, j);
      }
    }
  }

  /** A separator found in `a` is the first one of `a + b` too. */
  lemma IndexInPrefix(a: string, b: string, sep: string)
    requires sep != "" && IndexOf(a, sep, 0) >= 0
    ensures IndexOf(a + b, sep, 0) == IndexOf(a, sep, 0)
  {
    var i := IndexOf(a, sep, 0);
    IndexSpec(a, sep, 0);
    assert (a + b)[i..i + |sep|] == a[i..i + |sep|];
    forall j | 0 <= j < i ensures !At(a + b, sep, j) {
      assert !At(a, sep, j);
      assert (a + b)[j..j + |sep|] == a[j..j + |sep|];
    }
    IndexIsFirst(a + b, sep, i);
  }

  /** `lines.pop()` takes the last piece off; the others are complete. */
  function Complete(pieces: seq<string>): seq<string>
    requires pieces != []
  {
    pieces[..|pieces| - 1]
  }

  function Kept(pieces: seq<string>): string
    requires pieces != []
  {
    pieces[|pieces| - 1]
  }

  lemma PrependPiece(first: string, pieces: seq<string>)
    requires pieces != []
    ensures Complete([first] + pieces) == [first] + Complete(pieces)
    ensures Kept([first] + pieces) == Kept(pieces)
  {
  }

  /** Splitting `a + b` is splitting `a`, keeping its last piece back and putting `b` after it. */
  lemma {:induction false} SplitInTwo(a: string, b: string, sep: string)
    requires sep != ""
    ensures SplitOn(a + b, sep) == Complete(SplitOn(a, sep)) + SplitOn(Kept(SplitOn(a, sep)) + b, sep)
    decreases |a|
  {
    hide IndexOf;
    var i := IndexOf(a, sep, 0);
    if i < 0 {
      assert Complete([a]) == [];
    } else {
      var rest := a[i + |sep|..];
      IndexInPrefix(a, b, sep);
      assert (a + b)[i + |sep|..] == rest + b;
      assert (a + b)[..i] == a[..i];
      calc {
        SplitOn(a + b, sep);
        [a[..i]] + SplitOn(rest + b, sep);
        { SplitInTwo(rest, b, sep); }
        [a[..i]] + (Complete(SplitOn(rest, sep)) + SplitOn(Kept(SplitOn(rest, sep)) + b, sep));
        ([a[..i]] + Complete(SplitOn(rest, sep))) + SplitOn(Kept(SplitOn(rest, sep)) + b, sep);
        { PrependPiece(a[..i], SplitOn(rest, sep)); }
        Complete(SplitOn(a, sep)) + SplitOn(Kept(SplitOn(a, sep)) + b, sep);
      }
    }
  }

  /** Two chunks read one after the other complete and keep the same pieces as both at once. */
  lemma TwoChunks(buffer: string, a: string, b: string, sep: string)
    requires sep != ""
    ensures var p := SplitOn(buffer + a, sep);
            var q := SplitOn(Kept(p) + b, sep);
            var whole := SplitOn(buffer + (a + b), sep);
            Complete(whole) == Complete(p) + Complete(q) && Kept(whole) == Kept(q)
  {
    hide SplitOn;
    var p := SplitOn(buffer + a, sep);
    var q := SplitOn(Kept(p) + b, sep);
    SplitInTwo(buffer + a, b, sep);
    assert buffer + (a + b) == buffer + a + b;
    assert Complete(Complete(p) + q) == Complete(p) + Complete(q);
  }

  /** The last piece holds no separator. */
  lemma {:induction false} KeptIsOpen(s: string, sep: string)
    requires sep != ""
    ensures IndexOf(Kept(SplitOn(s, sep)), sep, 0) == -1
    decreases |s|
  {
    var i := IndexOf(s, sep, 0);
    if i >= 0 {
      KeptIsOpen(s[i + |sep|..], sep);
      PrependPiece(s[..i], SplitOn(s[i + |sep|..], sep));
    }
  }

  /** The pieces completed, and the text kept back, after feeding `chunks` one by one. */
  function FeedAll(buffer: string, chunks: seq<string>, sep: string): (seq<string>, string)
    requires sep != ""
    decreases |chunks|
  {
    if chunks == [] then ([], buffer)
    else
      var p := SplitOn(buffer + chunks[0], sep);
      var (more, rest) := FeedAll(Kept(p), chunks[1..], sep);
      (Complete(p) + more, rest)
  }

  lemma PutLast(a: seq<string>, b: seq<string>, last: string)
    ensures a + b + [last] == a + (b + [last])
  {
  }

  lemma NothingToSplit(s: string, sep: string)
    requires sep != "" && IndexOf(s, sep, 0) == -1
    ensures SplitOn(s, sep) == [s]
  {
  }

  /** Every chunking of a text delivers the pieces of the one-shot split and keeps its last piece. */
  lemma {:induction false} FeedIsSplit(buffer: string, chunks: seq<string>, sep: string)
    requires sep != "" && IndexOf(buffer, sep, 0) == -1
    ensures var (lines, rest) := FeedAll(buffer, chunks, sep);
            lines + [rest] == SplitOn(buffer + Flatten(chunks), sep)
    decreases |chunks|
  {
    hide SplitOn, IndexOf;
    if chunks == [] {
      assert buffer + "" == buffer;
      NothingToSplit(buffer, sep);
    } else {
      var whole := buffer + chunks[0];
      var p := SplitOn(whole, sep);
      var (more, rest) := FeedAll(Kept(p), chunks[1..], sep);
      KeptIsOpen(whole, sep);
      assert more + [rest] == SplitOn(Kept(p) + Flatten(chunks[1..]), sep) by {
        FeedIsSplit(Kept(p), chunks[1..], sep);
      }
      SplitInTwo(whole, Flatten(chunks[1..]), sep);
      assert buffer + Flatten(chunks) == whole + Flatten(chunks[1..]);
      PutLast(Complete(p), more, rest);
    }
  }

  /** Lines delivered plus the kept buffer re-join to exactly what was received. */
  lemma FeedLosesNothing(chunks: seq<string>, sep: string)
    requires sep != ""
    ensures var (lines, rest) := FeedAll("", chunks, sep);
            Join(lines + [rest], sep) == Flatten(chunks)
  {
    FeedIsSplit("", chunks, sep);
    SplitJoin(Flatten(chunks), sep);
    assert "" + Flatten(chunks) == Flatten(chunks);
  }

  /** A piece without the separator's characters, followed by the separator, splits off whole. */
  lemma SplitOffFirst(piece: string, rest: string, sep: string)
    requires sep != "" && sep[0] !in piece
    ensures SplitOn(piece + sep + rest, sep) == [piece] + SplitOn(rest, sep)
  {
    var s := piece + sep + rest;
    assert s[|piece|..|piece| + |sep|] == sep;
    forall j | 0 <= j < |piece| ensures !At(s, sep, j) {
      assert j + |sep| <= |s| ==> s[j..j + |sep|][0] == piece[j];
    }
    IndexIsFirst(s, sep, |piece|);
    assert s[|piece| + |sep|..] == rest;
    assert s[..|piece|] == piece;
  }
}
