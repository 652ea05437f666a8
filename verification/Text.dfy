/** White space as JavaScript sees it: `\s`, `trim`, `trimStart` and `trimEnd` share one set. */
module Text {

  predicate IsSpace(c: char) {
    || '\t' <= c <= '\r'
    || c == ' '
    || c == '\U{00A0}'
    || c == '\U{1680}'
    || '\U{2000}' <= c <= '\U{200A}'
    || c == '\U{2028}' || c == '\U{2029}' || c == '\U{202F}' || c == '\U{205F}'
    || c == '\U{3000}'
    || c == '\U{FEFF}'
  }

  predicate AllSpace(s: string) {
    forall i :: 0 <= i < |s| ==> IsSpace(s[i])
  }

  function TrimStart(s: string): string {
    if s != "" && IsSpace(s[0]) then TrimStart(s[1..]) else s
  }

  function TrimEnd(s: string): string {
    if s != "" && IsSpace(s[|s| - 1]) then TrimEnd(s[..|s| - 1]) else s
  }

  /** What is cut off is white space, and what stays does not start with any. */
  lemma {:induction false} TrimStartSpec(s: string)
    ensures var t := TrimStart(s);
            && |t| <= |s| && t == s[|s| - |t|..] && AllSpace(s[..|s| - |t|])
            && (t != "" ==> !IsSpace(t[0]))
    decreases |s|
  {
    if s != "" && IsSpace(s[0]) {
      TrimStartSpec(s[1..]);
      var t := TrimStart(s);
      assert s[..|s| - |t|] == [s[0]] + s[1..][..|s| - 1 - |t|];
    }
  }

  lemma {:induction false} TrimEndSpec(s: string)
    ensures var t := TrimEnd(s);
            && |t| <= |s| && t == s[..|t|] && AllSpace(s[|t|..])
            && (t != "" ==> !IsSpace(t[|t| - 1]))
    decreases |s|
  {
    if s != "" && IsSpace(s[|s| - 1]) {
      TrimEndSpec(s[..|s| - 1]);
      var t := TrimEnd(s);
      assert s[|t|..] == s[..|s| - 1][|t|..] + [s[|s| - 1]];
    }
  }

  function Trim(s: string): string {
    TrimEnd(TrimStart(s))
  }

  /** The characters of `s` that are not white space, in order. */
  function Solid(s: string): string {
    if s == "" then "" else (if IsSpace(s[0]) then "" else [s[0]]) + Solid(s[1..])
  }

  lemma {:induction false} SolidConcat(a: string, b: string)
    ensures Solid(a + b) == Solid(a) + Solid(b)
    decreases |a|
  {
    if a == "" {
      assert a + b == b;
    } else {
      assert (a + b)[1..] == a[1..] + b;
      SolidConcat(a[1..], b);
    }
  }

  lemma {:induction false} SolidSpace(s: string)
    requires AllSpace(s)
    ensures Solid(s) == ""
    decreases |s|
  {
    if s != "" {
      SolidSpace(s[1..]);
    }
  }

  /** Trimming keeps every character that is not white space. */
  lemma TrimKeepsSolid(s: string)
    ensures Solid(TrimStart(s)) == Solid(s)
    ensures Solid(TrimEnd(s)) == Solid(s)
    ensures Solid(Trim(s)) == Solid(s)
  {
    TrimStartKeepsSolid(s);
    TrimEndKeepsSolid(s);
    TrimEndKeepsSolid(TrimStart(s));
  }

  lemma TrimStartKeepsSolid(s: string)
    ensures Solid(TrimStart(s)) == Solid(s)
  {
    TrimStartSpec(s);
    var t := TrimStart(s);
    var head := s[..|s| - |t|];
    assert s == head + t;
    SolidConcat(head, t);
    SolidSpace(head);
  }

  lemma TrimEndKeepsSolid(s: string)
    ensures Solid(TrimEnd(s)) == Solid(s)
  {
    TrimEndSpec(s);
    var t := TrimEnd(s);
    assert s == t + s[|t|..];
    SolidConcat(t, s[|t|..]);
    SolidSpace(s[|t|..]);
  }
}
