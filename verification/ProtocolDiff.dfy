/** The recursive protocol diff (scripts/office-wasm-reader/compare-walnut-pptx-protocol.ts). */
module ProtocolDiff {
  import opened Options
  import opened Json

  /** A step of a path: `[index]` or `.key`. */
  datatype Segment = Index(i: nat) | Key(key: string)

  datatype Kind = ArrayLength | MissingInRouta | MissingInWalnut | TypeDiffers | ValueDiffers

  /** What an entry shows of one side. */
  datatype Shown = Absent | Length(n: nat) | KeysOf(keys: seq<string>) | Plain(value: Json)

  datatype Entry = Entry(kind: Kind, path: seq<Segment>, walnut: Shown, routa: Shown)

  datatype ValueKind = ArrayKind | NullKind | BooleanKind | NumberKind | StringKind | ObjectKind

  function KindOf(j: Json): ValueKind {
    match j
    case Null => NullKind
    case Bool(_) => BooleanKind
    case Num(_) => NumberKind
    case Str(_) => StringKind
    case Arr(_) => ArrayKind
    case Obj(_) => ObjectKind
  }

  function Summarize(j: Json): Shown {
    match j
    case Arr(items) => Length(|items|)
    case Obj(fields) => KeysOf(SortKeys(Keys(fields)))
    case _ => Plain(j)
  }

  /** `new Set([...Object.keys(a), ...Object.keys(b)])` in insertion order. */
  function UnionKeys(a: seq<Field>, b: seq<Field>): seq<string> {
    Keys(a) + NewKeys(a, b)
  }

  function NewKeys(a: seq<Field>, b: seq<Field>): seq<string> {
    if b == [] then []
    else NewKeys(a, b[..|b| - 1]) + (if Find(a, b[|b| - 1].key) == -1 then [b[|b| - 1].key] else [])
  }

  /** Every difference between two trees, in traversal order. */
  function Diffs(w: Json, r: Json, path: seq<Segment>): seq<Entry>
    decreases w, 1
  {
    if IsPrimitive(w) && w == r then []
    else if KindOf(w) != KindOf(r) then [Entry(TypeDiffers, path, Summarize(w), Summarize(r))]
    else
      match (w, r)
      case (Arr(x), Arr(y)) =>
        (if |x| != |y| then [Entry(ArrayLength, path, Length(|x|), Length(|y|))] else [])
        + ItemDiffs(x, y, path, if |x| < |y| then |x| else |y|)
      case (Obj(f), Obj(g)) =>
        FieldDiffs(f, g, SortKeys(UnionKeys(f, g)), path)
      case _ => [Entry(ValueDiffers, path, Plain(w), Plain(r))]
  }

  /** The differences of the first `n` items. */
  function ItemDiffs(x: seq<Json>, y: seq<Json>, path: seq<Segment>, n: nat): seq<Entry>
    requires n <= |x| && n <= |y|
    decreases x, n
  {
    if n == 0 then []
    else ItemDiffs(x, y, path, n - 1) + Diffs(x[n - 1], y[n - 1], path + [Index(n - 1)])
  }

  function KeyDiffs(f: seq<Field>, g: seq<Field>, key: string, path: seq<Segment>): seq<Entry>
    decreases f, 0
  {
    var i, j := Find(f, key), Find(g, key);
    if i == -1 then [Entry(MissingInWalnut, path + [Key(key)], Absent, if j >= 0 then Summarize(g[j].value) else Absent)]
    else if j == -1 then [Entry(MissingInRouta, path + [Key(key)], Summarize(f[i].value), Absent)]
    else Diffs(f[i].value, g[j].value, path + [Key(key)])
  }

  function FieldDiffs(f: seq<Field>, g: seq<Field>, keys: seq<string>, path: seq<Segment>): seq<Entry>
    decreases f, 1, |keys|
  {
    if keys == [] then [] else KeyDiffs(f, g, keys[0], path) + FieldDiffs(f, g, keys[1..], path)
  }

  function FirstOf(entries: seq<Entry>, limit: nat): seq<Entry> {
    if |entries| <= limit then entries else entries[..limit]
  }

  /** The array and the counter that the recursion appends to and bumps. */
  class DiffLog {
    const limit: nat
    var diffs: seq<Entry>
    var total: nat
    ghost var all: seq<Entry>

    /** `total` counts every difference; `diffs` shows the first `limit`. */
    ghost predicate Valid()
      reads this
    {
      total == |all| && diffs == FirstOf(all, limit)
    }

    constructor (limit: nat)
      ensures Valid() && this.limit == limit && all == [] && total == 0
    {
      this.limit := limit;
      diffs, total, all := [], 0, [];
    }

    method Push(entry: Entry)
      requires Valid()
      modifies this
      ensures Valid() && all == old(all) + [entry]
    {
      total := total + 1;
      if |diffs| < limit {
        diffs := diffs + [entry];
      }
      all := all + [entry];
    }

    method Compare(w: Json, r: Json, path: seq<Segment>)
      requires Valid()
      modifies this
      ensures Valid() && all == old(all) + Diffs(w, r, path)
      decreases w, 1
    {
      hide ItemDiffs, FieldDiffs, Summarize, SortKeys, UnionKeys, FirstOf;
      if IsPrimitive(w) && w == r {
        return;
      }
      if KindOf(w) != KindOf(r) {
        Push(Entry(TypeDiffers, path, Summarize(w), Summarize(r)));
        return;
      }
      if w.Arr? && r.Arr? {
        if |w.items| != |r.items| {
          Push(Entry(ArrayLength, path, Length(|w.items|), Length(|r.items|)));
        }
        CompareItems(w.items, r.items, path);
        return;
      }
      if w.Obj? && r.Obj? {
        CompareFields(w.fields, r.fields, path);
        return;
      }
      Push(Entry(ValueDiffers, path, Plain(w), Plain(r)));
    }

    method CompareItems(x: seq<Json>, y: seq<Json>, path: seq<Segment>)
      requires Valid()
      modifies this
      ensures Valid() && all == old(all) + ItemDiffs(x, y, path, if |x| < |y| then |x| else |y|)
      decreases x
    {
      var length := if |x| < |y| then |x| else |y|;
      var index := 0;
      while index < length
        invariant 0 <= index <= length
        invariant Valid() && all == old(all) + ItemDiffs(x, y, path, index)
      {
        Compare(x[index], y[index], path + [Index(index)]);
        index := index + 1;
      }
    }

    method CompareFields(f: seq<Field>, g: seq<Field>, path: seq<Segment>)
      requires Valid()
      modifies this
      ensures Valid() && all == old(all) + FieldDiffs(f, g, SortKeys(UnionKeys(f, g)), path)
      decreases f, 1
    {
      hide KeyDiffs, SortKeys, FirstOf;
      var keys := SortKeys(UnionKeys(f, g));
      var k := 0;
      ghost var start := all;
      while k < |keys|
        invariant 0 <= k <= |keys|
        invariant Valid() && start + FieldDiffs(f, g, keys, path) == all + FieldDiffs(f, g, keys[k..], path)
      {
        assert keys[k..][1..] == keys[k + 1..];
        CompareKey(f, g, keys[k], path);
        k := k + 1;
      }
    }

    method CompareKey(f: seq<Field>, g: seq<Field>, key: string, path: seq<Segment>)
      requires Valid()
      modifies this
      ensures Valid() && all == old(all) + KeyDiffs(f, g, key, path)
      decreases f, 0
    {
      hide Diffs, Summarize, FirstOf;
      var i, j := Find(f, key), Find(g, key);
      if i == -1 {
        Push(Entry(MissingInWalnut, path + [Key(key)], Absent, if j >= 0 then Summarize(g[j].value) else Absent));
        return;
      }
      if j == -1 {
        Push(Entry(MissingInRouta, path + [Key(key)], Summarize(f[i].value), Absent));
        return;
      }
      Compare(f[i].value, g[j].value, path + [Key(key)]);
    }
  }

  // ----- what the total says -----

  lemma {:induction false} NewKeysSpec(a: seq<Field>, b: seq<Field>)
    requires DistinctKeys(b)
    ensures forall k :: k in NewKeys(a, b) <==> Find(b, k) >= 0 && Find(a, k) == -1
    ensures forall i, j :: 0 <= i < j < |NewKeys(a, b)| ==> NewKeys(a, b)[i] != NewKeys(a, b)[j]
    decreases |b|
  {
    if b != [] {
      var front, last := b[..|b| - 1], b[|b| - 1];
      NewKeysSpec(a, front);
      forall k: string ensures Find(b, k) >= 0 <==> Find(front, k) >= 0 || k == last.key {
        FindSnoc(b, k);
      }
      assert Find(front, last.key) == -1;
    }
  }

  lemma FindSnoc(b: seq<Field>, k: string)
    requires b != []
    ensures Find(b, k) >= 0 <==> Find(b[..|b| - 1], k) >= 0 || k == b[|b| - 1].key
  {
    hide Find;
    var front := b[..|b| - 1];
    if Find(b, k) >= 0 && Find(b, k) < |b| - 1 {
      assert front[Find(b, k)].key == k;
    }
    if Find(front, k) >= 0 {
      assert b[Find(front, k)].key == k;
    }
  }

  ghost predicate Mentions(a: seq<Field>, b: seq<Field>, k: string) {
    Find(a, k) >= 0 || Find(b, k) >= 0
  }

  /** The keys compared are those of either side, each once, in sorted order. */
  lemma UnionKeysSpec(a: seq<Field>, b: seq<Field>)
    requires DistinctKeys(a) && DistinctKeys(b)
    ensures forall k :: k in SortKeys(UnionKeys(a, b)) <==> Mentions(a, b, k)
    ensures SortedBy(SortKeys(UnionKeys(a, b)), (k: string) => k)
  {
    var id := (k: string) => k;
    var keys := UnionKeys(a, b);
    NewKeysSpec(a, b);
    forall k: string ensures k in SortKeys(keys) <==> Mentions(a, b, k) {
      SortElement(keys, id, k);
      if Find(a, k) >= 0 { assert Keys(a)[Find(a, k)] == k; }
      if k in Keys(a) { var i :| 0 <= i < |a| && Keys(a)[i] == k; FindDistinct(a, i); }
    }
    UnionKeysDistinct(a, b);
    assert DistinctBy(keys, id);
    SortSorts(keys, id);
  }

  lemma UnionKeysDistinct(a: seq<Field>, b: seq<Field>)
    requires DistinctKeys(a) && DistinctKeys(b)
    ensures forall i, j :: 0 <= i < j < |UnionKeys(a, b)| ==> UnionKeys(a, b)[i] != UnionKeys(a, b)[j]
  {
    var keys := UnionKeys(a, b);
    NewKeysSpec(a, b);
    forall i, j | 0 <= i < j < |keys| ensures keys[i] != keys[j] {
      if j < |a| {
        assert a[i].key != a[j].key;
      } else if i < |a| {
        assert keys[j] == NewKeys(a, b)[j - |a|];
        assert keys[j] in NewKeys(a, b);
      } else {
        assert keys[i] == NewKeys(a, b)[i - |a|] && keys[j] == NewKeys(a, b)[j - |a|];
      }
    }
  }

  lemma UnionKeysSymmetric(a: seq<Field>, b: seq<Field>)
    requires DistinctKeys(a) && DistinctKeys(b)
    ensures SortKeys(UnionKeys(a, b)) == SortKeys(UnionKeys(b, a))
  {
    UnionKeysSpec(a, b);
    UnionKeysSpec(b, a);
    assert forall k :: Mentions(a, b, k) <==> Mentions(b, a, k);
    SortedUnique(SortKeys(UnionKeys(a, b)), SortKeys(UnionKeys(b, a)), (k: string) => k);
  }

  /** No difference is found exactly when the key-sorted forms are equal. */
  lemma NoDiffsIffCanonEqual(w: Json, r: Json, path: seq<Segment>)
    requires WellFormed(w) && WellFormed(r)
    ensures Diffs(w, r, path) == [] <==> Canon(w) == Canon(r)
  {
    NoDiffsIffSame(w, r, path);
    CanonDecides(w, r);
  }

  lemma {:induction false} NoDiffsIffSame(w: Json, r: Json, path: seq<Segment>)
    requires WellFormed(w) && WellFormed(r)
    ensures Diffs(w, r, path) == [] <==> Same(w, r)
    decreases w, 2
  {
    match (w, r)
    case (Arr(x), Arr(y)) =>
      ItemsSame(x, y, path, if |x| < |y| then |x| else |y|);
    case (Obj(f), Obj(g)) =>
      hide FieldDiffs, SortKeys, UnionKeys;
      UnionKeysSpec(f, g);
      FieldsSame(f, g, SortKeys(UnionKeys(f, g)), path);
      KeysDecide(f, g, SortKeys(UnionKeys(f, g)));
    case _ =>
  }

  /** Agreeing on every key of either side is agreeing as tables. */
  lemma KeysDecide(f: seq<Field>, g: seq<Field>, keys: seq<string>)
    requires DistinctKeys(f) && DistinctKeys(g)
    requires forall k :: k in keys <==> Mentions(f, g, k)
    ensures (forall k :: k in keys ==> KeySame(f, g, k)) <==> Same(Obj(f), Obj(g))
  {
    if forall k :: k in keys ==> KeySame(f, g, k) {
      forall i | 0 <= i < |f| ensures Find(g, f[i].key) >= 0 && Same(f[i].value, g[Find(g, f[i].key)].value) {
        FindDistinct(f, i);
        assert Mentions(f, g, f[i].key);
      }
      forall i | 0 <= i < |g| ensures Find(f, g[i].key) >= 0 {
        FindDistinct(g, i);
        assert Mentions(f, g, g[i].key);
      }
    }
    if Same(Obj(f), Obj(g)) {
      forall k | k in keys ensures KeySame(f, g, k) {
        assert Mentions(f, g, k);
        if Find(g, k) >= 0 { assert Find(f, g[Find(g, k)].key) >= 0; }
        assert f[Find(f, k)].key == k;
      }
    }
  }

  lemma {:induction false} ItemsSame(x: seq<Json>, y: seq<Json>, path: seq<Segment>, n: nat)
    requires n <= |x| && n <= |y|
    requires forall i :: 0 <= i < |x| ==> WellFormed(x[i])
    requires forall i :: 0 <= i < |y| ==> WellFormed(y[i])
    ensures ItemDiffs(x, y, path, n) == [] <==> forall i :: 0 <= i < n ==> Same(x[i], y[i])
    decreases x, n
  {
    hide Diffs, Same;
    if n > 0 {
      ItemsSame(x, y, path, n - 1);
      NoDiffsIffSame(x[n - 1], y[n - 1], path + [Index(n - 1)]);
    }
  }

  ghost predicate KeySame(f: seq<Field>, g: seq<Field>, k: string) {
    Find(f, k) >= 0 && Find(g, k) >= 0 && Same(f[Find(f, k)].value, g[Find(g, k)].value)
  }

  lemma {:induction false} FieldsSame(f: seq<Field>, g: seq<Field>, keys: seq<string>, path: seq<Segment>)
    requires forall i :: 0 <= i < |f| ==> WellFormed(f[i].value)
    requires forall i :: 0 <= i < |g| ==> WellFormed(g[i].value)
    ensures FieldDiffs(f, g, keys, path) == [] <==> forall k :: k in keys ==> KeySame(f, g, k)
    decreases f, 1, |keys|
  {
    if keys != [] {
      var k := keys[0];
      FieldsSame(f, g, keys[1..], path);
      if Find(f, k) >= 0 && Find(g, k) >= 0 {
        NoDiffsIffSame(f[Find(f, k)].value, g[Find(g, k)].value, path + [Key(k)]);
      }
      assert KeyDiffs(f, g, k, path) == [] <==> KeySame(f, g, k);
      assert keys == [k] + keys[1..];
    }
  }

  /** Swapping the two presentations keeps the total. */
  lemma {:induction false} TotalIsSymmetric(w: Json, r: Json, path: seq<Segment>)
    requires WellFormed(w) && WellFormed(r)
    ensures |Diffs(w, r, path)| == |Diffs(r, w, path)|
    decreases w, 2
  {
    match (w, r)
    case (Arr(x), Arr(y)) =>
      ItemTotals(x, y, path, if |x| < |y| then |x| else |y|);
    case (Obj(f), Obj(g)) =>
      UnionKeysSymmetric(f, g);
      UnionKeysSpec(f, g);
      FieldTotals(f, g, SortKeys(UnionKeys(f, g)), path);
    case _ =>
  }

  lemma {:induction false} ItemTotals(x: seq<Json>, y: seq<Json>, path: seq<Segment>, n: nat)
    requires n <= |x| && n <= |y|
    requires forall i :: 0 <= i < |x| ==> WellFormed(x[i])
    requires forall i :: 0 <= i < |y| ==> WellFormed(y[i])
    ensures |ItemDiffs(x, y, path, n)| == |ItemDiffs(y, x, path, n)|
    decreases x, n
  {
    if n > 0 {
      ItemTotals(x, y, path, n - 1);
      TotalIsSymmetric(x[n - 1], y[n - 1], path + [Index(n - 1)]);
    }
  }

  lemma {:induction false} FieldTotals(f: seq<Field>, g: seq<Field>, keys: seq<string>, path: seq<Segment>)
    requires forall i :: 0 <= i < |f| ==> WellFormed(f[i].value)
    requires forall i :: 0 <= i < |g| ==> WellFormed(g[i].value)
    ensures |FieldDiffs(f, g, keys, path)| == |FieldDiffs(g, f, keys, path)|
    decreases f, 1, |keys|
  {
    if keys != [] {
      var k := keys[0];
      FieldTotals(f, g, keys[1..], path);
      if Find(f, k) >= 0 && Find(g, k) >= 0 {
        TotalIsSymmetric(f[Find(f, k)].value, g[Find(g, k)].value, path + [Key(k)]);
      }
    }
  }

  // ----- what the entries say -----

  function Child(j: Json, s: Segment): Option<Json> {
    match s
    case Index(i) => if j.Arr? && i < |j.items| then Some(j.items[i]) else None
    case Key(k) => if j.Obj? && Find(j.fields, k) >= 0 then Some(j.fields[Find(j.fields, k)].value) else None
  }

  /** What stands in a tree at a path. */
  function ValueAt(j: Json, path: seq<Segment>): Option<Json>
    decreases |path|
  {
    if path == [] then Some(j)
    else
      var child := Child(j, path[0]);
      if child.None? then None else ValueAt(child.value, path[1..])
  }

  /** How two trees differ at a place, looking at nothing but that place: both have a value there of
      different kinds, arrays of different lengths or different primitives, or both have an object
      right above it and only one of them the key. */
  function Difference(w: Json, r: Json, path: seq<Segment>): Option<Kind> {
    match (ValueAt(w, path), ValueAt(r, path))
    case (Some(a), Some(b)) =>
      if KindOf(a) != KindOf(b) then Some(TypeDiffers)
      else if a.Arr? && b.Arr? && |a.items| != |b.items| then Some(ArrayLength)
      else if IsPrimitive(a) && a != b then Some(ValueDiffers)
      else None
    case (Some(_), None) => if KeyOfObject(r, path) then Some(MissingInRouta) else None
    case (None, Some(_)) => if KeyOfObject(w, path) then Some(MissingInWalnut) else None
    case (None, None) => None
  }

  /** The path ends in a key, and an object stands right above. */
  predicate KeyOfObject(j: Json, path: seq<Segment>) {
    && path != [] && path[|path| - 1].Key?
    && var parent := ValueAt(j, path[..|path| - 1]);
       parent.Some? && parent.value.Obj?
  }

  /** An array by its length, an object by its sorted keys, a primitive as it is. */
  function ShownAt(j: Json, path: seq<Segment>): Shown {
    match ValueAt(j, path)
    case None => Absent
    case Some(Arr(items)) => Length(|items|)
    case Some(Obj(fields)) => KeysOf(SortKeys(Keys(fields)))
    case Some(v) => Plain(v)
  }

  /** The entry tells how the trees differ at its path below `base`, and what stands there. */
  predicate Tells(w: Json, r: Json, base: seq<Segment>, e: Entry) {
    && |base| <= |e.path| && e.path[..|base|] == base
    && var place := e.path[|base|..];
       Difference(w, r, place) == Some(e.kind) && e.walnut == ShownAt(w, place) && e.routa == ShownAt(r, place)
  }

  lemma ChildPath(j: Json, s: Segment, t: seq<Segment>)
    ensures ValueAt(j, [s] + t) == if Child(j, s).None? then None else ValueAt(Child(j, s).value, t)
    ensures ShownAt(j, [s] + t) == if Child(j, s).None? then Absent else ShownAt(Child(j, s).value, t)
  {
    assert ([s] + t)[1..] == t;
  }

  lemma ChildKey(j: Json, s: Segment, t: seq<Segment>)
    requires t != [] && (Child(j, s).Some? || t != [])
    ensures KeyOfObject(j, [s] + t) <==> Child(j, s).Some? && KeyOfObject(Child(j, s).value, t)
  {
    var path := [s] + t;
    assert path[..|path| - 1] == [s] + t[..|t| - 1] && path[|path| - 1] == t[|t| - 1];
    ChildPath(j, s, t[..|t| - 1]);
  }

  lemma OneKey(j: Json, s: Segment)
    ensures KeyOfObject(j, [s]) <==> s.Key? && j.Obj?
  {
    assert [s][..0] == [];
  }

  /** Below a child that both trees have, they differ as the children do; a child that only one has
      makes a difference only itself, and only under two objects. */
  lemma DifferenceStep(w: Json, r: Json, s: Segment, t: seq<Segment>)
    ensures var a, b := Child(w, s), Child(r, s);
            Difference(w, r, [s] + t) ==
            if a.Some? && b.Some? then Difference(a.value, b.value, t)
            else if t != [] || !s.Key? || !w.Obj? || !r.Obj? then None
            else if a.Some? then Some(MissingInRouta)
            else if b.Some? then Some(MissingInWalnut)
            else None
  {
    hide KindOf;
    ChildPath(w, s, t);
    ChildPath(r, s, t);
    if t == [] {
      assert [s] + t == [s];
      OneKey(w, s);
      OneKey(r, s);
    } else {
      ChildKey(w, s, t);
      ChildKey(r, s, t);
    }
  }

  lemma TellsBelow(w: Json, r: Json, base: seq<Segment>, e: Entry)
    requires |e.path| > |base| && e.path[..|base|] == base
    requires Child(w, e.path[|base|]).Some? && Child(r, e.path[|base|]).Some?
    ensures var s := e.path[|base|];
            Tells(w, r, base, e) <==> Tells(Child(w, s).value, Child(r, s).value, base + [s], e)
  {
    hide Difference, ShownAt;
    var s, t := e.path[|base|], e.path[|base| + 1..];
    assert e.path[|base|..] == [s] + t && e.path[..|base| + 1] == base + [s];
    DifferenceStep(w, r, s, t);
    ChildPath(w, s, t);
    ChildPath(r, s, t);
  }

  /** Without a common child nothing is told below, but the child itself when it is a key. */
  lemma TellsMissing(w: Json, r: Json, base: seq<Segment>, e: Entry)
    requires |e.path| > |base| && e.path[..|base|] == base
    requires !(Child(w, e.path[|base|]).Some? && Child(r, e.path[|base|]).Some?)
    ensures var s := e.path[|base|];
            var a, b := Child(w, s), Child(r, s);
            Tells(w, r, base, e) <==>
              && e.path == base + [s] && s.Key? && w.Obj? && r.Obj? && (a.Some? || b.Some?)
              && e.kind == (if a.Some? then MissingInRouta else MissingInWalnut)
              && e.walnut == (if a.Some? then Summarize(a.value) else Absent)
              && e.routa == (if b.Some? then Summarize(b.value) else Absent)
  {
    var s, t := e.path[|base|], e.path[|base| + 1..];
    assert e.path[|base|..] == [s] + t;
    DifferenceStep(w, r, s, t);
    ChildPath(w, s, t);
    ChildPath(r, s, t);
    assert e.path == base + [s] <==> t == [] by {
      assert e.path == base + [s] + t;
    }
  }

  /** At the place itself. */
  lemma TellsHere(w: Json, r: Json, base: seq<Segment>, e: Entry)
    requires e.path == base
    ensures Tells(w, r, base, e) <==>
              && e.walnut == Summarize(w) && e.routa == Summarize(r)
              && (|| (KindOf(w) != KindOf(r) && e.kind == TypeDiffers)
                  || (w.Arr? && r.Arr? && |w.items| != |r.items| && e.kind == ArrayLength)
                  || (KindOf(w) == KindOf(r) && IsPrimitive(w) && w != r && e.kind == ValueDiffers))
  {
    assert e.path[|base|..] == [] && e.path[..|base|] == base;
  }

  /** The entry tells of the children number `i`. */
  predicate TellsItem(x: seq<Json>, y: seq<Json>, base: seq<Segment>, i: nat, e: Entry)
    requires i < |x| && i < |y|
  {
    && |e.path| > |base| && e.path[..|base|] == base && e.path[|base|] == Index(i)
    && Tells(x[i], y[i], base + [Index(i)], e)
  }

  lemma ItemTells(x: seq<Json>, y: seq<Json>, base: seq<Segment>, i: nat, e: Entry)
    requires i < |x| && i < |y| && WellFormed(Arr(x)) && WellFormed(Arr(y))
    ensures e in Diffs(x[i], y[i], base + [Index(i)]) <==> TellsItem(x, y, base, i, e)
    decreases x, i + 1, 0
  {
    hide Diffs, Tells;
    DiffsTell(x[i], y[i], base + [Index(i)], e);
    if Tells(x[i], y[i], base + [Index(i)], e) {
      TellsPrefix(x[i], y[i], base, Index(i), e);
    }
  }

  lemma {:induction false} ItemsTell(x: seq<Json>, y: seq<Json>, base: seq<Segment>, n: nat, e: Entry)
    requires n <= |x| && n <= |y| && WellFormed(Arr(x)) && WellFormed(Arr(y))
    ensures e in ItemDiffs(x, y, base, n) <==>
              && |e.path| > |base| && e.path[|base|].Index? && e.path[|base|].i < n
              && TellsItem(x, y, base, e.path[|base|].i, e)
    decreases x, n, 1
  {
    if n > 0 {
      hide Diffs, TellsItem, WellFormed;
      ItemsTell(x, y, base, n - 1, e);
      ItemTells(x, y, base, n - 1, e);
      if TellsItem(x, y, base, n - 1, e) {
        ItemPath(x, y, base, n - 1, e);
      }
    }
  }

  lemma ItemPath(x: seq<Json>, y: seq<Json>, base: seq<Segment>, i: nat, e: Entry)
    requires i < |x| && i < |y| && TellsItem(x, y, base, i, e)
    ensures |e.path| > |base| && e.path[..|base|] == base && e.path[|base|] == Index(i)
  {
  }

  lemma TellsPrefix(w: Json, r: Json, base: seq<Segment>, s: Segment, e: Entry)
    requires Tells(w, r, base + [s], e)
    ensures |e.path| > |base| && e.path[..|base|] == base && e.path[|base|] == s
  {
    assert e.path[..|base| + 1] == base + [s];
    assert e.path[..|base|] == e.path[..|base| + 1][..|base|];
    assert e.path[|base|] == e.path[..|base| + 1][|base|];
  }
  lemma KeyTells(f: seq<Field>, g: seq<Field>, key: string, base: seq<Segment>, e: Entry)
    requires WellFormed(Obj(f)) && WellFormed(Obj(g)) && Mentions(f, g, key)
    ensures e in KeyDiffs(f, g, key, base) <==>
              && |e.path| > |base| && e.path[..|base|] == base && e.path[|base|] == Key(key)
              && Tells(Obj(f), Obj(g), base, e)
    decreases f, 0
  {
    hide Diffs, Tells, Summarize;
    var i, j := Find(f, key), Find(g, key);
    if i >= 0 && j >= 0 {
      DiffsTell(f[i].value, g[j].value, base + [Key(key)], e);
      if Tells(f[i].value, g[j].value, base + [Key(key)], e) {
        TellsPrefix(f[i].value, g[j].value, base, Key(key), e);
      }
      if |e.path| > |base| && e.path[..|base|] == base && e.path[|base|] == Key(key) {
        TellsBelow(Obj(f), Obj(g), base, e);
      }
    } else {
      if e.path == base + [Key(key)] {
        assert e.path[..|base|] == base && e.path[|base|] == Key(key);
      }
      if |e.path| > |base| && e.path[..|base|] == base && e.path[|base|] == Key(key) {
        TellsMissing(Obj(f), Obj(g), base, e);
      }
    }
  }

  lemma {:induction false} FieldsTell(f: seq<Field>, g: seq<Field>, keys: seq<string>, base: seq<Segment>, e: Entry)
    requires WellFormed(Obj(f)) && WellFormed(Obj(g)) && forall k :: k in keys ==> Mentions(f, g, k)
    ensures e in FieldDiffs(f, g, keys, base) <==>
              && |e.path| > |base| && e.path[..|base|] == base && e.path[|base|].Key? && e.path[|base|].key in keys
              && Tells(Obj(f), Obj(g), base, e)
    decreases f, 1, |keys|
  {
    if keys != [] {
      hide KeyDiffs, Tells, Mentions, WellFormed;
      assert keys == [keys[0]] + keys[1..] && keys[0] in keys;
      KeyTells(f, g, keys[0], base, e);
      FieldsTell(f, g, keys[1..], base, e);
    }
  }

  lemma ArraysTell(x: seq<Json>, y: seq<Json>, base: seq<Segment>, e: Entry)
    requires WellFormed(Arr(x)) && WellFormed(Arr(y))
    ensures e in Diffs(Arr(x), Arr(y), base) <==> Tells(Arr(x), Arr(y), base, e)
    decreases x, |x| + 1
  {
    hide Tells, ItemDiffs, WellFormed;
    var n := if |x| < |y| then |x| else |y|;
    ItemsTell(x, y, base, n, e);
    if e.path == base {
      TellsHere(Arr(x), Arr(y), base, e);
    } else if |e.path| > |base| && e.path[..|base|] == base {
      var s := e.path[|base|];
      if s.Index? && s.i < n {
        TellsBelow(Arr(x), Arr(y), base, e);
      } else {
        TellsMissing(Arr(x), Arr(y), base, e);
      }
    } else {
      TellsElsewhere(Arr(x), Arr(y), base, e);
    }
  }

  lemma TellsElsewhere(w: Json, r: Json, base: seq<Segment>, e: Entry)
    requires e.path != base && !(|e.path| > |base| && e.path[..|base|] == base)
    ensures !Tells(w, r, base, e)
  {
    if |e.path| == |base| {
      assert e.path[..|base|] == e.path;
    }
  }

  lemma ObjectsTell(f: seq<Field>, g: seq<Field>, base: seq<Segment>, e: Entry)
    requires WellFormed(Obj(f)) && WellFormed(Obj(g))
    ensures e in Diffs(Obj(f), Obj(g), base) <==> Tells(Obj(f), Obj(g), base, e)
    decreases f, 2
  {
    var keys := SortKeys(UnionKeys(f, g));
    UnionKeysSpec(f, g);
    hide Tells, FieldDiffs, SortKeys, UnionKeys, WellFormed;
    FieldsTell(f, g, keys, base, e);
    assert Diffs(Obj(f), Obj(g), base) == FieldDiffs(f, g, keys, base);
    if e.path == base {
      TellsHere(Obj(f), Obj(g), base, e);
    } else if |e.path| > |base| && e.path[..|base|] == base {
      var s := e.path[|base|];
      if !(s.Key? && Mentions(f, g, s.key)) {
        TellsMissing(Obj(f), Obj(g), base, e);
      }
    } else {
      TellsElsewhere(Obj(f), Obj(g), base, e);
    }
  }

  /** No child of one tree is a child of the other. */
  lemma UnlikeTell(w: Json, r: Json, base: seq<Segment>, e: Entry)
    requires !(w.Arr? && r.Arr?) && !(w.Obj? && r.Obj?)
    ensures e in Diffs(w, r, base) <==> Tells(w, r, base, e)
  {
    hide Tells;
    if e.path == base {
      TellsHere(w, r, base, e);
    } else if |e.path| > |base| && e.path[..|base|] == base {
      TellsMissing(w, r, base, e);
    } else {
      TellsElsewhere(w, r, base, e);
    }
  }

  /** An entry is listed exactly when it tells a difference: its kind is how the trees differ at its
      path, and it shows what stands there on either side. */
  lemma {:induction false} DiffsTell(w: Json, r: Json, base: seq<Segment>, e: Entry)
    requires WellFormed(w) && WellFormed(r)
    ensures e in Diffs(w, r, base) <==> Tells(w, r, base, e)
    decreases w, 3
  {
    hide Diffs, Tells;
    match (w, r)
    case (Arr(x), Arr(y)) => ArraysTell(x, y, base, e);
    case (Obj(f), Obj(g)) => ObjectsTell(f, g, base, e);
    case _ => UnlikeTell(w, r, base, e);
  }

  predicate DistinctPaths(entries: seq<Entry>) {
    forall i, j :: 0 <= i < j < |entries| ==> entries[i].path != entries[j].path
  }

  lemma JoinDistinct(a: seq<Entry>, b: seq<Entry>)
    requires DistinctPaths(a) && DistinctPaths(b)
    requires forall d, e :: d in a && e in b ==> d.path != e.path
    ensures DistinctPaths(a + b)
  {
    forall i, j | 0 <= i < |a| && 0 <= j < |b| ensures a[i].path != b[j].path {
      assert a[i] in a && b[j] in b;
    }
  }

  lemma {:induction false} ItemsDistinct(x: seq<Json>, y: seq<Json>, base: seq<Segment>, n: nat)
    requires n <= |x| && n <= |y| && WellFormed(Arr(x)) && WellFormed(Arr(y))
    ensures DistinctPaths(ItemDiffs(x, y, base, n))
    decreases x, n
  {
    if n > 0 {
      hide Diffs, Tells, DistinctPaths;
      var before, last := ItemDiffs(x, y, base, n - 1), Diffs(x[n - 1], y[n - 1], base + [Index(n - 1)]);
      ItemsDistinct(x, y, base, n - 1);
      DiffsDistinct(x[n - 1], y[n - 1], base + [Index(n - 1)]);
      forall d, e | d in before && e in last ensures d.path != e.path {
        ItemsApart(x, y, base, n, d, e);
      }
      JoinDistinct(before, last);
    } else {
      assert DistinctPaths([]);
    }
  }

  lemma ItemsApart(x: seq<Json>, y: seq<Json>, base: seq<Segment>, n: nat, d: Entry, e: Entry)
    requires 0 < n <= |x| && n <= |y| && WellFormed(Arr(x)) && WellFormed(Arr(y))
    requires d in ItemDiffs(x, y, base, n - 1) && e in Diffs(x[n - 1], y[n - 1], base + [Index(n - 1)])
    ensures d.path != e.path
  {
    hide Tells, Diffs, ItemDiffs;
    ItemsTell(x, y, base, n - 1, d);
    ItemTells(x, y, base, n - 1, e);
  }

  predicate DifferentKeys(keys: seq<string>) {
    forall i, j :: 0 <= i < j < |keys| ==> keys[i] != keys[j]
  }

  lemma {:induction false} FieldsDistinct(f: seq<Field>, g: seq<Field>, keys: seq<string>, base: seq<Segment>)
    requires WellFormed(Obj(f)) && WellFormed(Obj(g)) && DifferentKeys(keys) && forall k :: k in keys ==> Mentions(f, g, k)
    ensures DistinctPaths(FieldDiffs(f, g, keys, base))
    decreases f, 1, |keys|
  {
    if keys != [] {
      hide KeyDiffs, Tells, Mentions, WellFormed, DistinctPaths;
      var key, rest := keys[0], keys[1..];
      assert keys == [key] + rest && key in keys && key !in rest;
      var here, more := KeyDiffs(f, g, key, base), FieldDiffs(f, g, rest, base);
      KeyDistinct(f, g, key, base);
      FieldsDistinct(f, g, rest, base);
      forall d, e | d in here && e in more ensures d.path != e.path {
        KeyTells(f, g, key, base, d);
        FieldsTell(f, g, rest, base, e);
      }
      JoinDistinct(here, more);
    } else {
      assert DistinctPaths([]);
    }
  }

  lemma KeyDistinct(f: seq<Field>, g: seq<Field>, key: string, base: seq<Segment>)
    requires WellFormed(Obj(f)) && WellFormed(Obj(g))
    ensures DistinctPaths(KeyDiffs(f, g, key, base))
    decreases f, 0
  {
    var i, j := Find(f, key), Find(g, key);
    if i >= 0 && j >= 0 {
      DiffsDistinct(f[i].value, g[j].value, base + [Key(key)]);
    }
  }

  lemma SortedAreDifferent(keys: seq<string>)
    requires SortedBy(keys, (k: string) => k)
    ensures DifferentKeys(keys)
  {
    forall i, j | 0 <= i < j < |keys| ensures keys[i] != keys[j] {
      LessIsTotal(keys[i], keys[j]);
    }
  }

  /** No place is listed twice, so the total counts the places where the trees differ. */
  lemma {:induction false} DiffsDistinct(w: Json, r: Json, base: seq<Segment>)
    requires WellFormed(w) && WellFormed(r)
    ensures DistinctPaths(Diffs(w, r, base))
    decreases w, 3
  {
    match (w, r)
    case (Arr(x), Arr(y)) =>
      ArraysDistinct(x, y, base);
    case (Obj(f), Obj(g)) =>
      var keys := SortKeys(UnionKeys(f, g));
      UnionKeysSpec(f, g);
      SortedAreDifferent(keys);
      FieldsDistinct(f, g, keys, base);
    case _ =>
  }

  lemma ArraysDistinct(x: seq<Json>, y: seq<Json>, base: seq<Segment>)
    requires WellFormed(Arr(x)) && WellFormed(Arr(y))
    ensures DistinctPaths(Diffs(Arr(x), Arr(y), base))
    decreases x, |x| + 1
  {
    hide ItemDiffs, WellFormed, Tells;
    var n := if |x| < |y| then |x| else |y|;
    var items := ItemDiffs(x, y, base, n);
    ItemsDistinct(x, y, base, n);
    if |x| != |y| {
      var first := [Entry(ArrayLength, base, Length(|x|), Length(|y|))];
      forall e | e in items ensures e.path != base {
        ItemsTell(x, y, base, n, e);
      }
      JoinDistinct(first, items);
    } else {
      assert [] + items == items;
    }
  }

  /** `summarizeProtocolDiff` */
  method SummarizeDiff(w: Json, r: Json, limit: nat) returns (shown: seq<Entry>, totalCount: nat)
    requires WellFormed(w) && WellFormed(r)
    ensures totalCount == |Diffs(w, r, [])| && shown == FirstOf(Diffs(w, r, []), limit)
    ensures totalCount == 0 <==> Canon(w) == Canon(r)
    ensures totalCount == |Diffs(r, w, [])|
    ensures DistinctPaths(shown) && forall e :: e in shown ==> Tells(w, r, [], e)
    ensures totalCount <= limit ==> forall path :: Difference(w, r, path).Some? ==> exists e :: e in shown && e.path == path
  {
    var log := new DiffLog(limit);
    log.Compare(w, r, []);
    shown, totalCount := log.diffs, log.total;
    assert [] + Diffs(w, r, []) == Diffs(w, r, []);
    NoDiffsIffCanonEqual(w, r, []);
    TotalIsSymmetric(w, r, []);
    ShownAreThePlaces(w, r, limit);
  }

  lemma ShownAreThePlaces(w: Json, r: Json, limit: nat)
    requires WellFormed(w) && WellFormed(r)
    ensures var all := Diffs(w, r, []);
            var shown := FirstOf(all, limit);
            && DistinctPaths(shown) && (forall e :: e in shown ==> Tells(w, r, [], e))
            && (|all| <= limit ==> forall path :: Difference(w, r, path).Some? ==> exists e :: e in shown && e.path == path)
  {
    var all := Diffs(w, r, []);
    var shown := FirstOf(all, limit);
    DiffsDistinct(w, r, []);
    hide Diffs, Tells, Difference, ShownAt;
    forall e | e in shown ensures Tells(w, r, [], e) {
      assert e in all;
      DiffsTell(w, r, [], e);
    }
    if |all| <= limit {
      forall path | Difference(w, r, path).Some? ensures exists e :: e in shown && e.path == path {
        var e := Entry(Difference(w, r, path).value, path, ShownAt(w, path), ShownAt(r, path));
        DiffsTell(w, r, [], e);
        TellsFromRoot(w, r, e);
        assert e in shown;
      }
    }
  }

  lemma TellsFromRoot(w: Json, r: Json, e: Entry)
    ensures Tells(w, r, [], e) <==> Difference(w, r, e.path) == Some(e.kind) && e.walnut == ShownAt(w, e.path) && e.routa == ShownAt(r, e.path)
  {
    assert e.path[..0] == [] && e.path[0..] == e.path;
  }

  /** Two reports of one pair under different limits agree on the total, and the one with the smaller
      limit shows a prefix of what the other shows. */
  method ReportUnderTwoLimits(w: Json, r: Json, small: nat, large: nat)
    returns (few: seq<Entry>, many: seq<Entry>, fewTotal: nat, manyTotal: nat)
    requires WellFormed(w) && WellFormed(r) && small <= large
    ensures fewTotal == manyTotal && few <= many
    ensures |few| == (if small < fewTotal then small else fewTotal)
    ensures |many| == (if large < manyTotal then large else manyTotal)
  {
    few, fewTotal := SummarizeDiff(w, r, small);
    many, manyTotal := SummarizeDiff(w, r, large);
  }
}
