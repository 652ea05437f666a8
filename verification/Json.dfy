/** JSON trees, the key order of `Array.prototype.sort`, and the key-sorted form that
    `sortForJson` builds (scripts/office-wasm-reader/compare-walnut-pptx-protocol.ts). */
module Json {

  datatype Field = Field(key: string, value: Json)

  /** Objects keep their keys in insertion order. */
  datatype Json =
    | Null
    | Bool(b: bool)
    | Num(n: int)
    | Str(s: string)
    | Arr(items: seq<Json>)
    | Obj(fields: seq<Field>)

  ghost predicate DistinctKeys(fields: seq<Field>) {
    forall i, j :: 0 <= i < j < |fields| ==> fields[i].key != fields[j].key
  }

  /** No object of the tree has a key twice. */
  ghost predicate WellFormed(j: Json) {
    match j
    case Arr(items) => forall i :: 0 <= i < |items| ==> WellFormed(items[i])
    case Obj(fields) => DistinctKeys(fields) && forall i :: 0 <= i < |fields| ==> WellFormed(fields[i].value)
    case _ => true
  }

  predicate IsPrimitive(j: Json) {
    !j.Arr? && !j.Obj?
  }

  // ----- the order of keys -----

  /** Keys are compared by UTF-16 code units: characters beyond the basic plane start with a
      surrogate, so they come before U+E000 to U+FFFF. */
  function Rank(c: char): int {
    var code := c as int;
    if code < 0xD800 then code
    else if code >= 0x10000 then code - 0x10000 + 0xD800
    else code + 0x100000
  }

  predicate Less(a: string, b: string) {
    if b == "" then false
    else if a == "" then true
    else if a[0] == b[0] then Less(a[1..], b[1..])
    else Rank(a[0]) < Rank(b[0])
  }

  lemma {:induction false} LessIsTotal(a: string, b: string)
    ensures a == b ==> !Less(a, b)
    ensures a != b ==> (Less(a, b) <==> !Less(b, a))
    decreases |a|
  {
    if a != "" && b != "" && a[0] == b[0] {
      LessIsTotal(a[1..], b[1..]);
      if a != b { assert a == [a[0]] + a[1..] && b == [b[0]] + b[1..]; }
    }
  }

  lemma {:induction false} LessIsTransitive(a: string, b: string, c: string)
    requires Less(a, b) && Less(b, c)
    ensures Less(a, c)
    decreases |a|
  {
    if a != "" && a[0] == b[0] == c[0] {
      LessIsTransitive(a[1..], b[1..], c[1..]);
    }
  }

  // ----- sorting by key -----

  function Insert<T>(x: T, xs: seq<T>, key: T -> string): seq<T> {
    if xs == [] || !Less(key(xs[0]), key(x)) then [x] + xs
    else [xs[0]] + Insert(x, xs[1..], key)
  }

  function Sort<T>(xs: seq<T>, key: T -> string): seq<T> {
    if xs == [] then [] else Insert(xs[0], Sort(xs[1..], key), key)
  }

  ghost predicate SortedBy<T>(xs: seq<T>, key: T -> string) {
    forall i, j :: 0 <= i < j < |xs| ==> Less(key(xs[i]), key(xs[j]))
  }

  ghost predicate DistinctBy<T>(xs: seq<T>, key: T -> string) {
    forall i, j :: 0 <= i < j < |xs| ==> key(xs[i]) != key(xs[j])
  }

  lemma {:induction false} InsertElement<T>(x: T, xs: seq<T>, key: T -> string, y: T)
    ensures y in Insert(x, xs, key) <==> y == x || y in xs
    decreases |xs|
  {
    if xs != [] && Less(key(xs[0]), key(x)) {
      InsertElement(x, xs[1..], key, y);
      assert xs == [xs[0]] + xs[1..];
    }
  }

  lemma {:induction false} SortElement<T>(xs: seq<T>, key: T -> string, y: T)
    ensures y in Sort(xs, key) <==> y in xs
    decreases |xs|
  {
    if xs != [] {
      SortElement(xs[1..], key, y);
      InsertElement(xs[0], Sort(xs[1..], key), key, y);
      assert xs == [xs[0]] + xs[1..];
    }
  }

  lemma {:induction false} InsertSorted<T>(x: T, xs: seq<T>, key: T -> string)
    requires SortedBy(xs, key) && forall i :: 0 <= i < |xs| ==> key(xs[i]) != key(x)
    ensures SortedBy(Insert(x, xs, key), key)
    decreases |xs|
  {
    if xs != [] && Less(key(xs[0]), key(x)) {
      var r := Insert(x, xs[1..], key);
      InsertSorted(x, xs[1..], key);
      forall j | 0 <= j < |r| ensures Less(key(xs[0]), key(r[j])) {
        InsertElement(x, xs[1..], key, r[j]);
        if r[j] != x {
          var k :| 0 <= k < |xs[1..]| && xs[1..][k] == r[j];
          assert xs[k + 1] == r[j];
        }
      }
    } else if xs != [] {
      LessIsTotal(key(x), key(xs[0]));
      forall j | 0 <= j < |xs| ensures Less(key(x), key(xs[j])) {
        if j > 0 { LessIsTransitive(key(x), key(xs[0]), key(xs[j])); }
      }
    }
  }

  lemma {:induction false} SortSorts<T>(xs: seq<T>, key: T -> string)
    requires DistinctBy(xs, key)
    ensures SortedBy(Sort(xs, key), key)
    decreases |xs|
  {
    if xs != [] {
      var rest := Sort(xs[1..], key);
      SortSorts(xs[1..], key);
      forall i | 0 <= i < |rest| ensures key(rest[i]) != key(xs[0]) {
        SortElement(xs[1..], key, rest[i]);
        var k :| 0 <= k < |xs[1..]| && xs[1..][k] == rest[i];
        assert xs[k + 1] == rest[i];
      }
      InsertSorted(xs[0], rest, key);
    }
  }

  /** A sorted sequence is determined by its elements. */
  lemma {:induction false} SortedUnique<T>(xs: seq<T>, ys: seq<T>, key: T -> string)
    requires SortedBy(xs, key) && SortedBy(ys, key)
    requires forall z :: z in xs <==> z in ys
    ensures xs == ys
    decreases |xs|
  {
    assert ys == [] || ys[0] in ys;
    if xs != [] {
      assert xs[0] in ys;
      SameHead(xs, ys, key);
      forall z ensures z in xs[1..] <==> z in ys[1..] {
        TailElement(xs, z, key);
        TailElement(ys, z, key);
      }
      SortedUnique(xs[1..], ys[1..], key);
      assert xs == [xs[0]] + xs[1..] && ys == [ys[0]] + ys[1..];
    }
  }

  lemma SameHead<T>(xs: seq<T>, ys: seq<T>, key: T -> string)
    requires SortedBy(xs, key) && SortedBy(ys, key) && xs != [] && ys != []
    requires xs[0] in ys && ys[0] in xs
    ensures xs[0] == ys[0]
  {
    var i :| 0 <= i < |ys| && ys[i] == xs[0];
    var j :| 0 <= j < |xs| && xs[j] == ys[0];
    LessIsTotal(key(xs[0]), key(ys[0]));
  }

  lemma TailElement<T>(xs: seq<T>, z: T, key: T -> string)
    requires SortedBy(xs, key) && xs != []
    ensures z in xs[1..] <==> z in xs && z != xs[0]
  {
    LessIsTotal(key(xs[0]), key(xs[0]));
    assert xs == [xs[0]] + xs[1..];
    assert forall j :: 1 <= j < |xs| ==> xs[j] == xs[1..][j - 1] && Less(key(xs[0]), key(xs[j]));
  }

  // ----- lookup -----

  /** The index of a key, or -1. */
  function Find(fields: seq<Field>, key: string): (i: int)
    ensures -1 <= i < |fields|
    ensures i >= 0 ==> fields[i].key == key
    ensures i == -1 <==> forall k :: 0 <= k < |fields| ==> fields[k].key != key
  {
    if fields == [] then -1
    else if fields[0].key == key then 0
    else
      var k := Find(fields[1..], key);
      if k == -1 then -1 else k + 1
  }

  function Keys(fields: seq<Field>): (keys: seq<string>)
    ensures |keys| == |fields| && forall i :: 0 <= i < |fields| ==> keys[i] == fields[i].key
  {
    seq(|fields|, i requires 0 <= i < |fields| => fields[i].key)
  }

  function SortKeys(keys: seq<string>): seq<string> {
    Sort(keys, (k: string) => k)
  }

  // ----- the canonical form -----

  /** `sortForJson` */
  function Canon(j: Json): Json {
    match j
    case Arr(items) => Arr(CanonItems(items))
    case Obj(fields) => Obj(Sort(CanonFields(fields), (f: Field) => f.key))
    case _ => j
  }

  function CanonItems(items: seq<Json>): (r: seq<Json>)
    ensures |r| == |items| && forall i :: 0 <= i < |items| ==> r[i] == Canon(items[i])
  {
    if items == [] then [] else [Canon(items[0])] + CanonItems(items[1..])
  }

  function CanonFields(fields: seq<Field>): (r: seq<Field>)
    ensures |r| == |fields| && forall i :: 0 <= i < |fields| ==> r[i] == Field(fields[i].key, Canon(fields[i].value))
  {
    if fields == [] then [] else [Field(fields[0].key, Canon(fields[0].value))] + CanonFields(fields[1..])
  }

  // ----- equality of JSON values -----

  ghost predicate SameKeys(a: seq<Field>, b: seq<Field>) {
    && (forall i :: 0 <= i < |a| ==> Find(b, a[i].key) >= 0)
    && (forall i :: 0 <= i < |b| ==> Find(a, b[i].key) >= 0)
  }

  /** Two trees are the same value: arrays item by item, objects as unordered tables. */
  ghost predicate Same(a: Json, b: Json)
    decreases a
  {
    match (a, b)
    case (Arr(x), Arr(y)) => |x| == |y| && forall i :: 0 <= i < |x| ==> Same(x[i], y[i])
    case (Obj(f), Obj(g)) =>
      SameKeys(f, g) && forall i :: 0 <= i < |f| && Find(g, f[i].key) >= 0 ==> Same(f[i].value, g[Find(g, f[i].key)].value)
    case _ => a == b && IsPrimitive(a)
  }

  lemma CanonKeysSorted(fields: seq<Field>)
    requires DistinctKeys(fields)
    ensures SortedBy(Canon(Obj(fields)).fields, (f: Field) => f.key)
    ensures forall g :: g in Canon(Obj(fields)).fields <==> g in CanonFields(fields)
  {
    var key := (f: Field) => f.key;
    assert DistinctBy(CanonFields(fields), key);
    SortSorts(CanonFields(fields), key);
    forall g: Field ensures g in Sort(CanonFields(fields), key) <==> g in CanonFields(fields) {
      SortElement(CanonFields(fields), key, g);
    }
  }

  /** Canonical forms are equal exactly when the trees are the same value. */
  lemma {:induction false} CanonDecides(a: Json, b: Json)
    requires WellFormed(a) && WellFormed(b)
    ensures Canon(a) == Canon(b) <==> Same(a, b)
    decreases a
  {
    match (a, b)
    case (Arr(x), Arr(y)) =>
      if |x| == |y| {
        forall i | 0 <= i < |x| ensures Canon(x[i]) == Canon(y[i]) <==> Same(x[i], y[i]) {
          CanonDecides(x[i], y[i]);
        }
      }
    case (Obj(f), Obj(g)) =>
      forall i | 0 <= i < |f| && Find(g, f[i].key) >= 0
        ensures Canon(f[i].value) == Canon(g[Find(g, f[i].key)].value) <==> Same(f[i].value, g[Find(g, f[i].key)].value)
      {
        CanonDecides(f[i].value, g[Find(g, f[i].key)].value);
      }
      CanonKeysSorted(f);
      CanonKeysSorted(g);
      if Canon(a) == Canon(b) {
        CanonEqualIsSame(f, g);
      }
      if Same(a, b) {
        SameIsCanonEqual(f, g);
        SortedUnique(Canon(a).fields, Canon(b).fields, (h: Field) => h.key);
      }
    case _ =>
  }

  lemma FindDistinct(fields: seq<Field>, i: int)
    requires DistinctKeys(fields) && 0 <= i < |fields|
    ensures Find(fields, fields[i].key) == i
  {
  }

  lemma CanonEqualIsSame(f: seq<Field>, g: seq<Field>)
    requires DistinctKeys(f) && DistinctKeys(g)
    requires forall h :: h in CanonFields(f) <==> h in CanonFields(g)
    ensures SameKeys(f, g)
    ensures forall i :: 0 <= i < |f| && Find(g, f[i].key) >= 0 ==> Canon(f[i].value) == Canon(g[Find(g, f[i].key)].value)
  {
    forall i | 0 <= i < |f|
      ensures Find(g, f[i].key) >= 0 && Canon(f[i].value) == Canon(g[Find(g, f[i].key)].value)
    {
      assert CanonFields(f)[i] in CanonFields(g);
      var k :| 0 <= k < |g| && CanonFields(g)[k] == CanonFields(f)[i];
      FindDistinct(g, k);
    }
    forall i | 0 <= i < |g| ensures Find(f, g[i].key) >= 0 {
      assert CanonFields(g)[i] in CanonFields(f);
      var k :| 0 <= k < |f| && CanonFields(f)[k] == CanonFields(g)[i];
    }
  }

  lemma SameIsCanonEqual(f: seq<Field>, g: seq<Field>)
    requires DistinctKeys(f) && DistinctKeys(g) && SameKeys(f, g)
    requires forall i :: 0 <= i < |f| && Find(g, f[i].key) >= 0 ==> Canon(f[i].value) == Canon(g[Find(g, f[i].key)].value)
    ensures forall h :: h in CanonFields(f) <==> h in CanonFields(g)
  {
    forall h | h in CanonFields(f) ensures h in CanonFields(g) {
      var i :| 0 <= i < |f| && CanonFields(f)[i] == h;
      assert CanonFields(g)[Find(g, f[i].key)] == h;
    }
    forall h | h in CanonFields(g) ensures h in CanonFields(f) {
      var k :| 0 <= k < |g| && CanonFields(g)[k] == h;
      var i := Find(f, g[k].key);
      FindDistinct(g, k);
      assert CanonFields(f)[i] == h;
    }
  }
}
