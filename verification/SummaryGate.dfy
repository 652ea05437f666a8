/** What the tolerant equality of module SummaryEquality accepts, exactly, and what it means for two
    presentations to pass the bounding-box gate
    (scripts/office-wasm-reader/compare-walnut-pptx-protocol.ts). */
module SummaryGate {
  import opened Options
  import opened Json
  import opened SummaryEquality

  // ----- exact equality but for the bounding-box lengths -----

  /** The tree with exactly the numbers blanked that stand at a bounding-box length. */
  function Erase(j: Json, path: seq<string>): Json
    decreases j
  {
    match j
    case Num(_) => if IsBboxLength(path) then Num(0) else j
    case Arr(items) => Arr(EraseItems(items, path))
    case Obj(fields) => Obj(EraseFields(fields, path))
    case _ => j
  }

  function EraseItems(items: seq<Json>, path: seq<string>): (r: seq<Json>)
    ensures |r| == |items| && forall i :: 0 <= i < |items| ==> r[i] == Erase(items[i], path + [Decimal(i)])
    decreases items
  {
    if items == [] then []
    else
      var last := |items| - 1;
      EraseItems(items[..last], path) + [Erase(items[last], path + [Decimal(last)])]
  }

  function EraseFields(fields: seq<Field>, path: seq<string>): (r: seq<Field>)
    ensures |r| == |fields|
    ensures forall i :: 0 <= i < |fields| ==> r[i] == Field(fields[i].key, Erase(fields[i].value, path + [fields[i].key]))
    decreases fields
  {
    if fields == [] then []
    else [Field(fields[0].key, Erase(fields[0].value, path + [fields[0].key]))] + EraseFields(fields[1..], path)
  }

  /** Numbers at the same bounding-box length differ by at most 1000. */
  ghost predicate Close(l: Json, r: Json, path: seq<string>)
    decreases l
  {
    match (l, r)
    case (Num(m), Num(n)) => IsBboxLength(path) ==> Abs(m - n) <= 1000
    case (Arr(x), Arr(y)) => forall i :: 0 <= i < |x| && i < |y| ==> Close(x[i], y[i], path + [Decimal(i)])
    case (Obj(f), Obj(g)) =>
      forall i :: 0 <= i < |f| && Find(g, f[i].key) >= 0 ==> Close(f[i].value, g[Find(g, f[i].key)].value, path + [f[i].key])
    case _ => true
  }

  lemma {:induction false} SameFind(f: seq<Field>, g: seq<Field>, key: string)
    requires |f| == |g| && forall i :: 0 <= i < |f| ==> f[i].key == g[i].key
    ensures Find(f, key) == Find(g, key)
    decreases |f|
  {
    if f != [] {
      SameFind(f[1..], g[1..], key);
    }
  }

  lemma ErasedFind(fields: seq<Field>, path: seq<string>, key: string)
    ensures Find(EraseFields(fields, path), key) == Find(fields, key)
  {
    SameFind(EraseFields(fields, path), fields, key);
  }

  /** Blanking keeps the keys, where they stand and which of them `g` has. */
  lemma ErasedFields(f: seq<Field>, g: seq<Field>, path: seq<string>)
    ensures forall i :: 0 <= i < |f| ==>
              && EraseFields(f, path)[i] == Field(f[i].key, Erase(f[i].value, path + [f[i].key]))
              && Find(EraseFields(g, path), f[i].key) == Find(g, f[i].key)
  {
    forall i | 0 <= i < |f| ensures Find(EraseFields(g, path), f[i].key) == Find(g, f[i].key) {
      ErasedFind(g, path, f[i].key);
    }
  }

  lemma ErasedKeys(f: seq<Field>, g: seq<Field>, path: seq<string>)
    ensures SameKeys(EraseFields(f, path), EraseFields(g, path)) <==> SameKeys(f, g)
  {
    ErasedFields(f, g, path);
    ErasedFields(g, f, path);
    hide Erase, EraseFields;
    var ef, eg := EraseFields(f, path), EraseFields(g, path);
    if SameKeys(ef, eg) {
      forall i | 0 <= i < |f| ensures Find(g, f[i].key) >= 0 { assert Find(eg, ef[i].key) >= 0; }
      forall i | 0 <= i < |g| ensures Find(f, g[i].key) >= 0 { assert Find(ef, eg[i].key) >= 0; }
    }
  }

  /** The tolerant equality accepts exactly the trees that are the same value once the bounding-box
      lengths are blanked, and whose lengths differ by at most 1000 where they stand. */
  lemma {:induction false} SummaryEqualIff(l: Json, r: Json, path: seq<string>)
    requires WellFormed(l) && WellFormed(r)
    ensures SummaryEqual(l, r, path) <==> Same(Erase(l, path), Erase(r, path)) && Close(l, r, path)
    decreases l, 0
  {
    match (l, r)
    case (Arr(x), Arr(y)) => ArraysIff(x, y, path);
    case (Obj(f), Obj(g)) => ObjectsIff(f, g, path);
    case _ =>
  }

  lemma ArraysIff(x: seq<Json>, y: seq<Json>, path: seq<string>)
    requires WellFormed(Arr(x)) && WellFormed(Arr(y))
    ensures var l, r := Arr(x), Arr(y);
            SummaryEqual(l, r, path) <==> Same(Erase(l, path), Erase(r, path)) && Close(l, r, path)
    decreases x
  {
    ErasedArray(x, path);
    ErasedArray(y, path);
    hide Erase, EraseItems;
    var ex, ey := EraseItems(x, path), EraseItems(y, path);
    if |x| == |y| {
      forall i | 0 <= i < |x|
        ensures SummaryEqual(x[i], y[i], path + [Decimal(i)]) <==> Same(ex[i], ey[i]) && Close(x[i], y[i], path + [Decimal(i)])
      {
        SummaryEqualIff(x[i], y[i], path + [Decimal(i)]);
      }
    }
  }

  lemma ErasedArray(x: seq<Json>, path: seq<string>)
    ensures Erase(Arr(x), path) == Arr(EraseItems(x, path))
  {
    var j := Arr(x);
    assert j.items == x;
  }

  /** The value in `g` of the key of `f[i]`. */
  function Partner(f: seq<Field>, g: seq<Field>, i: nat): Json
    requires i < |f|
  {
    if Find(g, f[i].key) >= 0 then g[Find(g, f[i].key)].value else Null
  }

  ghost predicate FieldEqual(f: seq<Field>, g: seq<Field>, path: seq<string>, i: nat)
    requires i < |f|
  {
    SummaryEqual(f[i].value, Partner(f, g, i), path + [f[i].key])
  }

  ghost predicate FieldSame(f: seq<Field>, g: seq<Field>, path: seq<string>, i: nat)
    requires i < |f|
  {
    Same(Erase(f[i].value, path + [f[i].key]), Erase(Partner(f, g, i), path + [f[i].key]))
  }

  ghost predicate FieldClose(f: seq<Field>, g: seq<Field>, path: seq<string>, i: nat)
    requires i < |f|
  {
    Close(f[i].value, Partner(f, g, i), path + [f[i].key])
  }

  lemma ObjectsEqual(f: seq<Field>, g: seq<Field>, path: seq<string>)
    requires DistinctKeys(f) && DistinctKeys(g)
    ensures SummaryEqual(Obj(f), Obj(g), path) <==> SameKeys(f, g) && forall i :: 0 <= i < |f| ==> FieldEqual(f, g, path, i)
  {
    SortedKeysAgree(f, g);
    hide SortKeys, Keys, SameKeys;
    if SameKeys(f, g) {
      KeysFound(f, g);
      if SummaryEqual(Obj(f), Obj(g), path) {
        forall i | 0 <= i < |f| ensures FieldEqual(f, g, path, i) {
          assert Find(g, f[i].key) >= 0 && SummaryEqual(f[i].value, g[Find(g, f[i].key)].value, path + [f[i].key]);
        }
      } else {
        assert exists i :: 0 <= i < |f| && !SummaryEqual(f[i].value, g[Find(g, f[i].key)].value, path + [f[i].key]);
        var i :| 0 <= i < |f| && !SummaryEqual(f[i].value, g[Find(g, f[i].key)].value, path + [f[i].key]);
        assert !FieldEqual(f, g, path, i);
      }
    }
  }

  lemma ObjectsSame(f: seq<Field>, g: seq<Field>, path: seq<string>)
    ensures Same(Erase(Obj(f), path), Erase(Obj(g), path)) <==>
            SameKeys(f, g) && forall i :: 0 <= i < |f| ==> FieldSame(f, g, path, i)
  {
    var ef, eg := EraseFields(f, path), EraseFields(g, path);
    ErasedObject(f, path);
    ErasedObject(g, path);
    ErasedKeys(f, g, path);
    SameByFields(ef, eg);
    hide Erase, EraseFields, Same, SameKeys, SameField;
    forall i | 0 <= i < |f| ensures SameKeys(f, g) ==> (FieldSame(f, g, path, i) <==> SameField(ef, eg, i)) {
      ErasedField(f, g, path, i);
    }
  }

  ghost predicate SameField(f: seq<Field>, g: seq<Field>, i: nat)
    requires i < |f|
  {
    Same(f[i].value, Partner(f, g, i))
  }

  lemma SameByFields(f: seq<Field>, g: seq<Field>)
    ensures Same(Obj(f), Obj(g)) <==> SameKeys(f, g) && forall i :: 0 <= i < |f| ==> SameField(f, g, i)
  {
    if SameKeys(f, g) {
      KeysFound(f, g);
      hide SameKeys;
      forall i | 0 <= i < |f| ensures SameField(f, g, i) <==> Same(f[i].value, g[Find(g, f[i].key)].value) {
      }
    }
  }

  lemma ErasedField(f: seq<Field>, g: seq<Field>, path: seq<string>, i: nat)
    requires i < |f|
    ensures SameKeys(f, g) ==> (FieldSame(f, g, path, i) <==> SameField(EraseFields(f, path), EraseFields(g, path), i))
  {
    ErasedFields(f, g, path);
    if SameKeys(f, g) {
      KeysFound(f, g);
    }
  }

  lemma ErasedObject(f: seq<Field>, path: seq<string>)
    ensures Erase(Obj(f), path) == Obj(EraseFields(f, path))
  {
    var j := Obj(f);
    assert j.fields == f;
  }

  lemma ObjectsClose(f: seq<Field>, g: seq<Field>, path: seq<string>)
    requires SameKeys(f, g)
    ensures Close(Obj(f), Obj(g), path) <==> forall i :: 0 <= i < |f| ==> FieldClose(f, g, path, i)
  {
    KeysFound(f, g);
    if Close(Obj(f), Obj(g), path) {
      forall i | 0 <= i < |f| ensures FieldClose(f, g, path, i) {
        assert Close(f[i].value, g[Find(g, f[i].key)].value, path + [f[i].key]);
      }
    }
    if forall i :: 0 <= i < |f| ==> FieldClose(f, g, path, i) {
      forall i | 0 <= i < |f| && Find(g, f[i].key) >= 0
        ensures Close(f[i].value, g[Find(g, f[i].key)].value, path + [f[i].key])
      {
        assert FieldClose(f, g, path, i);
      }
    }
  }

  lemma ObjectsIff(f: seq<Field>, g: seq<Field>, path: seq<string>)
    requires WellFormed(Obj(f)) && WellFormed(Obj(g))
    ensures var l, r := Obj(f), Obj(g);
            SummaryEqual(l, r, path) <==> Same(Erase(l, path), Erase(r, path)) && Close(l, r, path)
    decreases f, 1
  {
    hide SummaryEqual, Same, Erase, Close, SameKeys, FieldEqual, FieldSame, FieldClose;
    ObjectsEqual(f, g, path);
    ObjectsSame(f, g, path);
    if SameKeys(f, g) {
      ObjectsClose(f, g, path);
      forall i | 0 <= i < |f| ensures FieldEqual(f, g, path, i) <==> FieldSame(f, g, path, i) && FieldClose(f, g, path, i) {
        FieldIff(f, g, path, i);
      }
    }
  }

  lemma FieldIff(f: seq<Field>, g: seq<Field>, path: seq<string>, i: nat)
    requires WellFormed(Obj(f)) && WellFormed(Obj(g)) && SameKeys(f, g) && i < |f|
    ensures FieldEqual(f, g, path, i) <==> FieldSame(f, g, path, i) && FieldClose(f, g, path, i)
    decreases f, 0
  {
    hide SummaryEqual, Same, Erase, Close;
    KeysFound(f, g);
    SummaryEqualIff(f[i].value, Partner(f, g, i), path + [f[i].key]);
  }

  lemma KeysFound(f: seq<Field>, g: seq<Field>)
    requires SameKeys(f, g)
    ensures forall i :: 0 <= i < |f| ==> Find(g, f[i].key) >= 0
  {
  }

  // ----- trees without bounding boxes -----

  /** No object of the tree has the key "bbox". */
  ghost predicate NoBbox(j: Json) {
    match j
    case Arr(items) => forall i :: 0 <= i < |items| ==> NoBbox(items[i])
    case Obj(fields) => forall i :: 0 <= i < |fields| ==> fields[i].key != "bbox" && NoBbox(fields[i].value)
    case _ => true
  }

  lemma {:induction false} DigitsStart(n: nat)
    ensures Digits(n) != "" && '0' <= Digits(n)[0] <= '9'
  {
    if n >= 10 {
      DigitsStart(n / 10);
    }
  }

  lemma IndexIsNoKey(i: nat)
    ensures Decimal(i) != "bbox"
  {
    DigitsStart(i);
    assert "bbox"[0] == 'b';
  }

  /** Away from bounding boxes nothing is blanked and nothing is tolerated. */
  lemma {:induction false} NothingErased(l: Json, r: Json, path: seq<string>)
    requires "bbox" !in path && NoBbox(l)
    ensures Erase(l, path) == l && Close(l, r, path)
    decreases l
  {
    match l
    case Arr(x) =>
      forall i | 0 <= i < |x| ensures Erase(x[i], path + [Decimal(i)]) == x[i] {
        IndexIsNoKey(i);
        NothingErased(x[i], Null, path + [Decimal(i)]);
      }
      assert EraseItems(x, path) == x;
      if r.Arr? {
        forall i | 0 <= i < |x| && i < |r.items| ensures Close(x[i], r.items[i], path + [Decimal(i)]) {
          IndexIsNoKey(i);
          NothingErased(x[i], r.items[i], path + [Decimal(i)]);
        }
      }
    case Obj(f) =>
      forall i | 0 <= i < |f| ensures Erase(f[i].value, path + [f[i].key]) == f[i].value {
        NothingErased(f[i].value, Null, path + [f[i].key]);
      }
      assert EraseFields(f, path) == f;
      if r.Obj? {
        forall i | 0 <= i < |f| && Find(r.fields, f[i].key) >= 0
          ensures Close(f[i].value, r.fields[Find(r.fields, f[i].key)].value, path + [f[i].key])
        {
          NothingErased(f[i].value, r.fields[Find(r.fields, f[i].key)].value, path + [f[i].key]);
        }
      }
    case _ =>
  }

  /** On trees without bounding boxes the tolerant equality is equality of values. */
  lemma WithoutBboxIsSame(l: Json, r: Json, path: seq<string>)
    requires WellFormed(l) && WellFormed(r) && NoBbox(l) && NoBbox(r) && "bbox" !in path
    ensures SummaryEqual(l, r, path) <==> Same(l, r)
  {
    SummaryEqualIff(l, r, path);
    NothingErased(l, r, path);
    NothingErased(r, l, path);
  }

  // ----- the bounding-box gate -----

  /** The numbers of two bounding boxes: lengths within 1000, the rotation equal. */
  predicate BoxesClose(a: Json, b: Json) {
    && (forall k | 0 <= k < |BBOX_KEYS| :: Abs(NumberValue(Get(a, BBOX_KEYS[k])) - NumberValue(Get(b, BBOX_KEYS[k]))) <= 1000)
    && NumberValue(Get(a, "rotation")) == NumberValue(Get(b, "rotation"))
  }

  /** Two elements the gate takes for one another: equal id and name, both without type or with types
      equal under the tolerance, boxes close. */
  predicate ElementsMatch(a: Json, b: Json, path: seq<string>) {
    && StringValue(Get(a, "id")) == StringValue(Get(b, "id"))
    && StringValue(Get(a, "name")) == StringValue(Get(b, "name"))
    && Get(a, "type").Some? == Get(b, "type").Some?
    && (Get(a, "type").Some? ==> SummaryEqual(Get(a, "type").value, Get(b, "type").value, path + ["type"]))
    && BoxesClose(BboxOf(a), BboxOf(b))
  }

  /** Two object literals with the same keys are equal exactly when their values are, one by one. */
  lemma LabelledIff(keys: seq<string>, values: seq<Json>, others: seq<Json>, path: seq<string>)
    requires |keys| == |values| == |others| && Distinct(keys)
    ensures SummaryEqual(Obj(Labelled(keys, values)), Obj(Labelled(keys, others)), path) <==>
            forall i :: 0 <= i < |keys| ==> SummaryEqual(values[i], others[i], path + [keys[i]])
  {
    var f, g := Labelled(keys, values), Labelled(keys, others);
    forall i | 0 <= i < |keys| ensures f[i].key == keys[i] && Find(g, keys[i]) == i {
      LabelledFind(keys, others, i);
    }
    assert Keys(f) == Keys(g);
    hide SortKeys, Keys, Labelled;
    assert |f| == |keys|;
  }

  lemma BoxIff(a: Json, b: Json, path: seq<string>)
    requires "bbox" in path
    ensures SummaryEqual(SummarizeBox(a, Identity()), SummarizeBox(b, Identity()), path) <==> BoxesClose(a, b)
  {
    KeysDistinct();
    var va, vb := BoxValues(a, Identity()), BoxValues(b, Identity());
    LabelledIff(BOX_KEYS, va, vb, path);
    forall i | 0 <= i < |BOX_KEYS|
      ensures SummaryEqual(va[i], vb[i], path + [BOX_KEYS[i]]) <==> NumbersAgree(a, b, BOX_KEYS[i])
    {
      NumbersIff(a, b, path, BOX_KEYS[i], va[i], vb[i]);
    }
    hide SummaryEqual, BoxValues, Labelled;
    AllNumbers(a, b);
  }

  predicate NumbersAgree(a: Json, b: Json, key: string) {
    var m, n := NumberValue(Get(a, key)), NumberValue(Get(b, key));
    if key in BBOX_KEYS then Abs(m - n) <= 1000 else m == n
  }

  lemma AllNumbers(a: Json, b: Json)
    ensures BoxesClose(a, b) <==> forall i :: 0 <= i < |BOX_KEYS| ==> NumbersAgree(a, b, BOX_KEYS[i])
  {
    KeyPlaces();
    hide NumberValue, Get;
    if BoxesClose(a, b) {
      forall i | 0 <= i < |BOX_KEYS| ensures NumbersAgree(a, b, BOX_KEYS[i]) {
        assert BOX_KEYS[i] in BBOX_KEYS ==> exists k :: 0 <= k < |BBOX_KEYS| && BBOX_KEYS[k] == BOX_KEYS[i];
      }
    }
    if forall i :: 0 <= i < |BOX_KEYS| ==> NumbersAgree(a, b, BOX_KEYS[i]) {
      assert NumbersAgree(a, b, BOX_KEYS[1]);
      forall k | 0 <= k < |BBOX_KEYS|
        ensures Abs(NumberValue(Get(a, BBOX_KEYS[k])) - NumberValue(Get(b, BBOX_KEYS[k]))) <= 1000
      {
        var i :| 0 <= i < |BOX_KEYS| && BOX_KEYS[i] == BBOX_KEYS[k];
        assert NumbersAgree(a, b, BOX_KEYS[i]);
      }
    }
  }

  /** The box's numbers are the four lengths and the rotation. */
  lemma KeyPlaces()
    ensures BOX_KEYS[1] == "rotation" && "rotation" !in BBOX_KEYS
    ensures forall i :: 0 <= i < |BOX_KEYS| && i != 1 ==> BOX_KEYS[i] in BBOX_KEYS
    ensures forall k :: 0 <= k < |BBOX_KEYS| ==> exists i :: 0 <= i < |BOX_KEYS| && BOX_KEYS[i] == BBOX_KEYS[k]
  {
    assert BBOX_KEYS[0] == BOX_KEYS[0] && BBOX_KEYS[1] == BOX_KEYS[2] && BBOX_KEYS[2] == BOX_KEYS[3] && BBOX_KEYS[3] == BOX_KEYS[4];
  }

  lemma NumbersIff(a: Json, b: Json, path: seq<string>, key: string, ma: Json, mb: Json)
    requires "bbox" in path && ma == Num(NumberValue(Get(a, key))) && mb == Num(NumberValue(Get(b, key)))
    ensures SummaryEqual(ma, mb, path + [key]) <==> NumbersAgree(a, b, key)
  {
    assert (path + [key])[|path|] == key;
  }

  lemma TextsIff(s: string, t: string, path: seq<string>)
    ensures SummaryEqual(Str(s), Str(t), path) <==> s == t
  {
  }

  lemma TypedByParts(values: seq<Json>, others: seq<Json>, path: seq<string>)
    requires |values| == |others| == |TYPED_KEYS|
    ensures SummaryEqual(Obj(Labelled(TYPED_KEYS, values)), Obj(Labelled(TYPED_KEYS, others)), path) <==>
            && SummaryEqual(values[0], others[0], path + ["id"])
            && SummaryEqual(values[1], others[1], path + ["name"])
            && SummaryEqual(values[2], others[2], path + ["type"])
            && SummaryEqual(values[3], others[3], path + ["bbox"])
  {
    KeysDistinct();
    LabelledIff(TYPED_KEYS, values, others, path);
  }

  lemma UntypedByParts(values: seq<Json>, others: seq<Json>, path: seq<string>)
    requires |values| == |others| == |UNTYPED_KEYS|
    ensures SummaryEqual(Obj(Labelled(UNTYPED_KEYS, values)), Obj(Labelled(UNTYPED_KEYS, others)), path) <==>
            && SummaryEqual(values[0], others[0], path + ["id"])
            && SummaryEqual(values[1], others[1], path + ["name"])
            && SummaryEqual(values[2], others[2], path + ["bbox"])
  {
    KeysDistinct();
    LabelledIff(UNTYPED_KEYS, values, others, path);
  }

  lemma TypedIff(a: Json, b: Json, path: seq<string>)
    requires Get(a, "type").Some? && Get(b, "type").Some?
    ensures SummaryEqual(SummarizeBboxExact(a), SummarizeBboxExact(b), path) <==> ElementsMatch(a, b, path)
  {
    var va, vb := TypedValues(a), TypedValues(b);
    hide SummarizeBox, BoxesClose, Labelled, SummaryEqual, StringValue, BboxOf, SummarizeWith;
    TypedForm(a, Identity());
    TypedForm(b, Identity());
    hide Get;
    TypedByParts(va, vb, path);
    BoxIff(BboxOf(a), BboxOf(b), path + ["bbox"]);
    TextsIff(StringValue(Get(a, "id")), StringValue(Get(b, "id")), path + ["id"]);
    TextsIff(StringValue(Get(a, "name")), StringValue(Get(b, "name")), path + ["name"]);
  }

  function TypedValues(a: Json): (values: seq<Json>)
    requires Get(a, "type").Some?
    ensures |values| == |TYPED_KEYS|
  {
    [ Str(StringValue(Get(a, "id"))), Str(StringValue(Get(a, "name"))), Get(a, "type").value,
      SummarizeBox(BboxOf(a), Identity()) ]
  }

  function UntypedValues(a: Json): (values: seq<Json>)
    ensures |values| == |UNTYPED_KEYS|
  {
    [Str(StringValue(Get(a, "id"))), Str(StringValue(Get(a, "name"))), SummarizeBox(BboxOf(a), Identity())]
  }

  lemma UntypedIff(a: Json, b: Json, path: seq<string>)
    requires Get(a, "type").None? && Get(b, "type").None?
    ensures SummaryEqual(SummarizeBboxExact(a), SummarizeBboxExact(b), path) <==> ElementsMatch(a, b, path)
  {
    var va, vb := UntypedValues(a), UntypedValues(b);
    hide SummarizeBox, BoxesClose, Labelled, SummaryEqual, StringValue, Get, BboxOf;
    UntypedByParts(va, vb, path);
    BoxIff(BboxOf(a), BboxOf(b), path + ["bbox"]);
    TextsIff(StringValue(Get(a, "id")), StringValue(Get(b, "id")), path + ["id"]);
    TextsIff(StringValue(Get(a, "name")), StringValue(Get(b, "name")), path + ["name"]);
  }

  /** A summary with a type is never taken for one without. */
  lemma TypeMissing(values: seq<Json>, others: seq<Json>, path: seq<string>)
    requires |values| == |TYPED_KEYS| && |others| == |UNTYPED_KEYS|
    ensures !SummaryEqual(Obj(Labelled(TYPED_KEYS, values)), Obj(Labelled(UNTYPED_KEYS, others)), path)
    ensures !SummaryEqual(Obj(Labelled(UNTYPED_KEYS, others)), Obj(Labelled(TYPED_KEYS, values)), path)
  {
    KeysDistinct();
    var f, g := Labelled(TYPED_KEYS, values), Labelled(UNTYPED_KEYS, others);
    SortedKeysAgree(f, g);
    assert f[2].key == TYPED_KEYS[2] == "type";
    assert forall i :: 0 <= i < |g| ==> g[i].key == UNTYPED_KEYS[i] && UNTYPED_KEYS[i] != "type";
    assert Find(g, f[2].key) == -1;
  }

  /** The gate takes two elements for one another exactly when they match. */
  lemma ElementsMatchIff(a: Json, b: Json, path: seq<string>)
    ensures SummaryEqual(SummarizeBboxExact(a), SummarizeBboxExact(b), path) <==> ElementsMatch(a, b, path)
  {
    if Get(a, "type").Some? == Get(b, "type").Some? {
      if Get(a, "type").Some? { TypedIff(a, b, path); } else { UntypedIff(a, b, path); }
    } else if Get(a, "type").Some? {
      TypeMissing(TypedValues(a), UntypedValues(b), path);
    } else {
      TypeMissing(TypedValues(b), UntypedValues(a), path);
    }
  }

  /** The bounding-box gate passes exactly when every slide has as many elements on both sides and
      they match one by one. */
  lemma GateIff(w: seq<Json>, r: seq<Json>, n: nat)
    ensures SlidesMatch(w, r, SummarizeBboxExact, n) <==>
            forall i :: 0 <= i < n ==> SlideMatches(ElementsOf(w, i), ElementsOf(r, i))
  {
    hide SummaryEqual, Summaries, SlideMatches;
    forall i | 0 <= i < n
      ensures SummaryEqual(Arr(Summaries(w, i, SummarizeBboxExact)), Arr(Summaries(r, i, SummarizeBboxExact)), []) <==>
              SlideMatches(ElementsOf(w, i), ElementsOf(r, i))
    {
      BboxSummariesStay(w, i);
      BboxSummariesStay(r, i);
      SlideIff(ElementsOf(w, i), ElementsOf(r, i));
    }
  }

  predicate SlideMatches(x: seq<Json>, y: seq<Json>) {
    |x| == |y| && forall k | 0 <= k < |x| :: ElementsMatch(x[k], y[k], [Decimal(k)])
  }

  lemma SlideIff(x: seq<Json>, y: seq<Json>)
    ensures SummaryEqual(Arr(Mapped(x, SummarizeBboxExact)), Arr(Mapped(y, SummarizeBboxExact)), []) <==> SlideMatches(x, y)
  {
    hide SummarizeBboxExact, ElementsMatch;
    var ex, ey := Mapped(x, SummarizeBboxExact), Mapped(y, SummarizeBboxExact);
    if |x| == |y| {
      forall k | 0 <= k < |x|
        ensures SummaryEqual(ex[k], ey[k], [] + [Decimal(k)]) <==> ElementsMatch(x[k], y[k], [Decimal(k)])
      {
        assert [] + [Decimal(k)] == [Decimal(k)];
        ElementsMatchIff(x[k], y[k], [Decimal(k)]);
      }
    }
  }

  /** Where no type holds a bounding box, types that pass are the same value. */
  lemma TypesAreSame(a: Json, b: Json, k: nat)
    requires WellFormed(a) && WellFormed(b) && ElementsMatch(a, b, [Decimal(k)]) && Get(a, "type").Some?
    requires NoBbox(Get(a, "type").value) && NoBbox(Get(b, "type").value)
    ensures Same(Get(a, "type").value, Get(b, "type").value)
  {
    IndexIsNoKey(k);
    assert "bbox"[0] == 'b' && "type"[0] == 't';
    WithoutBboxIsSame(Get(a, "type").value, Get(b, "type").value, [Decimal(k)] + ["type"]);
  }
}
