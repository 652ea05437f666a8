/** The tolerant equality behind the parity gates, the rounding behind the diff lists, and how the
    two fit (scripts/office-wasm-reader/compare-walnut-pptx-protocol.ts). */
module SummaryEquality {
  import opened Options
  import opened Json

  const TOLERANCE_EMU := 1000
  const BBOX_KEYS := ["heightEmu", "widthEmu", "xEmu", "yEmu"]

  function Digits(n: nat): string {
    var digit := ['0', '1', '2', '3', '4', '5', '6', '7', '8', '9'][n % 10];
    if n < 10 then [digit] else Digits(n / 10) + [digit]
  }

  /** `String(n)` of an integer. */
  function Decimal(n: int): string {
    if n < 0 then "-" + Digits(-n) else Digits(n)
  }

  function Abs(n: int): nat {
    if n < 0 then -n else n
  }

  predicate IsBboxLength(path: seq<string>) {
    "bbox" in path && path[|path| - 1] in BBOX_KEYS
  }

  /** `semanticSummaryEqual` */
  predicate SummaryEqual(left: Json, right: Json, path: seq<string>)
    decreases left
  {
    if IsPrimitive(left) && left == right then true
    else
      match (left, right)
      case (Num(m), Num(n)) => IsBboxLength(path) && Abs(m - n) <= TOLERANCE_EMU
      case (Arr(x), Arr(y)) =>
        |x| == |y| && forall i | 0 <= i < |x| :: SummaryEqual(x[i], y[i], path + [Decimal(i)])
      case (Obj(f), Obj(g)) =>
        && SortKeys(Keys(f)) == SortKeys(Keys(g))
        && forall i | 0 <= i < |f| :: Find(g, f[i].key) >= 0
             && SummaryEqual(f[i].value, g[Find(g, f[i].key)].value, path + [f[i].key])
      case _ => false
  }

  lemma SortedKeysAgree(f: seq<Field>, g: seq<Field>)
    requires DistinctKeys(f) && DistinctKeys(g)
    ensures SortKeys(Keys(f)) == SortKeys(Keys(g)) <==> SameKeys(f, g)
  {
    var id := (k: string) => k;
    forall k: string ensures k in SortKeys(Keys(f)) <==> Find(f, k) >= 0 { KeyListed(f, k); }
    forall k: string ensures k in SortKeys(Keys(g)) <==> Find(g, k) >= 0 { KeyListed(g, k); }
    if SortKeys(Keys(f)) == SortKeys(Keys(g)) {
      forall i | 0 <= i < |f| ensures Find(g, f[i].key) >= 0 { FindDistinct(f, i); }
      forall i | 0 <= i < |g| ensures Find(f, g[i].key) >= 0 { FindDistinct(g, i); }
    }
    if SameKeys(f, g) {
      assert DistinctBy(Keys(f), id) && DistinctBy(Keys(g), id);
      SortSorts(Keys(f), id);
      SortSorts(Keys(g), id);
      forall k: string ensures k in SortKeys(Keys(f)) <==> k in SortKeys(Keys(g)) {
        if Find(f, k) >= 0 { assert f[Find(f, k)].key == k; }
        if Find(g, k) >= 0 { assert g[Find(g, k)].key == k; }
      }
      SortedUnique(SortKeys(Keys(f)), SortKeys(Keys(g)), id);
    }
  }

  lemma KeyListed(f: seq<Field>, k: string)
    ensures k in SortKeys(Keys(f)) <==> Find(f, k) >= 0
  {
    SortElement(Keys(f), (k: string) => k, k);
    if Find(f, k) >= 0 { assert Keys(f)[Find(f, k)] == k; }
    if k in Keys(f) {
      var i :| 0 <= i < |f| && Keys(f)[i] == k;
      assert f[i].key == k;
    }
  }

  /** Trees that are the same value are equal under the tolerance; in particular every tree is
      equal to itself, which is why comparing references first changes nothing. */
  lemma {:induction false} SameIsSummaryEqual(left: Json, right: Json, path: seq<string>)
    requires WellFormed(left) && WellFormed(right) && Same(left, right)
    ensures SummaryEqual(left, right, path)
    decreases left
  {
    match (left, right)
    case (Arr(x), Arr(y)) =>
      forall i | 0 <= i < |x| ensures SummaryEqual(x[i], y[i], path + [Decimal(i)]) {
        SameIsSummaryEqual(x[i], y[i], path + [Decimal(i)]);
      }
    case (Obj(f), Obj(g)) =>
      SortedKeysAgree(f, g);
      forall i | 0 <= i < |f| ensures SummaryEqual(f[i].value, g[Find(g, f[i].key)].value, path + [f[i].key]) {
        SameIsSummaryEqual(f[i].value, g[Find(g, f[i].key)].value, path + [f[i].key]);
      }
    case _ =>
  }

  lemma {:induction false} SameIsReflexive(j: Json)
    requires WellFormed(j)
    ensures Same(j, j)
    decreases j
  {
    match j
    case Arr(x) =>
      forall i | 0 <= i < |x| ensures Same(x[i], x[i]) { SameIsReflexive(x[i]); }
    case Obj(f) =>
      forall i | 0 <= i < |f| ensures Find(f, f[i].key) == i && Same(f[i].value, f[i].value) {
        FindDistinct(f, i);
        SameIsReflexive(f[i].value);
      }
    case _ =>
  }

  lemma Reflexive(j: Json, path: seq<string>)
    requires WellFormed(j)
    ensures SummaryEqual(j, j, path)
  {
    SameIsReflexive(j);
    SameIsSummaryEqual(j, j, path);
  }

  lemma {:induction false} Symmetric(left: Json, right: Json, path: seq<string>)
    requires WellFormed(left) && WellFormed(right)
    ensures SummaryEqual(left, right, path) <==> SummaryEqual(right, left, path)
    decreases left
  {
    match (left, right)
    case (Arr(x), Arr(y)) =>
      if |x| == |y| {
        forall i | 0 <= i < |x|
          ensures SummaryEqual(x[i], y[i], path + [Decimal(i)]) <==> SummaryEqual(y[i], x[i], path + [Decimal(i)])
        {
          Symmetric(x[i], y[i], path + [Decimal(i)]);
        }
      }
    case (Obj(f), Obj(g)) =>
      SortedKeysAgree(f, g);
      if SameKeys(f, g) {
        forall i | 0 <= i < |f|
          ensures var j := Find(g, f[i].key);
                  SummaryEqual(f[i].value, g[j].value, path + [f[i].key]) <==> SummaryEqual(g[j].value, f[i].value, path + [f[i].key])
        {
          Symmetric(f[i].value, g[Find(g, f[i].key)].value, path + [f[i].key]);
        }
        forall i | 0 <= i < |f| ensures Find(f, g[Find(g, f[i].key)].key) == i { FindDistinct(f, i); }
        forall i | 0 <= i < |g| ensures Find(g, f[Find(f, g[i].key)].key) == i { FindDistinct(g, i); }
      }
    case _ =>
  }

  // ----- rounding -----

  /** `Math.round(n / 1000) * 1000`: halves round up. */
  function RoundEmu(n: int): int {
    (n + 500) / 1000 * 1000
  }

  /** Equal rounding means within the tolerance, and within the tolerance means rounded values one
      step apart at most. */
  lemma RoundingFitsTolerance(m: int, n: int)
    ensures RoundEmu(m) == RoundEmu(n) ==> Abs(m - n) < TOLERANCE_EMU
    ensures Abs(m - n) <= TOLERANCE_EMU ==> Abs(RoundEmu(m) - RoundEmu(n)) <= TOLERANCE_EMU
    ensures RoundEmu(m) % 1000 == 0 && -500 < RoundEmu(m) - m <= 500
  {
    var p, q := (m + 500) / 1000, (n + 500) / 1000;
    assert 1000 * p <= m + 500 < 1000 * p + 1000;
    assert 1000 * q <= n + 500 < 1000 * q + 1000;
  }

  /** The converse fails: 499 and 501 are within the tolerance and round differently. */
  lemma CloseNeedNotRoundEqual()
    ensures Abs(499 - 501) <= TOLERANCE_EMU && RoundEmu(499) != RoundEmu(501)
  {
  }

  // ----- element summaries -----

  function Get(j: Json, key: string): Option<Json> {
    if j.Obj? && Find(j.fields, key) >= 0 then Some(j.fields[Find(j.fields, key)].value) else None
  }

  function StringValue(v: Option<Json>): string {
    match v
    case Some(Str(s)) => s
    case Some(Num(n)) => Decimal(n)
    case Some(Bool(b)) => if b then "true" else "false"
    case _ => ""
  }

  function NumberValue(v: Option<Json>): int {
    if v.Some? && v.value.Num? then v.value.n else 0
  }

  /** `asRecord(element.bbox)`: anything that is not an object reads as empty. */
  function BboxOf(element: Json): Json {
    var bbox := Get(element, "bbox");
    if bbox.Some? && bbox.value.Obj? then bbox.value else Obj([])
  }

  function Identity(): int -> int {
    n => n
  }

  const BOX_KEYS := ["heightEmu", "rotation", "widthEmu", "xEmu", "yEmu"]
  const TYPED_KEYS := ["id", "name", "type", "bbox"]
  const UNTYPED_KEYS := ["id", "name", "bbox"]

  /** An object literal: these keys in this order, with these values. */
  function Labelled(keys: seq<string>, values: seq<Json>): (fields: seq<Field>)
    requires |keys| == |values|
    ensures |fields| == |keys|
    ensures forall i :: 0 <= i < |fields| ==> fields[i] == Field(keys[i], values[i])
  {
    seq(|keys|, i requires 0 <= i < |keys| => Field(keys[i], values[i]))
  }

  /** The five numbers of a bounding box; lengths go through `measure`, the rotation does not. */
  function BoxValues(bbox: Json, measure: int -> int): (values: seq<Json>)
    ensures |values| == |BOX_KEYS|
  {
    seq(|BOX_KEYS|, i requires 0 <= i < |BOX_KEYS| =>
      var n := NumberValue(Get(bbox, BOX_KEYS[i]));
      Num(if BOX_KEYS[i] in BBOX_KEYS then measure(n) else n))
  }

  function SummarizeBox(bbox: Json, measure: int -> int): Json {
    Obj(Labelled(BOX_KEYS, BoxValues(bbox, measure)))
  }

  /** An absent `type` leaves the field out: both comparisons treat the two alike. */
  function SummarizeWith(element: Json, measure: int -> int): Json {
    var kind := Get(element, "type");
    var id, name := Str(StringValue(Get(element, "id"))), Str(StringValue(Get(element, "name")));
    var box := SummarizeBox(BboxOf(element), measure);
    if kind.Some? then Obj(Labelled(TYPED_KEYS, [id, name, kind.value, box]))
    else Obj(Labelled(UNTYPED_KEYS, [id, name, box]))
  }

  /** `summarizeElementBbox` rounds, for the diff list. */
  function SummarizeBbox(element: Json): Json {
    SummarizeWith(element, RoundEmu)
  }

  /** `summarizeElementBboxExact` keeps the numbers, for the gate. */
  function SummarizeBboxExact(element: Json): Json {
    SummarizeWith(element, Identity())
  }

  function Records(v: Option<Json>): seq<Json> {
    match v
    case Some(Arr(items)) => OnlyRecords(items)
    case _ => []
  }

  function OnlyRecords(items: seq<Json>): seq<Json> {
    if items == [] then [] else (if items[0].Obj? then [items[0]] else []) + OnlyRecords(items[1..])
  }

  function ElementsOf(slides: seq<Json>, index: nat): seq<Json> {
    if index < |slides| then Records(Get(slides[index], "elements")) else []
  }

  function Mapped(elements: seq<Json>, summarize: Json -> Json): (r: seq<Json>)
    ensures |r| == |elements| && forall i :: 0 <= i < |r| ==> r[i] == summarize(elements[i])
  {
    seq(|elements|, i requires 0 <= i < |elements| => summarize(elements[i]))
  }

  predicate Truthy(j: Json) {
    match j
    case Null => false
    case Bool(b) => b
    case Num(n) => n != 0
    case Str(s) => s != ""
    case _ => true
  }

  /** `items.filter(Boolean)` */
  function Truthies(items: seq<Json>): seq<Json> {
    if items == [] then [] else (if Truthy(items[0]) then [items[0]] else []) + Truthies(items[1..])
  }

  /** `arrayOfRecords(slides[index]?.elements).map(summarize).filter(Boolean)`; a summarizer returns
      null for an element it leaves out. */
  function Summaries(slides: seq<Json>, index: nat, summarize: Json -> Json): seq<Json> {
    Truthies(Mapped(ElementsOf(slides, index), summarize))
  }

  function Max(a: nat, b: nat): nat {
    if a < b then b else a
  }

  function ItemOrNull(items: seq<Json>, i: nat): Json {
    if i < |items| then items[i] else Null
  }

  datatype ElementDiff = ElementDiff(elementIndex: nat, routa: Json, walnut: Json)
  datatype SlideDiff = SlideDiff(slideIndex: nat, diffs: seq<ElementDiff>)

  /** All differing elements among the first `n` positions. */
  function ElementDiffs(w: seq<Json>, r: seq<Json>, n: nat): seq<ElementDiff> {
    if n == 0 then []
    else
      var walnut, routa := ItemOrNull(w, n - 1), ItemOrNull(r, n - 1);
      ElementDiffs(w, r, n - 1) + (if Canon(walnut) != Canon(routa) then [ElementDiff(n - 1, routa, walnut)] else [])
  }

  /** A slide's list stops growing once it has reached the limit; one entry is always shown. */
  function Cut(diffs: seq<ElementDiff>, limit: nat): seq<ElementDiff> {
    if |diffs| <= Max(limit, 1) then diffs else diffs[..Max(limit, 1)]
  }

  function SlideDiffs(w: seq<Json>, r: seq<Json>, summarize: Json -> Json, limit: nat, n: nat): seq<SlideDiff> {
    if n == 0 then []
    else
      var x, y := Summaries(w, n - 1, summarize), Summaries(r, n - 1, summarize);
      var diffs := Cut(ElementDiffs(x, y, Max(|x|, |y|)), limit);
      SlideDiffs(w, r, summarize, limit, n - 1) + (if diffs != [] then [SlideDiff(n, diffs)] else [])
  }

  /** `summarizeSlideElementDiffs` */
  method SummarizeSlideElementDiffs(w: seq<Json>, r: seq<Json>, summarize: Json -> Json, limit: nat)
    returns (slideDiffs: seq<SlideDiff>)
    ensures slideDiffs == SlideDiffs(w, r, summarize, limit, Max(|w|, |r|))
  {
    hide Summaries, ElementDiffs, Cut;
    slideDiffs := [];
    for slideIndex := 0 to Max(|w|, |r|)
      invariant slideDiffs == SlideDiffs(w, r, summarize, limit, slideIndex)
    {
      var walnutElements, routaElements := Summaries(w, slideIndex, summarize), Summaries(r, slideIndex, summarize);
      var elementDiffs := DiffElements(walnutElements, routaElements, limit);
      if |elementDiffs| > 0 {
        slideDiffs := slideDiffs + [SlideDiff(slideIndex + 1, elementDiffs)];
      }
    }
  }

  method DiffElements(w: seq<Json>, r: seq<Json>, limit: nat) returns (elementDiffs: seq<ElementDiff>)
    ensures elementDiffs == Cut(ElementDiffs(w, r, Max(|w|, |r|)), limit)
  {
    elementDiffs := [];
    var elementIndex, elementCount := 0, Max(|w|, |r|);
    while elementIndex < elementCount
      invariant 0 <= elementIndex <= elementCount
      invariant elementDiffs == ElementDiffs(w, r, elementIndex)
      invariant |elementDiffs| < Max(limit, 1)
    {
      var walnut, routa := ItemOrNull(w, elementIndex), ItemOrNull(r, elementIndex);
      elementIndex := elementIndex + 1;
      if Canon(walnut) != Canon(routa) {
        elementDiffs := elementDiffs + [ElementDiff(elementIndex - 1, routa, walnut)];
        if |elementDiffs| >= limit {
          MoreDiffs(w, r, elementIndex, elementCount);
          break;
        }
      }
    }
  }

  lemma {:induction false} MoreDiffs(w: seq<Json>, r: seq<Json>, m: nat, n: nat)
    requires m <= n
    ensures ElementDiffs(w, r, m) <= ElementDiffs(w, r, n)
    decreases n
  {
    hide Canon, ItemOrNull;
    if m < n {
      MoreDiffs(w, r, m, n - 1);
    }
  }

  /** The entry shows what stands at its index on either side, null where nothing does, and the two
      are different values. */
  ghost predicate Told(w: seq<Json>, r: seq<Json>, d: ElementDiff) {
    && d.elementIndex < Max(|w|, |r|)
    && d.walnut == ItemOrNull(w, d.elementIndex) && d.routa == ItemOrNull(r, d.elementIndex)
    && Canon(d.walnut) != Canon(d.routa)
  }

  lemma {:induction false} ElementDiffsTell(w: seq<Json>, r: seq<Json>, n: nat)
    requires n <= Max(|w|, |r|)
    ensures forall d :: d in ElementDiffs(w, r, n) <==> d.elementIndex < n && Told(w, r, d)
    ensures Ascending(ElementDiffs(w, r, n))
  {
    if n > 0 {
      ElementDiffsTell(w, r, n - 1);
      var former, all := ElementDiffs(w, r, n - 1), ElementDiffs(w, r, n);
      var last := ElementDiff(n - 1, ItemOrNull(r, n - 1), ItemOrNull(w, n - 1));
      assert Told(w, r, last) <==> Canon(last.walnut) != Canon(last.routa);
      assert all == if Told(w, r, last) then former + [last] else former;
      hide ElementDiffs, Canon, ItemOrNull;
      forall d ensures d in all <==> d.elementIndex < n && Told(w, r, d) {
        assert Told(w, r, d) && d.elementIndex == n - 1 ==> d == last;
      }
      forall i, j | 0 <= i < j < |all| ensures all[i].elementIndex < all[j].elementIndex {
        assert former[i] in former;
      }
    }
  }

  ghost predicate Ascending(diffs: seq<ElementDiff>) {
    forall i, j :: 0 <= i < j < |diffs| ==> diffs[i].elementIndex < diffs[j].elementIndex
  }

  /** What one slide's cut list holds: differences only, in order, and all of them up to the last
      one shown, or all of them if the list is not full. */
  ghost predicate SlideTold(x: seq<Json>, y: seq<Json>, diffs: seq<ElementDiff>, limit: nat) {
    && 0 < |diffs| <= Max(limit, 1)
    && Ascending(diffs)
    && (forall d :: d in diffs ==> Told(x, y, d))
    && forall d :: Told(x, y, d) && (|diffs| < Max(limit, 1) || d.elementIndex <= diffs[|diffs| - 1].elementIndex) ==> d in diffs
  }

  lemma CutTells(x: seq<Json>, y: seq<Json>, limit: nat)
    ensures var all := ElementDiffs(x, y, Max(|x|, |y|));
            if all == [] then forall d :: !Told(x, y, d) else SlideTold(x, y, Cut(all, limit), limit)
  {
    ElementDiffsTell(x, y, Max(|x|, |y|));
    var all := ElementDiffs(x, y, Max(|x|, |y|));
    var diffs := Cut(all, limit);
    assert forall d :: Told(x, y, d) ==> d.elementIndex < Max(|x|, |y|);
    hide Told, ElementDiffs, Ascending;
    assert diffs <= all;
    PrefixAscends(all, diffs);
    forall d | Told(x, y, d) && (|diffs| < Max(limit, 1) || d.elementIndex <= diffs[|diffs| - 1].elementIndex)
      ensures d in diffs
    {
      assert d in all;
      UpToLast(all, diffs, d);
    }
  }

  lemma PrefixAscends(all: seq<ElementDiff>, diffs: seq<ElementDiff>)
    requires Ascending(all) && diffs <= all
    ensures Ascending(diffs) && forall d :: d in diffs ==> d in all
  {
  }

  lemma UpToLast(all: seq<ElementDiff>, diffs: seq<ElementDiff>, d: ElementDiff)
    requires Ascending(all) && diffs <= all && d in all
    requires diffs == all || (diffs != [] && d.elementIndex <= diffs[|diffs| - 1].elementIndex)
    ensures d in diffs
  {
    var i :| 0 <= i < |all| && all[i] == d;
    assert i < |diffs| ==> diffs[i] == d;
  }

  /** Summaries `i` of both sides, and a difference between them. */
  ghost predicate SlideDiffers(w: seq<Json>, r: seq<Json>, summarize: Json -> Json, i: nat) {
    exists d :: Told(Summaries(w, i, summarize), Summaries(r, i, summarize), d)
  }

  ghost predicate SlideEntry(w: seq<Json>, r: seq<Json>, summarize: Json -> Json, limit: nat, s: SlideDiff) {
    && 1 <= s.slideIndex
    && SlideTold(Summaries(w, s.slideIndex - 1, summarize), Summaries(r, s.slideIndex - 1, summarize), s.diffs, limit)
  }

  /** A slide is listed exactly when its summaries differ somewhere, under its number from 1, with
      what differs. */
  ghost predicate ListTells(w: seq<Json>, r: seq<Json>, summarize: Json -> Json, limit: nat, n: nat, list: seq<SlideDiff>) {
    && (forall k :: 0 <= k < |list| ==> list[k].slideIndex <= n && SlideEntry(w, r, summarize, limit, list[k]))
    && (forall j, k :: 0 <= j < k < |list| ==> list[j].slideIndex < list[k].slideIndex)
    && forall i :: 0 <= i < n && SlideDiffers(w, r, summarize, i) ==> Listed(list, i)
  }

  lemma {:induction false} SlideDiffsTell(w: seq<Json>, r: seq<Json>, summarize: Json -> Json, limit: nat, n: nat)
    ensures ListTells(w, r, summarize, limit, n, SlideDiffs(w, r, summarize, limit, n))
    decreases n
  {
    hide Extends, Told, Summaries;
    if n > 0 {
      SlideDiffsTell(w, r, summarize, limit, n - 1);
      LastSlideTells(w, r, summarize, limit, n);
      NextSlideTells(w, r, summarize, limit, n, SlideDiffs(w, r, summarize, limit, n - 1), SlideDiffs(w, r, summarize, limit, n));
    }
  }

  lemma NextSlideTells(
      w: seq<Json>, r: seq<Json>, summarize: Json -> Json, limit: nat, n: nat, former: seq<SlideDiff>, list: seq<SlideDiff>)
    requires n > 0 && ListTells(w, r, summarize, limit, n - 1, former) && Extends(w, r, summarize, limit, n, former, list)
    ensures ListTells(w, r, summarize, limit, n, list)
  {
    hide SlideEntry, SlideDiffers, ListTells;
    if SlideDiffers(w, r, summarize, n - 1) {
      var s: SlideDiff :| s.slideIndex == n && SlideEntry(w, r, summarize, limit, s) && list == former + [s];
      ListTellsMore(w, r, summarize, limit, n, former, s);
    } else {
      ListTellsOn(w, r, summarize, limit, n, former);
    }
  }

  /** The list grows by an entry for slide `n` if that slide differs, and by nothing otherwise. */
  ghost predicate Extends(
      w: seq<Json>, r: seq<Json>, summarize: Json -> Json, limit: nat, n: nat, former: seq<SlideDiff>, list: seq<SlideDiff>)
    requires n > 0
  {
    if SlideDiffers(w, r, summarize, n - 1) then
      exists s: SlideDiff :: s.slideIndex == n && SlideEntry(w, r, summarize, limit, s) && list == former + [s]
    else list == former
  }

  lemma ListTellsMore(w: seq<Json>, r: seq<Json>, summarize: Json -> Json, limit: nat, n: nat, former: seq<SlideDiff>, last: SlideDiff)
    requires n > 0 && ListTells(w, r, summarize, limit, n - 1, former)
    requires last.slideIndex == n && SlideEntry(w, r, summarize, limit, last)
    ensures ListTells(w, r, summarize, limit, n, former + [last])
  {
    hide SlideEntry, SlideDiffers;
    var list := former + [last];
    forall i | 0 <= i < n && SlideDiffers(w, r, summarize, i) ensures Listed(list, i) {
      if i < n - 1 {
        var k :| 0 <= k < |former| && former[k].slideIndex == i + 1;
        assert list[k] == former[k];
      } else {
        assert list[|former|] == last;
      }
    }
  }

  lemma ListTellsOn(w: seq<Json>, r: seq<Json>, summarize: Json -> Json, limit: nat, n: nat, list: seq<SlideDiff>)
    requires n > 0 && ListTells(w, r, summarize, limit, n - 1, list) && !SlideDiffers(w, r, summarize, n - 1)
    ensures ListTells(w, r, summarize, limit, n, list)
  {
    hide SlideEntry, SlideDiffers, Listed;
  }

  ghost predicate Listed(list: seq<SlideDiff>, i: nat) {
    exists k :: 0 <= k < |list| && list[k].slideIndex == i + 1
  }

  lemma LastSlideTells(w: seq<Json>, r: seq<Json>, summarize: Json -> Json, limit: nat, n: nat)
    requires n > 0
    ensures Extends(w, r, summarize, limit, n, SlideDiffs(w, r, summarize, limit, n - 1), SlideDiffs(w, r, summarize, limit, n))
  {
    hide *;
    LastSlide(w, r, summarize, limit, n);
    OneSlideTells(w, r, summarize, limit, n);
    var x, y := Summaries(w, n - 1, summarize), Summaries(r, n - 1, summarize);
    var all := ElementDiffs(x, y, Max(|x|, |y|));
    var former := SlideDiffs(w, r, summarize, limit, n - 1);
    if all != [] {
      ExtendsBy(w, r, summarize, limit, n, former, SlideDiff(n, Cut(all, limit)));
    } else {
      assert former + [] == former;
      ExtendsByNone(w, r, summarize, limit, n, former);
    }
  }

  lemma ExtendsBy(w: seq<Json>, r: seq<Json>, summarize: Json -> Json, limit: nat, n: nat, former: seq<SlideDiff>, s: SlideDiff)
    requires n > 0 && SlideDiffers(w, r, summarize, n - 1) && s.slideIndex == n && SlideEntry(w, r, summarize, limit, s)
    ensures Extends(w, r, summarize, limit, n, former, former + [s])
  {
  }

  lemma ExtendsByNone(w: seq<Json>, r: seq<Json>, summarize: Json -> Json, limit: nat, n: nat, former: seq<SlideDiff>)
    requires n > 0 && !SlideDiffers(w, r, summarize, n - 1)
    ensures Extends(w, r, summarize, limit, n, former, former)
  {
  }

  lemma OneSlideTells(w: seq<Json>, r: seq<Json>, summarize: Json -> Json, limit: nat, n: nat)
    requires n > 0
    ensures var x, y := Summaries(w, n - 1, summarize), Summaries(r, n - 1, summarize);
            var all := ElementDiffs(x, y, Max(|x|, |y|));
            && (SlideDiffers(w, r, summarize, n - 1) <==> all != [])
            && (all != [] ==> SlideEntry(w, r, summarize, limit, SlideDiff(n, Cut(all, limit))))
  {
    var x, y := Summaries(w, n - 1, summarize), Summaries(r, n - 1, summarize);
    var all := ElementDiffs(x, y, Max(|x|, |y|));
    CutTells(x, y, limit);
    hide ElementDiffs, Summaries, SlideTold, Told, Cut;
    if all != [] {
      SomeToldIs(x, y, Cut(all, limit), limit);
    }
  }

  lemma LastSlide(w: seq<Json>, r: seq<Json>, summarize: Json -> Json, limit: nat, n: nat)
    requires n > 0
    ensures var x, y := Summaries(w, n - 1, summarize), Summaries(r, n - 1, summarize);
            var all := ElementDiffs(x, y, Max(|x|, |y|));
            SlideDiffs(w, r, summarize, limit, n) ==
            SlideDiffs(w, r, summarize, limit, n - 1) + (if all != [] then [SlideDiff(n, Cut(all, limit))] else [])
  {
    hide ElementDiffs, Summaries;
  }

  lemma SomeToldIs(x: seq<Json>, y: seq<Json>, diffs: seq<ElementDiff>, limit: nat)
    requires SlideTold(x, y, diffs, limit)
    ensures exists d :: Told(x, y, d)
  {
    hide Told;
    assert diffs[0] in diffs;
  }


  predicate SlidesMatch(w: seq<Json>, r: seq<Json>, summarize: Json -> Json, n: nat) {
    forall i | 0 <= i < n :: SummaryEqual(Arr(Summaries(w, i, summarize)), Arr(Summaries(r, i, summarize)), [])
  }

  /** `slideElementSummariesMatch` */
  method SlideElementSummariesMatch(w: seq<Json>, r: seq<Json>, summarize: Json -> Json) returns (match': bool)
    ensures match' == SlidesMatch(w, r, summarize, Max(|w|, |r|))
  {
    hide SummaryEqual, Summaries;
    for slideIndex := 0 to Max(|w|, |r|)
      invariant SlidesMatch(w, r, summarize, slideIndex)
    {
      if !SummaryEqual(Arr(Summaries(w, slideIndex, summarize)), Arr(Summaries(r, slideIndex, summarize)), []) {
        return false;
      }
    }
    return true;
  }

  // ----- the diff list and the gate -----

  ghost predicate Distinct(keys: seq<string>) {
    forall i, j :: 0 <= i < j < |keys| ==> keys[i] != keys[j]
  }

  lemma LabelledFind(keys: seq<string>, values: seq<Json>, i: nat)
    requires |keys| == |values| && Distinct(keys) && i < |keys|
    ensures Find(Labelled(keys, values), keys[i]) == i
  {
    FindDistinct(Labelled(keys, values), i);
  }

  /** Literals with the same keys are the same value only if their values are, one by one. */
  lemma LabelledSame(keys: seq<string>, values: seq<Json>, others: seq<Json>, i: nat)
    requires |keys| == |values| == |others| && Distinct(keys) && i < |keys|
    requires Same(Obj(Labelled(keys, values)), Obj(Labelled(keys, others)))
    ensures Same(values[i], others[i])
  {
    LabelledFind(keys, others, i);
    var f := Labelled(keys, values);
    assert f[i].key == keys[i];
  }

  lemma LabelledSummaryEqual(keys: seq<string>, values: seq<Json>, others: seq<Json>, path: seq<string>)
    requires |keys| == |values| == |others| && Distinct(keys)
    requires forall i :: 0 <= i < |keys| ==> SummaryEqual(values[i], others[i], path + [keys[i]])
    ensures SummaryEqual(Obj(Labelled(keys, values)), Obj(Labelled(keys, others)), path)
  {
    assert Keys(Labelled(keys, values)) == Keys(Labelled(keys, others));
    forall i | 0 <= i < |keys| ensures Find(Labelled(keys, others), keys[i]) == i { LabelledFind(keys, others, i); }
  }

  lemma LabelledWellFormed(keys: seq<string>, values: seq<Json>)
    requires |keys| == |values| && Distinct(keys) && forall i :: 0 <= i < |values| ==> WellFormed(values[i])
    ensures WellFormed(Obj(Labelled(keys, values)))
  {
  }

  lemma KeysDistinct()
    ensures Distinct(BOX_KEYS) && Distinct(TYPED_KEYS) && Distinct(UNTYPED_KEYS)
  {
  }

  lemma LengthsClose(m: int, n: int, path: seq<string>, key: string)
    requires "bbox" in path && key in BBOX_KEYS && RoundEmu(m) == RoundEmu(n)
    ensures SummaryEqual(Num(m), Num(n), path + [key])
  {
    RoundingFitsTolerance(m, n);
    assert (path + [key])[|path|] == key;
  }

  /** Boxes whose rounded summaries are the same pass the tolerant comparison. */
  lemma RoundedBoxesAreClose(a: Json, b: Json, path: seq<string>)
    requires "bbox" in path
    requires Same(SummarizeBox(a, RoundEmu), SummarizeBox(b, RoundEmu))
    ensures SummaryEqual(SummarizeBox(a, Identity()), SummarizeBox(b, Identity()), path)
  {
    KeysDistinct();
    var ra, rb := BoxValues(a, RoundEmu), BoxValues(b, RoundEmu);
    var ea, eb := BoxValues(a, Identity()), BoxValues(b, Identity());
    forall i | 0 <= i < |BOX_KEYS| ensures SummaryEqual(ea[i], eb[i], path + [BOX_KEYS[i]]) {
      LabelledSame(BOX_KEYS, ra, rb, i);
      NumbersClose(a, b, path, BOX_KEYS[i], ra[i], rb[i], ea[i], eb[i]);
    }
    LabelledSummaryEqual(BOX_KEYS, ea, eb, path);
  }

  lemma NumbersClose(a: Json, b: Json, path: seq<string>, key: string, ra: Json, rb: Json, ea: Json, eb: Json)
    requires "bbox" in path && Same(ra, rb)
    requires var m, n := NumberValue(Get(a, key)), NumberValue(Get(b, key));
             && ea == Num(m) && eb == Num(n)
             && ra == Num(if key in BBOX_KEYS then RoundEmu(m) else m)
             && rb == Num(if key in BBOX_KEYS then RoundEmu(n) else n)
    ensures SummaryEqual(ea, eb, path + [key])
  {
    if key in BBOX_KEYS { LengthsClose(ea.n, eb.n, path, key); }
  }

  lemma BoxWellFormed(bbox: Json, measure: int -> int)
    ensures WellFormed(SummarizeBox(bbox, measure))
  {
    KeysDistinct();
    LabelledWellFormed(BOX_KEYS, BoxValues(bbox, measure));
  }

  lemma SummaryWellFormed(element: Json, measure: int -> int)
    requires WellFormed(element)
    ensures WellFormed(SummarizeWith(element, measure))
  {
    hide SummarizeBox, Find;
    KeysDistinct();
    BoxWellFormed(BboxOf(element), measure);
    var kind := Get(element, "type");
    var id, name := Str(StringValue(Get(element, "id"))), Str(StringValue(Get(element, "name")));
    var box := SummarizeBox(BboxOf(element), measure);
    if kind.Some? {
      assert WellFormed(kind.value);
      LabelledWellFormed(TYPED_KEYS, [id, name, kind.value, box]);
    } else {
      LabelledWellFormed(UNTYPED_KEYS, [id, name, box]);
    }
  }

  /** A literal with a type and one without are different values. */
  lemma TypesAgree(typed: seq<Json>, untyped: seq<Json>)
    requires |typed| == 4 && |untyped| == 3
    ensures !Same(Obj(Labelled(TYPED_KEYS, typed)), Obj(Labelled(UNTYPED_KEYS, untyped)))
    ensures !Same(Obj(Labelled(UNTYPED_KEYS, untyped)), Obj(Labelled(TYPED_KEYS, typed)))
  {
    var f, g := Labelled(TYPED_KEYS, typed), Labelled(UNTYPED_KEYS, untyped);
    assert f[2].key == "type";
    assert Find(g, "type") == -1;
  }

  /** One element: equal in the diff list's eyes implies equal in the gate's. */
  lemma RoundedElementsPass(a: Json, b: Json, path: seq<string>)
    requires WellFormed(a) && WellFormed(b)
    requires Canon(SummarizeBbox(a)) == Canon(SummarizeBbox(b))
    ensures SummaryEqual(SummarizeBboxExact(a), SummarizeBboxExact(b), path)
  {
    SummaryWellFormed(a, RoundEmu);
    SummaryWellFormed(b, RoundEmu);
    CanonDecides(SummarizeBbox(a), SummarizeBbox(b));
    SameSummariesPass(a, b, path);
  }

  lemma SameSummariesPass(a: Json, b: Json, path: seq<string>)
    requires WellFormed(a) && WellFormed(b)
    requires Same(SummarizeBbox(a), SummarizeBbox(b))
    ensures SummaryEqual(SummarizeBboxExact(a), SummarizeBboxExact(b), path)
  {
    hide SummarizeBox, Same, SummaryEqual, StringValue, Get, WellFormed, Labelled, SummarizeBbox, SummarizeBboxExact;
    var ka, kb := Get(a, "type"), Get(b, "type");
    if ka.Some? && kb.Some? {
      TypedPass(a, b, path);
    } else if ka.None? && kb.None? {
      UntypedPass(a, b, path);
    } else {
      TypesDiffer(a, b);
    }
  }

  lemma TypesDiffer(a: Json, b: Json)
    requires Get(a, "type").Some? != Get(b, "type").Some?
    ensures !Same(SummarizeBbox(a), SummarizeBbox(b))
  {
    hide SummarizeBox, Same, StringValue, Get, Labelled;
    var ida, idb := Str(StringValue(Get(a, "id"))), Str(StringValue(Get(b, "id")));
    var na, nb := Str(StringValue(Get(a, "name"))), Str(StringValue(Get(b, "name")));
    var ra, rb := SummarizeBox(BboxOf(a), RoundEmu), SummarizeBox(BboxOf(b), RoundEmu);
    if Get(a, "type").Some? {
      TypesAgree([ida, na, Get(a, "type").value, ra], [idb, nb, rb]);
    } else {
      TypesAgree([idb, nb, Get(b, "type").value, rb], [ida, na, ra]);
    }
  }

  lemma GetWellFormed(j: Json, key: string)
    requires WellFormed(j) && Get(j, key).Some?
    ensures WellFormed(Get(j, key).value)
  {
  }

  lemma TypedForm(element: Json, measure: int -> int)
    requires Get(element, "type").Some?
    ensures SummarizeWith(element, measure) == Obj(Labelled(TYPED_KEYS,
              [ Str(StringValue(Get(element, "id"))), Str(StringValue(Get(element, "name"))), Get(element, "type").value,
                SummarizeBox(BboxOf(element), measure) ]))
  {
  }

  lemma TypedPass(a: Json, b: Json, path: seq<string>)
    requires WellFormed(a) && WellFormed(b) && Get(a, "type").Some? && Get(b, "type").Some?
    requires Same(SummarizeBbox(a), SummarizeBbox(b))
    ensures SummaryEqual(SummarizeBboxExact(a), SummarizeBboxExact(b), path)
  {
    hide SummarizeBox, Same, SummaryEqual, StringValue, Labelled, BboxOf, SummarizeWith;
    KeysDistinct();
    TypedForm(a, RoundEmu);
    TypedForm(b, RoundEmu);
    TypedForm(a, Identity());
    TypedForm(b, Identity());
    GetWellFormed(a, "type");
    GetWellFormed(b, "type");
    hide Get, WellFormed, Identity;
    var ida, idb := Str(StringValue(Get(a, "id"))), Str(StringValue(Get(b, "id")));
    var na, nb := Str(StringValue(Get(a, "name"))), Str(StringValue(Get(b, "name")));
    var ra, rb := SummarizeBox(BboxOf(a), RoundEmu), SummarizeBox(BboxOf(b), RoundEmu);
    var ea, eb := SummarizeBox(BboxOf(a), Identity()), SummarizeBox(BboxOf(b), Identity());
    var ka, kb := Get(a, "type").value, Get(b, "type").value;
    LiteralsPass(TYPED_KEYS, [ida, na, ka, ra], [idb, nb, kb, rb], [ida, na, ka, ea], [idb, nb, kb, eb], BboxOf(a), BboxOf(b), path);
  }

  lemma UntypedPass(a: Json, b: Json, path: seq<string>)
    requires Get(a, "type").None? && Get(b, "type").None?
    requires Same(SummarizeBbox(a), SummarizeBbox(b))
    ensures SummaryEqual(SummarizeBboxExact(a), SummarizeBboxExact(b), path)
  {
    hide SummarizeBox, Same, SummaryEqual, StringValue, Labelled, Get;
    KeysDistinct();
    var ida, idb := Str(StringValue(Get(a, "id"))), Str(StringValue(Get(b, "id")));
    var na, nb := Str(StringValue(Get(a, "name"))), Str(StringValue(Get(b, "name")));
    var ra, rb := SummarizeBox(BboxOf(a), RoundEmu), SummarizeBox(BboxOf(b), RoundEmu);
    var ea, eb := SummarizeBox(BboxOf(a), Identity()), SummarizeBox(BboxOf(b), Identity());
    LiteralsPass(UNTYPED_KEYS, [ida, na, ra], [idb, nb, rb], [ida, na, ea], [idb, nb, eb], BboxOf(a), BboxOf(b), path);
  }

  /** Two literals that end in a box: what precedes the box is compared exactly. */
  lemma LiteralsPass(keys: seq<string>, rounded: seq<Json>, others: seq<Json>, exact: seq<Json>, exactOthers: seq<Json>,
                     a: Json, b: Json, path: seq<string>)
    requires |keys| == |rounded| == |others| == |exact| == |exactOthers| && Distinct(keys)
    requires keys != [] && keys[|keys| - 1] == "bbox"
    requires Same(Obj(Labelled(keys, rounded)), Obj(Labelled(keys, others)))
    requires forall i :: 0 <= i < |keys| - 1 ==>
               exact[i] == rounded[i] && exactOthers[i] == others[i] && WellFormed(rounded[i]) && WellFormed(others[i])
    requires rounded[|keys| - 1] == SummarizeBox(a, RoundEmu) && others[|keys| - 1] == SummarizeBox(b, RoundEmu)
    requires exact[|keys| - 1] == SummarizeBox(a, Identity()) && exactOthers[|keys| - 1] == SummarizeBox(b, Identity())
    ensures SummaryEqual(Obj(Labelled(keys, exact)), Obj(Labelled(keys, exactOthers)), path)
  {
    hide Same, SummaryEqual, SummarizeBox, WellFormed;
    forall i | 0 <= i < |keys| ensures SummaryEqual(exact[i], exactOthers[i], path + [keys[i]]) {
      LabelledSame(keys, rounded, others, i);
      if i < |keys| - 1 {
        SameIsSummaryEqual(exact[i], exactOthers[i], path + [keys[i]]);
      } else {
        assert (path + ["bbox"])[|path|] == "bbox";
        RoundedBoxesAreClose(a, b, path + [keys[i]]);
      }
    }
    LabelledSummaryEqual(keys, exact, exactOthers, path);
  }

  lemma {:induction false} NoElementDiffs(w: seq<Json>, r: seq<Json>, n: nat)
    requires ElementDiffs(w, r, n) == []
    ensures forall i :: 0 <= i < n ==> Canon(ItemOrNull(w, i)) == Canon(ItemOrNull(r, i))
    decreases n
  {
    if n > 0 {
      NoElementDiffs(w, r, n - 1);
    }
  }

  lemma {:induction false} NoSlideDiffs(w: seq<Json>, r: seq<Json>, summarize: Json -> Json, limit: nat, n: nat, i: nat)
    requires SlideDiffs(w, r, summarize, limit, n) == [] && i < n
    ensures var x, y := Summaries(w, i, summarize), Summaries(r, i, summarize);
            ElementDiffs(x, y, Max(|x|, |y|)) == []
    decreases n
  {
    hide ElementDiffs, Summaries;
    if i < n - 1 {
      NoSlideDiffs(w, r, summarize, limit, n - 1, i);
    }
  }

  lemma {:induction false} RecordsWellFormed(items: seq<Json>)
    requires forall i :: 0 <= i < |items| ==> WellFormed(items[i])
    ensures forall i :: 0 <= i < |OnlyRecords(items)| ==> WellFormed(OnlyRecords(items)[i])
    decreases |items|
  {
    if items != [] {
      RecordsWellFormed(items[1..]);
    }
  }

  lemma ElementsWellFormed(slide: Json)
    requires WellFormed(slide)
    ensures forall i :: 0 <= i < |Records(Get(slide, "elements"))| ==> WellFormed(Records(Get(slide, "elements"))[i])
  {
    var v := Get(slide, "elements");
    if v.Some? && v.value.Arr? {
      assert WellFormed(v.value);
      RecordsWellFormed(v.value.items);
    }
  }

  /** A summarizer that returns objects leaves no element out. */
  lemma {:induction false} ObjectsStay(items: seq<Json>)
    requires forall i :: 0 <= i < |items| ==> items[i].Obj?
    ensures Truthies(items) == items
  {
    if items != [] {
      ObjectsStay(items[1..]);
    }
  }

  lemma BboxSummariesStay(slides: seq<Json>, i: nat)
    ensures Summaries(slides, i, SummarizeBbox) == Mapped(ElementsOf(slides, i), SummarizeBbox)
    ensures Summaries(slides, i, SummarizeBboxExact) == Mapped(ElementsOf(slides, i), SummarizeBboxExact)
  {
    ObjectsStay(Mapped(ElementsOf(slides, i), SummarizeBbox));
    ObjectsStay(Mapped(ElementsOf(slides, i), SummarizeBboxExact));
  }

  /** One slide: no rounded difference implies the tolerant comparison of the slide passes. */
  lemma RoundedSlidePasses(x: seq<Json>, y: seq<Json>)
    requires forall i :: 0 <= i < |x| ==> WellFormed(x[i])
    requires forall i :: 0 <= i < |y| ==> WellFormed(y[i])
    requires ElementDiffs(Mapped(x, SummarizeBbox), Mapped(y, SummarizeBbox), Max(|x|, |y|)) == []
    ensures SummaryEqual(Arr(Mapped(x, SummarizeBboxExact)), Arr(Mapped(y, SummarizeBboxExact)), [])
  {
    var sx, sy := Mapped(x, SummarizeBbox), Mapped(y, SummarizeBbox);
    var ex, ey := Mapped(x, SummarizeBboxExact), Mapped(y, SummarizeBboxExact);
    NoElementDiffs(sx, sy, Max(|x|, |y|));
    SameLength(x, y);
    forall i | 0 <= i < |x| ensures SummaryEqual(ex[i], ey[i], [] + [Decimal(i)]) {
      assert Canon(ItemOrNull(sx, i)) == Canon(ItemOrNull(sy, i));
      RoundedElementsPass(x[i], y[i], [] + [Decimal(i)]);
    }
  }

  /** A missing element reads as null, which no summary is. */
  lemma SameLength(x: seq<Json>, y: seq<Json>)
    requires forall i :: 0 <= i < Max(|x|, |y|) ==>
               Canon(ItemOrNull(Mapped(x, SummarizeBbox), i)) == Canon(ItemOrNull(Mapped(y, SummarizeBbox), i))
    ensures |x| == |y|
  {
    var shorter := if |x| < |y| then |x| else |y|;
    assert shorter < Max(|x|, |y|) ==>
      Canon(ItemOrNull(Mapped(x, SummarizeBbox), shorter)) == Canon(ItemOrNull(Mapped(y, SummarizeBbox), shorter));
  }

  /** An empty list of rounded bounding-box differences, under any limit, means the bounding-box
      gate passes. */
  lemma EmptyBboxDiffPassesGate(w: seq<Json>, r: seq<Json>, limit: nat)
    requires forall i :: 0 <= i < |w| ==> WellFormed(w[i])
    requires forall i :: 0 <= i < |r| ==> WellFormed(r[i])
    requires SlideDiffs(w, r, SummarizeBbox, limit, Max(|w|, |r|)) == []
    ensures SlidesMatch(w, r, SummarizeBboxExact, Max(|w|, |r|))
  {
    hide Summaries, SummaryEqual, ElementDiffs, SummarizeBbox, SummarizeBboxExact, WellFormed;
    forall i | 0 <= i < Max(|w|, |r|)
      ensures SummaryEqual(Arr(Summaries(w, i, SummarizeBboxExact)), Arr(Summaries(r, i, SummarizeBboxExact)), [])
    {
      NoSlideDiffs(w, r, SummarizeBbox, limit, Max(|w|, |r|), i);
      BboxSummariesStay(w, i);
      BboxSummariesStay(r, i);
      if i < |w| { ElementsWellFormed(w[i]); }
      if i < |r| { ElementsWellFormed(r[i]); }
      RoundedSlidePasses(ElementsOf(w, i), ElementsOf(r, i));
    }
  }
}
