/** The carousel object: its inputs (element width, settings, items, merge
    values), what the update workers derive from them, and the set of
    invalidated parts that decides which workers an update runs. */
module Carousel {
  import opened Basics
  import opened Ring

  type Count = i: int | 1 <= i witness 1

  datatype Settings = Settings(
    items: Count, loop: bool, center: bool, rewind: bool, merge: bool, mergeFit: bool,
    autoWidth: bool, rtl: bool, margin: real, stagePadding: real)

  /** An item element; `width` is its own width, which counts with `autoWidth`. */
  datatype Item = Item(id: int, width: real)

  datatype Part = Everything | ElementWidth | ItemList | SettingsPart | Position

  // ---------- What the workers compute ----------

  function RMin(a: real, b: real): real { if a <= b then a else b }

  /** `toFixed(3)`, read back as a number. */
  function Fixed3(x: real): real {
    if x < 0.0 then -((-x * 1000.0 + 0.5).Floor as real / 1000.0)
    else (x * 1000.0 + 0.5).Floor as real / 1000.0
  }

  function GridWidth(width: real, s: Settings): real {
    Fixed3((width - s.stagePadding * 2.0 + s.margin) / (s.items as real)) - s.margin
  }

  function MergeValue(merge: real, s: Settings): real {
    if s.mergeFit && RMin(merge, s.items as real) != 0.0 then RMin(merge, s.items as real) else merge
  }

  /** The merge value in use: an item takes no more columns than are shown, if
      the values are made to fit, else as many as it says. */
  lemma MergeMeaning(merge: real, s: Settings)
    ensures !s.mergeFit ==> MergeValue(merge, s) == merge
    ensures s.mergeFit ==>
      && MergeValue(merge, s) <= merge && MergeValue(merge, s) <= s.items as real
      && (MergeValue(merge, s) == merge || MergeValue(merge, s) == s.items as real)
  {}

  function WidthAt(i: nat, width: real, s: Settings, items: seq<Item>, mergers: seq<real>): real
    requires i < |items| <= |mergers|
  {
    if s.autoWidth then items[i].width else GridWidth(width, s) * MergeValue(mergers[i], s)
  }

  function WidthsOf(width: real, s: Settings, items: seq<Item>, mergers: seq<real>): seq<real>
    requires |items| <= |mergers|
  {
    seq(|items|, i requires 0 <= i < |items| => WidthAt(i, width, s, items, mergers))
  }

  function RepeatsOf(s: Settings, n: nat): nat { Repeats(s.items, s.loop, s.rewind, n) }

  function Pick(items: seq<Item>, indices: seq<int>): seq<Item>
    requires forall i :: 0 <= i < |indices| ==> 0 <= indices[i] < |items|
  {
    seq(|indices|, i requires 0 <= i < |indices| => items[indices[i]])
  }

  /** The coordinate of stage position p: one item and one margin further than
      the position before. */
  function CoordinateAt(p: nat, widths: seq<real>, s: Settings, r: nat): real
    requires widths != []
  {
    (if p == 0 then 0.0 else CoordinateAt(p - 1, widths, s, r))
    + (widths[Mod(p - r, |widths|)] + s.margin) * (if s.rtl then 1.0 else -1.0)
  }

  function CoordinatesTo(k: nat, widths: seq<real>, s: Settings, r: nat): seq<real>
    requires k > 0 ==> widths != []
  {
    seq(k, p requires 0 <= p < k => CoordinateAt(p, widths, s, r))
  }

  function CoordinatesOf(widths: seq<real>, s: Settings, r: nat): seq<real> {
    if widths == [] then [] else CoordinatesTo(|widths| + 2 * r, widths, s, r)
  }

  /** The clone list and both blocks of clones after k rounds of the loop. */
  predicate ClonesMade(list: seq<int>, append: seq<Item>, prepend: seq<Item>, items: seq<Item>, k: nat) {
    && (items == [] ==> k == 0)
    && list == CloneList(k, |items|)
    && append == Pick(items, Appended(k, |items|)) && prepend == Pick(items, Prepended(k, |items|))
  }

  lemma NoClonesMade(items: seq<Item>)
    ensures ClonesMade([], [], [], items, 0)
  {}

  /** What the widths worker leaves for the styling worker: whether some item is
      merged, and the width of a plain one. */
  datatype ItemSizes = ItemSizes(merge: bool, width: real)

  function SizesOf(width: real, s: Settings, n: nat, mergers: seq<real>): ItemSizes
    requires n <= |mergers|
  {
    ItemSizes(exists i :: 0 <= i < n && MergeValue(mergers[i], s) > 1.0, GridWidth(width, s))
  }

  function OwnWidths(items: seq<Item>): seq<real> {
    seq(|items|, i requires 0 <= i < |items| => items[i].width)
  }

  /** How wide the item elements are made: in a grid all alike, unless some item
      is merged. */
  function RenderedOf(width: real, s: Settings, items: seq<Item>, mergers: seq<real>): seq<real>
    requires |items| <= |mergers|
  {
    var sizes := SizesOf(width, s, |items|, mergers);
    if s.autoWidth then OwnWidths(items)
    else if sizes.merge then WidthsOf(width, s, items, mergers)
    else seq(|items|, _ => sizes.width)
  }

  /** Everything the workers derive from the inputs. */
  datatype Derived = Derived(
    width: real, widths: seq<real>, clones: seq<int>,
    prepended: seq<Item>, appended: seq<Item>, coordinates: seq<real>, rendered: seq<real>)

  /** What running all workers from scratch gives. */
  function FromScratch(elementWidth: real, s: Settings, items: seq<Item>, mergers: seq<real>): Derived
    requires |items| <= |mergers|
  {
    var n, r := |items|, RepeatsOf(s, |items|);
    var widths := WidthsOf(elementWidth, s, items, mergers);
    Derived(elementWidth, widths, CloneList(r, n), Pick(items, Prepended(r, n)), Pick(items, Appended(r, n)),
            CoordinatesOf(widths, s, r), RenderedOf(elementWidth, s, items, mergers))
  }

  /** Walking back from the last item until the element is full. */
  function Reach(rendered: seq<real>, k: nat, filled: real, s: Settings, elementWidth: real): int
    requires k <= |rendered|
  {
    if k == 0 then -1
    else
      var filled := filled + rendered[k - 1] + s.margin;
      if filled > elementWidth then k - 1 else Reach(rendered, k - 1, filled, s, elementWidth)
  }

  /** `maximum`, for m clones in all and items that are rendered that wide. */
  function MaximumOf(rendered: seq<real>, m: nat, s: Settings, elementWidth: real, relative: bool): int {
    var n := |rendered|;
    var absolute :=
      if s.loop then m / 2 + n - 1
      else if s.autoWidth || s.merge then
        (if n == 0 then 1 else Reach(rendered, n - 1, rendered[n - 1], s, elementWidth) + 1)
      else if s.center then n - 1
      else n - s.items;
    Max(if relative then absolute - m / 2 else absolute, 0)
  }

  lemma {:induction false} ReachInRange(rendered: seq<real>, k: nat, filled: real, s: Settings, elementWidth: real)
    requires k <= |rendered|
    ensures -1 <= Reach(rendered, k, filled, s, elementWidth) < Max(k, 0)
  {
    if k > 0 { ReachInRange(rendered, k - 1, filled + rendered[k - 1] + s.margin, s, elementWidth); }
  }

  /** The relative maximum is the index of an item. */
  lemma MaximumInRange(rendered: seq<real>, m: nat, s: Settings, elementWidth: real)
    requires rendered != []
    ensures 0 <= MaximumOf(rendered, m, s, elementWidth, true) < |rendered|
    ensures !s.loop ==> 0 <= MaximumOf(rendered, m, s, elementWidth, false) < |rendered|
  {
    ReachInRange(rendered, |rendered| - 1, rendered[|rendered| - 1], s, elementWidth);
  }

  /** Without looping, merging and centring, the maximum is the first position
      from which the view reaches the last item. */
  lemma MaximumShowsLast(rendered: seq<real>, m: nat, s: Settings, elementWidth: real, p: int)
    requires rendered != [] && !s.loop && !s.autoWidth && !s.merge && !s.center
    requires p >= 0
    ensures p >= MaximumOf(rendered, m, s, elementWidth, false) <==> p + s.items >= |rendered|
  {}

  /** With centring, every item can stand in the middle. */
  lemma MaximumCentred(rendered: seq<real>, m: nat, s: Settings, elementWidth: real, p: int)
    requires !s.loop && !s.autoWidth && !s.merge && s.center && rendered != []
    requires p >= 0
    ensures p <= MaximumOf(rendered, m, s, elementWidth, false) <==> p < |rendered|
  {}

  /** The room that items k to the last take, with the margins between them. */
  function RoomFrom(rendered: seq<real>, k: nat, s: Settings): real
    requires k < |rendered|
    decreases |rendered| - k
  {
    rendered[k] + (if k == |rendered| - 1 then 0.0 else s.margin + RoomFrom(rendered, k + 1, s))
  }

  lemma {:induction false} ReachIsTight(rendered: seq<real>, k: nat, s: Settings, elementWidth: real)
    requires k < |rendered|
    ensures var stop := Reach(rendered, k, RoomFrom(rendered, k, s), s, elementWidth);
      && -1 <= stop < Max(k, 0)
      && (stop >= 0 ==> RoomFrom(rendered, stop, s) > elementWidth)
      && (forall i :: stop < i < k ==> RoomFrom(rendered, i, s) <= elementWidth)
  {
    if k > 0 {
      assert RoomFrom(rendered, k - 1, s) == rendered[k - 1] + (s.margin + RoomFrom(rendered, k, s));
      assert RoomFrom(rendered, k, s) + rendered[k - 1] + s.margin == RoomFrom(rendered, k - 1, s);
      if RoomFrom(rendered, k - 1, s) <= elementWidth { ReachIsTight(rendered, k - 1, s, elementWidth); }
    }
  }

  /** With merging or automatic widths, what lies behind the maximum fits into
      the element, and one item more would not. */
  lemma MaximumFits(rendered: seq<real>, m: nat, s: Settings, elementWidth: real)
    requires rendered != [] && !s.loop && (s.autoWidth || s.merge)
    ensures var max := MaximumOf(rendered, m, s, elementWidth, false);
      && 0 <= max < |rendered|
      && (max > 0 ==> RoomFrom(rendered, max - 1, s) > elementWidth)
      && (forall i :: max <= i < |rendered| - 1 ==> RoomFrom(rendered, i, s) <= elementWidth)
  {
    ReachIsTight(rendered, |rendered| - 1, s, elementWidth);
  }

  /** It is a number of thousandths. */
  lemma Fixed3Digits(x: real)
    ensures (Fixed3(x) * 1000.0).Floor as real == Fixed3(x) * 1000.0
  {
    var whole := if x < 0.0 then -(-x * 1000.0 + 0.5).Floor else (x * 1000.0 + 0.5).Floor;
    assert Fixed3(x) * 1000.0 == whole as real;
  }

  lemma Fixed3Error(x: real)
    ensures -0.0005 <= Fixed3(x) - x <= 0.0005
  {}

  /** As many grid items as are to be shown, each with a margin, fill the view up
      to the rounding of the width to three decimals. */
  lemma GridFillsView(width: real, s: Settings)
    ensures var view := width - s.stagePadding * 2.0 + s.margin;
      var n, each := s.items as real, GridWidth(width, s) + s.margin;
      -0.0005 * n <= n * each - view <= 0.0005 * n
  {
    var view, n := width - s.stagePadding * 2.0 + s.margin, s.items as real;
    var share := view / n;
    WholeOfShares(view, n);
    RoundedShare(view, share, Fixed3(share), n);
  }

  lemma WholeOfShares(view: real, n: real)
    requires n > 0.0
    ensures n * (view / n) == view
  {}

  lemma RoundedShare(view: real, share: real, each: real, n: real)
    requires n > 0.0 && n * share == view && each == Fixed3(share)
    ensures -0.0005 * n <= n * each - view <= 0.0005 * n
  {
    Fixed3Error(share);
    var d := each - share;
    Distribute(n, share, d);
    ErrorOfShares(n, d, n * d);
  }

  lemma Distribute(n: real, a: real, d: real)
    ensures n * (a + d) == n * a + n * d
  {}

  lemma ErrorOfShares(n: real, d: real, p: real)
    requires n > 0.0 && -0.0005 <= d <= 0.0005 && p == n * d
    ensures -0.0005 * n <= p <= 0.0005 * n
  {
    ProductNotNegative(n, 0.0005 - d);
    Distribute(n, 0.0005, -d);
    ProductNotNegative(n, d + 0.0005);
    Distribute(n, d, 0.0005);
  }

  lemma ProductNotNegative(a: real, b: real)
    requires a >= 0.0 && b >= 0.0
    ensures a * b >= 0.0
  {}

  /** What worker i derives anew, and that it leaves the rest alone; the styling
      worker is given `sizes`. */
  function Written(i: nat, d: Derived, sizes: ItemSizes, elementWidth: real, s: Settings, items: seq<Item>, mergers: seq<real>): Derived
    requires |items| <= |mergers| && (i == 6 && d.widths == [] ==> d.clones == [])
  {
    var n, r := |items|, RepeatsOf(s, |items|);
    if i == 0 then d.(width := elementWidth)
    else if i == 2 then d.(prepended := [], appended := [])
    else if i == 3 && s.autoWidth then d.(rendered := OwnWidths(items))
    else if i == 4 then d.(widths := WidthsOf(d.width, s, items, mergers))
    else if i == 5 then
      d.(clones := CloneList(r, n), prepended := Pick(items, Prepended(r, n)), appended := Pick(items, Appended(r, n)))
    else if i == 6 then d.(coordinates := CoordinatesOf(d.widths, s, |d.clones| / 2))
    else if i == 8 && !s.autoWidth then d.(rendered := if sizes.merge then d.widths else seq(n, _ => sizes.width))
    else d
  }

  // ---------- The pipe ----------

  /** The filters of the workers, in their order. */
  const FILTERS: seq<set<Part>> := [
    {ElementWidth, SettingsPart},                     // 0: measure the element
    {ElementWidth, ItemList, SettingsPart},           // 1: remember the current item
    {ItemList, SettingsPart},                         // 2: remove the clones
    {ElementWidth, ItemList, SettingsPart},           // 3: prepare the style
    {ElementWidth, ItemList, SettingsPart},           // 4: item widths
    {ItemList, SettingsPart},                         // 5: make the clones
    {ElementWidth, ItemList, SettingsPart},           // 6: coordinates
    {ElementWidth, ItemList, SettingsPart},           // 7: style the stage
    {ElementWidth, ItemList, SettingsPart},           // 8: style the items
    {ItemList},                                       // 9: unstyle an empty stage
    {ElementWidth, ItemList, SettingsPart},           // 10: restore the current item
    {Position},                                       // 11: animate
    {ElementWidth, Position, ItemList, SettingsPart}  // 12: mark the active items
  ]

  /** Whether worker i runs in an update with these parts invalidated. */
  predicate Triggered(i: nat, parts: set<Part>)
    requires i < |FILTERS|
  {
    Everything in parts || FILTERS[i] * parts != {}
  }

  /** Whether the workers run that write the width, the clones, the layout. */
  predicate WidthStale(parts: set<Part>) {
    Everything in parts || ElementWidth in parts || SettingsPart in parts
  }

  predicate ClonesStale(parts: set<Part>) {
    Everything in parts || ItemList in parts || SettingsPart in parts
  }

  predicate LayoutStale(parts: set<Part>) {
    Everything in parts || ElementWidth in parts || ItemList in parts || SettingsPart in parts
  }

  /** Which staleness makes worker i run, as far as it writes anything. */
  predicate RunsIfStale(i: nat, parts: set<Part>, runs: bool) {
    && (i == 0 ==> (runs <==> WidthStale(parts)))
    && (i == 2 || i == 5 ==> (runs <==> ClonesStale(parts)))
    && (i in {1, 3, 4, 6, 7, 8, 10} ==> (runs <==> LayoutStale(parts)))
  }

  lemma TriggeredIff(i: nat, parts: set<Part>)
    requires i < |FILTERS|
    ensures RunsIfStale(i, parts, Triggered(i, parts))
  {
    var w, l, s := ElementWidth in parts, ItemList in parts, SettingsPart in parts;
    assert w <==> ElementWidth in FILTERS[6] * parts;
    assert l <==> ItemList in FILTERS[6] * parts;
    assert s <==> SettingsPart in FILTERS[6] * parts;
    assert l <==> ItemList in FILTERS[5] * parts;
    assert s <==> SettingsPart in FILTERS[5] * parts;
    assert w <==> ElementWidth in FILTERS[0] * parts;
    assert s <==> SettingsPart in FILTERS[0] * parts;
  }

  /** What one update passes from worker to worker; None is an entry not yet written. */
  datatype Cache = Cache(current: Option<Option<nat>>, css: Option<real>, items: Option<ItemSizes>)

  function SizesIn(cache: Cache): ItemSizes {
    if cache.items.Some? then cache.items.value else ItemSizes(false, 0.0)
  }

  /** What is derived in front of worker i. */
  ghost predicate DerivedMidway(i: nat, d: Derived, cache: Cache, want: Derived, parts: set<Part>, s: Settings, n: nat, mergers: seq<real>)
    requires n <= |mergers|
  {
    && (i >= 1 || !WidthStale(parts) ==> d.width == want.width)
    && (i >= 5 || !LayoutStale(parts) ==> d.widths == want.widths)
    && (i >= 6 || !ClonesStale(parts) ==>
          d.clones == want.clones && d.prepended == want.prepended && d.appended == want.appended)
    && (i >= 7 || !LayoutStale(parts) ==> d.coordinates == want.coordinates)
    && (i >= 9 || (i >= 4 && s.autoWidth) || !LayoutStale(parts) ==> d.rendered == want.rendered)
    && (LayoutStale(parts) && i >= 5 ==> cache.items == Some(SizesOf(want.width, s, n, mergers)))
    && (ClonesStale(parts) && 3 <= i < 6 ==> d.prepended == [] && d.appended == [])
    && |d.rendered| == n
  }

  lemma WorkerWrites(i: nat, d: Derived, cache: Cache, c: Cache, want: Derived, parts: set<Part>, runs: bool,
                     elementWidth: real, s: Settings, items: seq<Item>, mergers: seq<real>)
    requires |items| <= |mergers| && want == FromScratch(elementWidth, s, items, mergers)
    requires i < |FILTERS| && RunsIfStale(i, parts, runs) && DerivedMidway(i, d, cache, want, parts, s, |items|, mergers)
    requires c.items == if runs && i == 4 then Some(SizesOf(d.width, s, |items|, mergers)) else cache.items
    ensures i == 6 ==> |d.widths| == |items| && (items == [] ==> d.clones == [])
    ensures var after := if runs then Written(i, d, SizesIn(cache), elementWidth, s, items, mergers) else d;
      && DerivedMidway(i + 1, after, c, want, parts, s, |items|, mergers)
      && (|d.clones| % 2 == 0 ==> |after.clones| % 2 == 0)
      && (i != 5 || !runs ==> after.clones == d.clones)
      && (i >= 9 || !LayoutStale(parts) ==> after.rendered == d.rendered)
      && (i == 10 ==> |after.prepended| == |after.clones| / 2)
  {}

  /** What worker i finds done when it runs. */
  ghost predicate FoundDone(i: nat, d: Derived, s: Settings, items: seq<Item>) {
    && (i == 4 && s.autoWidth ==> d.rendered == OwnWidths(items))
    && (i == 5 ==> d.prepended == [] && d.appended == [])
    && (i == 6 ==> |d.widths| == |items| && (items == [] ==> d.clones == []))
    && (i == 8 ==> |d.widths| == |items| && |d.coordinates| == (if items == [] then 0 else |items| + |d.clones|))
    && |d.rendered| == |items|
  }

  lemma WorkerFindsDone(i: nat, d: Derived, cache: Cache, want: Derived, parts: set<Part>,
                        elementWidth: real, s: Settings, items: seq<Item>, mergers: seq<real>)
    requires |items| <= |mergers| && want == FromScratch(elementWidth, s, items, mergers)
    requires i < |FILTERS| && RunsIfStale(i, parts, true) && DerivedMidway(i, d, cache, want, parts, s, |items|, mergers)
    ensures FoundDone(i, d, s, items)
  {}

  /** Where item k is, or the nearest place to it that the range allows. */
  function Kept(k: int, rendered: seq<real>, m: nat, s: Settings, elementWidth: real): int {
    Max(m / 2, Min(MaximumOf(rendered, m, s, elementWidth, false), m / 2 + k))
  }

  /** What worker i does to the current position (from `before` to `current`)
      and to the cache (from `cache` to `c`), with d derived so far. */
  ghost predicate Remembered(i: nat, cache: Cache, before: int, c: Cache, current: int, d: Derived,
                             s: Settings, elementWidth: real, n: nat, mergers: seq<real>)
    requires n <= |mergers|
  {
    var r := |d.clones| / 2;
    && (i != 10 ==> current == before)
    && (i == 10 && n > 0 ==> 0 <= current < n + |d.clones|)
    && (i == 10 && n > 0 && |d.prepended| == r ==>
          forall k: nat :: cache.current == Some(Some(k)) && k < n ==>
            current == Kept(k, d.rendered, |d.clones|, s, elementWidth))
    && (i == 1 ==> c.current.Some?)
    && (i == 1 && n > 0 ==> c.current == Some(Some(Mod(current - r, n))))
    && (i != 1 ==> c.current == cache.current)
    && c.css.Some? == (i == 3 || cache.css.Some?)
    && c.items == (if i == 4 then Some(SizesOf(d.width, s, n, mergers)) else cache.items)
  }

  /** What is remembered in front of worker i; the update began at the position
      `was`, which showed the item `shown`. */
  ghost predicate ItemMidway(i: nat, cache: Cache, current: int, n: nat, d: Derived, s: Settings, elementWidth: real,
                             parts: set<Part>, was: int, shown: int, wereClones: seq<int>) {
    && (i < 6 || !ClonesStale(parts) ==> d.clones == wereClones)
    && (LayoutStale(parts) && i >= 2 ==> cache.current.Some?)
    && (LayoutStale(parts) && i >= 4 ==> cache.css.Some?)
    && (LayoutStale(parts) && i >= 5 ==> cache.items.Some?)
    && (i <= 10 || !LayoutStale(parts) ==> current == was)
    && (n > 0 ==>
          && 0 <= shown < n
          && (i < 6 || !ClonesStale(parts) ==> shown == Mod(was - |d.clones| / 2, n))
          && (LayoutStale(parts) && i >= 2 ==> cache.current == Some(Some(shown)))
          && (LayoutStale(parts) && i > 10 ==> current == Kept(shown, d.rendered, |d.clones|, s, elementWidth)))
  }

  /** Every cache entry that worker i reads has been written in this update. */
  lemma WorkerReadsWritten(i: nat, cache: Cache, current: int, n: nat, d: Derived, s: Settings, elementWidth: real,
                           parts: set<Part>, was: int, shown: int, wereClones: seq<int>)
    requires RunsIfStale(i, parts, true)
    requires ItemMidway(i, cache, current, n, d, s, elementWidth, parts, was, shown, wereClones)
    ensures i == 8 ==> cache.css.Some? && cache.items.Some?
    ensures i == 10 ==> cache.current.Some?
  {}

  lemma SkippedRemembers(i: nat, cache: Cache, current: int, n: nat, d: Derived, s: Settings, elementWidth: real,
                         parts: set<Part>, was: int, shown: int, wereClones: seq<int>)
    requires i < |FILTERS| && RunsIfStale(i, parts, false)
    requires ItemMidway(i, cache, current, n, d, s, elementWidth, parts, was, shown, wereClones)
    ensures ItemMidway(i + 1, cache, current, n, d, s, elementWidth, parts, was, shown, wereClones)
  {}

  lemma WorkerRemembers(i: nat, cache: Cache, before: int, c: Cache, current: int, n: nat, mergers: seq<real>, d: Derived, after: Derived,
                        s: Settings, elementWidth: real, parts: set<Part>, was: int, shown: int, wereClones: seq<int>)
    requires i < |FILTERS| && RunsIfStale(i, parts, true) && n <= |mergers|
    requires ItemMidway(i, cache, before, n, d, s, elementWidth, parts, was, shown, wereClones)
    requires Remembered(i, cache, before, c, current, after, s, elementWidth, n, mergers)
    requires i != 5 ==> after.clones == d.clones
    requires i >= 9 ==> after.rendered == d.rendered
    requires i == 10 ==> |after.prepended| == |after.clones| / 2
    ensures ItemMidway(i + 1, c, current, n, after, s, elementWidth, parts, was, shown, wereClones)
  {}

  /** One worker that ran, as far as the state between workers goes. */
  lemma WorkerKeeps(i: nat, cache: Cache, c: Cache, d: Derived, after: Derived, before: int, current: int, want: Derived,
                    parts: set<Part>, elementWidth: real, s: Settings, items: seq<Item>, mergers: seq<real>,
                    was: int, shown: int, wereClones: seq<int>)
    requires |items| <= |mergers| && want == FromScratch(elementWidth, s, items, mergers)
    requires i < |FILTERS| && RunsIfStale(i, parts, true) && |d.clones| % 2 == 0
    requires DerivedMidway(i, d, cache, want, parts, s, |items|, mergers)
    requires ItemMidway(i, cache, before, |items|, d, s, elementWidth, parts, was, shown, wereClones)
    requires FoundDone(i, d, s, items)
    requires after == Written(i, d, SizesIn(cache), elementWidth, s, items, mergers)
    requires Remembered(i, cache, before, c, current, after, s, elementWidth, |items|, mergers)
    ensures |after.clones| % 2 == 0
    ensures DerivedMidway(i + 1, after, c, want, parts, s, |items|, mergers)
    ensures ItemMidway(i + 1, c, current, |items|, after, s, elementWidth, parts, was, shown, wereClones)
  {
    WorkerWrites(i, d, cache, c, want, parts, true, elementWidth, s, items, mergers);
    WorkerRemembers(i, cache, before, c, current, |items|, mergers, d, after, s, elementWidth, parts, was, shown, wereClones);
  }

  /** The items are the content, and its merge values stand behind those before. */
  predicate Filled(content: seq<(Item, real)>, items: seq<Item>, before: seq<real>, mergers: seq<real>) {
    && |items| == |content| && (forall i :: 0 <= i < |content| ==> items[i] == content[i].0)
    && before <= mergers && |mergers| == |before| + |content|
    && forall i :: 0 <= i < |content| ==> mergers[|before| + i] == content[i].1
  }

  /** The merge value at an item's index is its own. */
  predicate OwnMergers(content: seq<(Item, real)>, mergers: seq<real>) {
    |content| <= |mergers| && forall i :: 0 <= i < |content| ==> mergers[i] == content[i].1
  }

  /** The merge value at index i when the old ones stay in front. */
  function MergerAt(before: seq<real>, content: seq<(Item, real)>, i: nat): real
    requires i < |content|
  {
    if i < |before| then before[i] else content[i - |before|].1
  }

  /** The new merge values repeat the old ones, and then themselves. */
  predicate RepeatsOld(before: seq<real>, content: seq<(Item, real)>) {
    forall i: nat :: i < |content| ==> content[i].1 == MergerAt(before, content, i)
  }

  lemma MergersAt(content: seq<(Item, real)>, items: seq<Item>, before: seq<real>, mergers: seq<real>, i: nat)
    requires Filled(content, items, before, mergers) && i < |content|
    ensures mergers[i] == MergerAt(before, content, i)
  {
    if i >= |before| { assert mergers[|before| + (i - |before|)] == content[i - |before|].1; }
  }

  /** As old merge values stay in front, this is so after replacing the items
      exactly when the new values repeat the old ones. */
  lemma OwnMergersIff(content: seq<(Item, real)>, items: seq<Item>, before: seq<real>, mergers: seq<real>)
    requires Filled(content, items, before, mergers)
    ensures OwnMergers(content, mergers) <==> RepeatsOld(before, content)
  {
    if OwnMergers(content, mergers) {
      forall i: nat | i < |content| ensures content[i].1 == MergerAt(before, content, i) {
        MergersAt(content, items, before, mergers, i);
        assert mergers[i] == content[i].1;
      }
    }
    if RepeatsOld(before, content) {
      forall i: nat | i < |content| ensures mergers[i] == content[i].1 {
        MergersAt(content, items, before, mergers, i);
        assert content[i].1 == MergerAt(before, content, i);
      }
    }
  }

  /** For all new items, it is so exactly when the carousel had no merge values. */
  lemma FreshMergersIff(before: seq<real>, n: nat)
    ensures (forall content: seq<(Item, real)>, items, mergers ::
               |content| == n && Filled(content, items, before, mergers) ==> OwnMergers(content, mergers))
      <==> before == [] || n == 0
  {
    if before == [] || n == 0 {
      forall content: seq<(Item, real)>, items, mergers | |content| == n && Filled(content, items, before, mergers)
        ensures OwnMergers(content, mergers)
      {
        OwnMergersIff(content, items, before, mergers);
      }
    } else {
      var item, merge := Item(0, 0.0), before[0] + 1.0;
      var content, items, values := seq(n, _ => (item, merge)), seq(n, _ => item), seq(n, _ => merge);
      assert Filled(content, items, before, before + values);
      OwnMergersIff(content, items, before, before + values);
      assert content[0].1 != MergerAt(before, content, 0);
    }
  }

  class Owl {
    // inputs
    var elementWidth: real
    var settings: Settings
    var items: seq<Item>
    var mergers: seq<real>
    // derived by the workers; the stage is prepended + items + appended
    var width: real
    var clones: seq<int>
    var prepended: seq<Item>
    var appended: seq<Item>
    var widths: seq<real>
    var coordinates: seq<real>
    var rendered: seq<real> // how wide each item's element is
    // state
    var current: int
    var invalidated: set<Part>
    var validCount: nat

    // ---------- Freshness ----------

    function Present(): Derived
      reads this
    {
      Derived(width, widths, clones, prepended, appended, coordinates, rendered)
    }

    ghost function Wanted(): Derived
      reads this
      requires |items| <= |mergers|
    {
      FromScratch(elementWidth, settings, items, mergers)
    }

    /** What the workers that these parts do not trigger would write is there already. */
    ghost predicate SkippedAreFresh(want: Derived)
      reads this
    {
      && (!WidthStale(invalidated) ==> width == want.width)
      && (!ClonesStale(invalidated) ==> clones == want.clones && prepended == want.prepended && appended == want.appended)
      && (!LayoutStale(invalidated) ==>
            widths == want.widths && coordinates == want.coordinates && rendered == want.rendered)
    }

    ghost predicate Valid()
      reads this
    {
      && |items| == |rendered| && |items| <= |mergers|
      && |clones| % 2 == 0
      && SkippedAreFresh(Wanted())
      && validCount <= 1
      && (validCount > 0 ==> invalidated == {})
    }

    /** The index of the item that a position shows. */
    ghost function ItemUnder(position: int): (item: int)
      reads this
      requires |clones| % 2 == 0
      ensures items != [] ==> 0 <= item < |items|
    {
      if items == [] then 0 else Mod(position - |clones| / 2, |items|)
    }

    constructor (elementWidth: real, settings: Settings)
      ensures Valid() && items == [] && invalidated == {SettingsPart}
    {
      this.elementWidth, this.settings := elementWidth, settings;
      items, mergers, clones, prepended, appended := [], [], [], [], [];
      width, widths, coordinates, rendered, current := 0.0, [], [], [], 0;
      invalidated, validCount := {SettingsPart}, 0;
      new;
    }

    // ---------- Changing the inputs ----------

    /** Whatever happens to the items, it is enough to invalidate them. */
    twostate lemma ItemsInvalidated()
      requires old(Valid()) && |items| == |rendered| && |items| <= |mergers|
      requires unchanged(this`elementWidth, this`settings, this`width, this`clones)
      requires invalidated == old(invalidated) + {ItemList} && validCount == Max(old(validCount) - 1, 0)
      ensures Valid()
    {}

    method Invalidate(part: Part)
      modifies this`invalidated, this`validCount
      ensures invalidated == old(invalidated) + {part}
      ensures validCount == if old(validCount) > 0 then old(validCount) - 1 else 0
    {
      invalidated := invalidated + {part};
      if validCount > 0 { validCount := validCount - 1; }
    }

    method Resize(elementWidth: real)
      requires Valid()
      modifies this
      ensures Valid() && this.elementWidth == elementWidth && ElementWidth in invalidated
      ensures settings == old(settings) && items == old(items) && mergers == old(mergers)
      ensures current == old(current) && clones == old(clones)
    {
      this.elementWidth := elementWidth;
      Invalidate(ElementWidth);
    }

    method Setup(settings: Settings)
      requires Valid()
      modifies this
      ensures Valid() && this.settings == settings && SettingsPart in invalidated
      ensures elementWidth == old(elementWidth) && items == old(items) && mergers == old(mergers)
      ensures current == old(current) && clones == old(clones)
    {
      this.settings := settings;
      Invalidate(SettingsPart);
    }

    /** Rewrites the settings without invalidating: only legal behind `Setup`. */
    method OptionsLogic()
      requires Valid() && SettingsPart in invalidated
      modifies this`settings
      ensures Valid()
      ensures settings == if old(settings).autoWidth then old(settings).(stagePadding := 0.0, merge := false) else old(settings)
    {
      if settings.autoWidth {
        settings := settings.(stagePadding := 0.0, merge := false);
      }
    }

    method Reset(position: int)
      modifies this`current
      ensures current == match Normalize(position, |items|, |clones|) case Some(p) => p case None => old(current)
    {
      var p := Normalize(position, |items|, |clones|);
      if p.Some? { current := p.value; }
    }

    /** Replaces the items; the merge values of the new ones are appended. */
    method Replace(content: seq<(Item, real)>, startPosition: int)
      requires Valid()
      modifies this
      ensures Valid() && ItemList in invalidated
      ensures Filled(content, items, old(mergers), mergers) && rendered == OwnWidths(items)
      ensures elementWidth == old(elementWidth) && settings == old(settings)
      ensures current == match Normalize(startPosition, |items|, |clones|) case Some(p) => p case None => old(current)
      ensures prepended == [] && appended == [] && clones == old(clones)
    {
      Refill(content);
      Reset(startPosition);
      Invalidate(ItemList);
      ItemsInvalidated();
    }

    method Refill(content: seq<(Item, real)>)
      modifies this`items, this`mergers, this`rendered, this`prepended, this`appended
      ensures Filled(content, items, old(mergers), mergers) && rendered == OwnWidths(items)
      ensures prepended == [] && appended == []
    {
      prepended, appended := [], [];
      items, rendered := [], [];
      AppendAll(content);
    }

    method AppendAll(content: seq<(Item, real)>)
      requires items == [] && rendered == []
      modifies this`items, this`mergers, this`rendered
      ensures Filled(content, items, old(mergers), mergers) && rendered == OwnWidths(items)
    {
      var i := 0;
      while i < |content|
        invariant i <= |content| && |items| == i && rendered == OwnWidths(items)
        invariant forall j :: 0 <= j < i ==> items[j] == content[j].0
        invariant |mergers| == |old(mergers)| + i && old(mergers) <= mergers
        invariant forall j :: 0 <= j < i ==> mergers[|old(mergers)| + j] == content[j].1
      {
        items := items + [content[i].0];
        rendered := rendered + [content[i].0.width];
        mergers := mergers + [content[i].1];
        i := i + 1;
      }
    }

    /** `normalize(position, true)` on a carousel with items. */
    method RelativeIndex(position: int) returns (p: nat)
      requires items != []
      ensures p < |items| && p == Mod(position, |items|)
    {
      RelativeIsMod(position, |items|, 0);
      p := Normalize(position, |items|, 0).value;
    }

    method Add(content: Item, merge: real, at: Option<int>)
      requires Valid()
      modifies this
      ensures Valid() && ItemList in invalidated
      ensures elementWidth == old(elementWidth) && settings == old(settings)
      ensures var n := |old(items)|;
        var p := if n == 0 || at.None? then n else Mod(at.value, n);
        var q := if p == n then |old(mergers)| else p;
        && items == old(items)[..p] + [content] + old(items)[p..]
        && mergers == old(mergers)[..q] + [merge] + old(mergers)[q..]
      ensures if old(items) == [] then current == old(current)
        else Some(current) == Normalize(|prepended| + old(ItemUnder(current)), |items|, |clones|)
    {
      var p := |items|;
      if items != [] && at.Some? {
        p := RelativeIndex(at.value);
      }
      InsertAndStay(p, content, merge);
      Invalidate(ItemList);
      ItemsInvalidated();
    }

    /** Inserts an item; the current position stays at the same index, which is
        that of another item if the new one comes before it. */
    method InsertAndStay(p: nat, content: Item, merge: real)
      requires p <= |items| <= |mergers| && |items| == |rendered| && |clones| % 2 == 0
      modifies this`items, this`mergers, this`rendered, this`current
      ensures items == old(items)[..p] + [content] + old(items)[p..] && |items| == |rendered|
      ensures var q := if p == |old(items)| then |old(mergers)| else p;
        mergers == old(mergers)[..q] + [merge] + old(mergers)[q..]
      ensures if old(items) == [] then current == old(current)
        else Some(current) == Normalize(|prepended| + old(ItemUnder(current)), |items|, |clones|)
    {
      var currentItem: Option<nat> := None;
      if items != [] {
        var k := RelativeItem(current);
        currentItem := Some(k);
      }
      InsertAt(p, content, merge);
      if currentItem.Some? {
        Reset(|prepended| + currentItem.value);
      }
    }

    /** Puts an item and its merge value in front of entry p, or at the end. */
    method InsertAt(p: nat, content: Item, merge: real)
      requires p <= |items| <= |mergers| && |items| == |rendered|
      modifies this`items, this`mergers, this`rendered
      ensures items == old(items)[..p] + [content] + old(items)[p..]
      ensures rendered == old(rendered)[..p] + [content.width] + old(rendered)[p..]
      ensures var q := if p == |old(items)| then |old(mergers)| else p;
        mergers == old(mergers)[..q] + [merge] + old(mergers)[q..]
    {
      if p == |items| {
        items := items + [content];
        mergers := mergers + [merge];
      } else {
        items := items[..p] + [content] + items[p..];
        mergers := mergers[..p] + [merge] + mergers[p..];
      }
      rendered := rendered[..p] + [content.width] + rendered[p..];
    }

    method Remove(at: int)
      requires Valid()
      modifies this
      ensures Valid()
      ensures elementWidth == old(elementWidth) && settings == old(settings) && current == old(current)
      ensures var n := |old(items)|;
        if n == 0 then items == [] && invalidated == old(invalidated)
        else
          var p := Mod(at, n);
          && items == old(items)[..p] + old(items)[p + 1..] && ItemList in invalidated
          && mergers == old(mergers)[..p] + old(mergers)[p + 1..]
    {
      if items == [] { return; }
      var p := RelativeIndex(at);
      items := items[..p] + items[p + 1..];
      mergers := mergers[..p] + mergers[p + 1..];
      rendered := rendered[..p] + rendered[p + 1..];
      Invalidate(ItemList);
      ItemsInvalidated();
    }

    // ---------- The workers ----------

    method ComputeWidths() returns (sizes: ItemSizes)
      requires |items| == |rendered| && |items| <= |mergers| && (settings.autoWidth ==> rendered == OwnWidths(items))
      modifies this`widths
      ensures widths == WidthsOf(width, settings, items, mergers)
      ensures sizes == SizesOf(width, settings, |items|, mergers)
    {
      sizes := ItemSizes(false, GridWidth(width, settings));
      var index, ws := |items|, seq(|items|, _ => 0.0);
      while index > 0
        invariant 0 <= index <= |items| == |ws| && sizes.width == GridWidth(width, settings)
        invariant forall i :: index <= i < |items| ==> ws[i] == WidthAt(i, width, settings, items, mergers)
        invariant sizes.merge <==> exists i :: index <= i < |items| && MergeValue(mergers[i], settings) > 1.0
      {
        index := index - 1;
        var w, merged := ComputeWidth(index, sizes.width);
        sizes := sizes.(merge := merged || sizes.merge);
        ws := ws[index := w];
      }
      widths := ws;
    }

    /** One turn of that loop. */
    method ComputeWidth(index: nat, itemWidth: real) returns (w: real, merged: bool)
      requires index < |items| == |rendered| && |items| <= |mergers|
      requires (settings.autoWidth ==> rendered == OwnWidths(items)) && itemWidth == GridWidth(width, settings)
      ensures w == WidthAt(index, width, settings, items, mergers)
      ensures merged <==> MergeValue(mergers[index], settings) > 1.0
    {
      var merge := mergers[index];
      merge := if settings.mergeFit && RMin(merge, settings.items as real) != 0.0
               then RMin(merge, settings.items as real) else merge;
      merged := merge > 1.0;
      w := if settings.autoWidth then rendered[index] else itemWidth * merge;
    }

    /** Gives every item element its width in a grid. */
    method StyleItems(sizes: ItemSizes)
      requires |items| == |rendered| == |widths| && |clones| % 2 == 0
      requires |coordinates| == if items == [] then 0 else |items| + |clones|
      modifies this`rendered
      ensures rendered == if settings.autoWidth then old(rendered)
        else if sizes.merge then widths else seq(|items|, _ => sizes.width)
    {
      if !settings.autoWidth && sizes.merge {
        var index, r, ws := |coordinates|, |clones| / 2, rendered;
        while index > 0
          invariant index <= |coordinates| && |ws| == |items|
          invariant forall k :: 0 <= k < |items| && index <= r + k ==> ws[k] == widths[k]
        {
          index := index - 1;
          var item := RelativeItem(index);
          if r <= index < r + |items| { ws := ws[index - r := widths[item]]; }
        }
        rendered := ws;
      } else if !settings.autoWidth {
        rendered := seq(|items|, _ => sizes.width);
      }
    }

    method RepeatCount() returns (repeat: nat)
      ensures repeat == RepeatsOf(settings, |items|) && (items == [] ==> repeat == 0)
    {
      var view, size := Max(settings.items * 2, 4), (|items| + 1) / 2 * 2;
      repeat := if settings.loop && |items| > 0 then (if settings.rewind then view else Max(view, size)) else 0;
      repeat := repeat / 2;
    }

    method MakeClones()
      requires prepended == [] && appended == []
      modifies this`clones, this`prepended, this`appended
      ensures ClonesMade(clones, appended, prepended, items, RepeatsOf(settings, |items|))
    {
      var repeat := RepeatCount();
      clones, appended, prepended := ClonePairs(repeat);
    }

    method ClonePairs(repeat0: nat) returns (list: seq<int>, append: seq<Item>, prepend: seq<Item>)
      requires items == [] ==> repeat0 == 0
      ensures ClonesMade(list, append, prepend, items, repeat0)
    {
      list, append, prepend := [], [], [];
      NoClonesMade(items);
      var repeat := repeat0;
      ghost var k: nat := 0;
      while repeat > 0
        invariant 0 <= repeat && k + repeat == repeat0
        invariant ClonesMade(list, append, prepend, items, k)
      {
        list, append, prepend := MakeClonePair(list, append, prepend, k);
        repeat, k := repeat - 1, k + 1;
      }
    }

    /** One round of the clone loop: an item from the front goes behind the
        stage, one from the back in front of it. */
    method MakeClonePair(list0: seq<int>, append0: seq<Item>, prepend0: seq<Item>, ghost k: nat)
      returns (list: seq<int>, append: seq<Item>, prepend: seq<Item>)
      requires items != [] && ClonesMade(list0, append0, prepend0, items, k)
      ensures ClonesMade(list, append, prepend, items, k + 1)
    {
      ghost var n := |items|;
      CloneStep(k, n);
      var a := RelativeIndex(|list0| / 2);
      list := list0 + [a];
      append := append0 + [items[a]];
      var p := RelativeIndex(|items| - 1 - (|list| - 1) / 2);
      list := list + [p];
      prepend := [items[p]] + prepend0;
      PickStep(items, Appended(k, n), Prepended(k, n), a, p);
    }

    /** `relative(position)` on a carousel with items. */
    method RelativeItem(position: int) returns (item: nat)
      requires items != [] && |clones| % 2 == 0
      ensures item < |items| && item == Mod(position - |clones| / 2, |items|)
    {
      RelativeIsMod(position, |items|, |clones| / 2);
      item := Relative(position, |items|, |clones|).value;
    }

    method ComputeCoordinates()
      requires |clones| % 2 == 0 && |widths| == |items| && (items == [] ==> clones == [])
      modifies this`coordinates
      ensures coordinates == CoordinatesOf(widths, settings, |clones| / 2)
    {
      var size := |clones| + |items|;
      var index := 0;
      var cs: seq<real> := [];
      while index < size
        invariant index <= size && (size > 0 ==> items != [])
        invariant cs == CoordinatesTo(index, widths, settings, |clones| / 2)
      {
        cs := NextCoordinate(index, cs);
        index := index + 1;
      }
      coordinates := cs;
    }

    method NextCoordinate(index: nat, cs: seq<real>) returns (more: seq<real>)
      requires |clones| % 2 == 0 && |widths| == |items| && items != []
      requires cs == CoordinatesTo(index, widths, settings, |clones| / 2)
      ensures more == CoordinatesTo(index + 1, widths, settings, |clones| / 2)
    {
      var rtl := if settings.rtl then 1.0 else -1.0;
      var previous := if index == 0 then 0.0 else cs[index - 1];
      var item := RelativeItem(index);
      more := cs + [previous + (widths[item] + settings.margin) * rtl];
    }

    /** `maximum()`, with its loop over the item widths. */
    method Maximum(relative: bool) returns (max: int)
      requires |items| == |rendered|
      ensures max == MaximumOf(rendered, |clones|, settings, elementWidth, relative)
    {
      var n := |items|;
      if settings.loop {
        max := |clones| / 2 + n - 1;
      } else if settings.autoWidth || settings.merge {
        var index := n;
        if index > 0 {
          index := index - 1;
          var filled := rendered[index];
          ghost var reach := Reach(rendered, index, filled, settings, elementWidth);
          while true
            invariant 0 <= index < n
            invariant Reach(rendered, index, filled, settings, elementWidth) == reach
            decreases index
          {
            if index == 0 { index := -1; break; }
            index := index - 1;
            filled := filled + rendered[index] + settings.margin;
            if filled > elementWidth { break; }
          }
          assert index == reach;
        }
        max := index + 1;
      } else if settings.center {
        max := n - 1;
      } else {
        max := n - settings.items;
      }
      if relative { max := max - |clones| / 2; }
      max := Max(max, 0);
    }

    /** Puts the current position back on the remembered item. */
    method RestoreCurrent(remembered: Option<nat>)
      requires |clones| % 2 == 0 && |items| == |rendered|
      modifies this`current
      ensures items == [] ==> current == old(current)
      ensures items != [] ==> 0 <= current < |items| + |clones|
      ensures items != [] && remembered.Some? && remembered.value < |items| && |prepended| == |clones| / 2
        ==> current == Kept(remembered.value, rendered, |clones|, settings, elementWidth)
    {
      var index := match remembered case Some(k) => |prepended| + k case None => 0;
      var maximum := Maximum(false);
      index := Max(|clones| / 2, Min(maximum, index));
      Reset(index);
      if items != [] { NormalizeSound(index, |items|, |clones| / 2); }
    }

    /** Worker i. What it reads from the cache must have been written in this
        same update. */
    method RunWorker(i: nat, cache: Cache) returns (c: Cache)
      requires i < |FILTERS| && |items| <= |mergers| && |clones| % 2 == 0
      requires FoundDone(i, Present(), settings, items)
      requires i == 8 ==> cache.css.Some? && cache.items.Some?
      requires i == 10 ==> cache.current.Some?
      modifies this`width, this`clones, this`prepended, this`appended, this`widths, this`coordinates, this`rendered, this`current
      ensures Present() == Written(i, old(Present()), SizesIn(cache), elementWidth, settings, items, mergers)
      ensures Remembered(i, cache, old(current), c, current, Present(), settings, elementWidth, |items|, mergers)
    {
      c := cache;
      if i == 0 {
        width := elementWidth;
      } else if i == 1 {
        var item: Option<nat> := None;
        if items != [] {
          var k := RelativeItem(current);
          item := Some(k);
        }
        c := c.(current := Some(item));
      } else if i == 2 {
        prepended, appended := [], [];
      } else if i == 3 {
        if settings.autoWidth { rendered := OwnWidths(items); }
        c := c.(css := Some(settings.margin));
      } else if i == 4 {
        var sizes := ComputeWidths();
        c := c.(items := Some(sizes));
      } else if i == 5 {
        MakeClones();
      } else if i == 6 {
        ComputeCoordinates();
      } else if i == 8 {
        StyleItems(c.items.value);
      } else if i == 10 {
        RestoreCurrent(c.current.value);
      }
    }

    // ---------- update ----------

    /** Runs the workers whose filter meets the invalidated parts. Afterwards
        everything is as if all had run from scratch, and the carousel shows the
        item that it showed, if it loops, or else the nearest one in range. A
        looping one then stands where moves are smooth. */
    method Update()
      requires Valid()
      modifies this
      ensures Valid() && Present() == Wanted() && invalidated == {} && validCount == 1
      ensures elementWidth == old(elementWidth) && settings == old(settings) && items == old(items) && mergers == old(mergers)
      ensures !LayoutStale(old(invalidated)) ==>
        current == old(current) && clones == old(clones) && rendered == old(rendered)
      ensures items != [] && settings.loop ==> ItemUnder(current) == old(ItemUnder(current))
      ensures items != [] && settings.loop && LayoutStale(old(invalidated)) ==>
        AtHome() && current == |clones| / 2 + old(ItemUnder(current))
      ensures items != [] && !settings.loop && LayoutStale(old(invalidated)) ==> NearestTo(old(ItemUnder(current)))
    {
      UpdateLayout(Wanted());
      invalidated := {};
      if validCount == 0 { validCount := validCount + 1; }
    }

    /** The current position is the given item if it is in range, else the end of
        the range, which is the nearest to it. */
    ghost predicate NearestTo(item: int)
      reads this
    {
      var max := MaximumOf(rendered, 0, settings, elementWidth, false);
      && 0 <= current <= max && max < |items| && clones == []
      && (item <= max ==> current == item)
      && (item > max ==> current == max)
    }

    lemma KeptInRange(item: int)
      requires items != [] && |items| == |rendered| && |items| <= |mergers| && Present() == Wanted() && 0 <= item < |items|
      requires current == Kept(item, rendered, |clones|, settings, elementWidth)
      ensures !settings.loop ==> NearestTo(item)
      ensures settings.loop ==> current == |clones| / 2 + item
    {
      MaximumInRange(rendered, |clones|, settings, elementWidth);
    }

    /** New settings and the update for them. Whatever changed, a carousel that
        then loops shows the item that it showed, and one that does not that item
        or the last that it can show. */
    method Refresh(settings: Settings)
      requires Valid()
      modifies this
      ensures Valid() && Present() == Wanted() && invalidated == {}
      ensures elementWidth == old(elementWidth) && items == old(items) && mergers == old(mergers)
      ensures this.settings == if settings.autoWidth then settings.(stagePadding := 0.0, merge := false) else settings
      ensures items != [] && settings.loop ==> ItemUnder(current) == old(ItemUnder(current)) && AtHome()
      ensures items != [] && !settings.loop ==> NearestTo(old(ItemUnder(current)))
    {
      Setup(settings);
      OptionsLogic();
      Update();
    }

    method OnResize(elementWidth: real, settings: Settings)
      requires Valid()
      modifies this
      ensures Valid() && Present() == Wanted() && invalidated == {} && this.elementWidth == elementWidth
      ensures items == old(items) && mergers == old(mergers)
      ensures items != [] && settings.loop ==> ItemUnder(current) == old(ItemUnder(current)) && AtHome()
      ensures items != [] && !settings.loop ==> NearestTo(old(ItemUnder(current)))
    {
      Resize(elementWidth);
      Refresh(settings);
    }

    /** The current position is one from which moves are smooth. */
    ghost predicate AtHome()
      reads this
    {
      Home(current, |items|, |clones| / 2) && OnStage(current, |items|, |clones| / 2)
    }

    /** The update, but for the bookkeeping. */
    method UpdateLayout(ghost want: Derived)
      requires |items| == |rendered| && |items| <= |mergers| && want == Wanted()
      requires |clones| % 2 == 0 && SkippedAreFresh(want)
      modifies this`width, this`clones, this`prepended, this`appended, this`widths, this`coordinates, this`rendered, this`current
      ensures Present() == want && |clones| % 2 == 0
      ensures !LayoutStale(invalidated) ==> current == old(current) && clones == old(clones)
      ensures items != [] && settings.loop ==> ItemUnder(current) == old(ItemUnder(current))
      ensures items != [] && settings.loop && LayoutStale(invalidated) ==>
        AtHome() && current == |clones| / 2 + old(ItemUnder(current))
      ensures items != [] && !settings.loop && LayoutStale(invalidated) ==> NearestTo(old(ItemUnder(current)))
    {
      ghost var shown := ItemUnder(current);
      RunPipe(want);
      if items != [] && LayoutStale(invalidated) { KeptInRange(shown); }
    }

    /** The loop over the workers. */
    method RunPipe(ghost want: Derived)
      requires |items| == |rendered| && |items| <= |mergers| && want == Wanted()
      requires |clones| % 2 == 0 && SkippedAreFresh(want)
      modifies this`width, this`clones, this`prepended, this`appended, this`widths, this`coordinates, this`rendered, this`current
      ensures Present() == want && |clones| % 2 == 0
      ensures !LayoutStale(invalidated) ==> current == old(current) && clones == old(clones)
      ensures items != [] && settings.loop ==> ItemUnder(current) == old(ItemUnder(current))
      ensures items != [] && LayoutStale(invalidated) ==>
        current == Kept(old(ItemUnder(current)), rendered, |clones|, settings, elementWidth)
    {
      var i := 0;
      var cache: Cache := Cache(None, None, None);
      ghost var was, shown, wereClones := current, ItemUnder(current), clones;
      while i < |FILTERS|
        invariant i <= |FILTERS| && Midway(i, cache, want, was, shown, wereClones)
        invariant want == Wanted()
      {
        cache := Visit(i, cache, want, was, shown, wereClones);
        i := i + 1;
      }
    }

    /** One turn of the update loop. */
    method Visit(i: nat, cache: Cache, ghost want: Derived, ghost was: int, ghost shown: int, ghost wereClones: seq<int>)
      returns (c: Cache)
      requires |items| <= |mergers| && want == Wanted()
      requires i < |FILTERS| && Midway(i, cache, want, was, shown, wereClones)
      modifies this`width, this`clones, this`prepended, this`appended, this`widths, this`coordinates, this`rendered, this`current
      ensures Midway(i + 1, c, want, was, shown, wereClones)
    {
      var runs := MustRun(i);
      if runs {
        c := RunTriggered(i, cache, want, was, shown, wereClones);
      } else {
        c := cache;
        WorkerWrites(i, Present(), cache, c, want, invalidated, false, elementWidth, settings, items, mergers);
        SkippedRemembers(i, c, current, |items|, Present(), settings, elementWidth, invalidated, was, shown, wereClones);
      }
    }

    method RunTriggered(i: nat, cache: Cache, ghost want: Derived, ghost was: int, ghost shown: int, ghost wereClones: seq<int>)
      returns (c: Cache)
      requires |items| <= |mergers| && want == Wanted()
      requires i < |FILTERS| && RunsIfStale(i, invalidated, true) && Midway(i, cache, want, was, shown, wereClones)
      modifies this`width, this`clones, this`prepended, this`appended, this`widths, this`coordinates, this`rendered, this`current
      ensures Midway(i + 1, c, want, was, shown, wereClones)
    {
      ghost var d, before, parts := Present(), current, invalidated;
      ghost var width, s, all, merges := elementWidth, settings, items, mergers;
      WorkerFindsDone(i, d, cache, want, parts, width, s, all, merges);
      WorkerReadsWritten(i, cache, before, |all|, d, s, width, parts, was, shown, wereClones);
      c := RunWorker(i, cache);
      assert elementWidth == width && settings == s && items == all && mergers == merges && invalidated == parts;
      WorkerKeeps(i, cache, c, d, Present(), before, current, want, parts, width, s, all, merges, was, shown, wereClones);
      assert Midway(i + 1, c, want, was, shown, wereClones);
    }

    /** Whether an invalidated part is in the filter of worker i. */
    method MustRun(i: nat) returns (runs: bool)
      requires i < |FILTERS|
      ensures RunsIfStale(i, invalidated, runs)
    {
      runs := Triggered(i, invalidated);
      TriggeredIff(i, invalidated);
    }

    // ---------- Navigation ----------

    /** `current(position)`. */
    method SetCurrent(position: int)
      modifies this`current, this`invalidated, this`validCount
      ensures current == match Normalize(position, |items|, |clones|) case Some(p) => p case None => old(current)
      ensures if current == old(current)
        then invalidated == old(invalidated) && validCount == old(validCount)
        else invalidated == old(invalidated) + {Position} && validCount == Max(old(validCount) - 1, 0)
    {
      var p := Normalize(position, |items|, |clones|);
      if p.Some? && p.value != current {
        current := p.value;
        Invalidate(Position);
      }
    }

    /** Slides to an item. On a looping carousel every target, negative or many
        rounds away, ends on the item it means, and targets in reach keep the
        carousel where moves are smooth; otherwise the position is wrapped
        (`rewind`) or clamped into the range of the carousel. The animation starts
        `from` there, behind a jump if there is one. */
    method To(position: int, visible: bool) returns (from: int)
      requires Valid()
      modifies this
      ensures Valid() && (visible ==> invalidated == {} && Present() == Wanted())
      ensures elementWidth == old(elementWidth) && settings == old(settings) && items == old(items) && mergers == old(mergers)
      ensures items != [] && settings.loop ==> ItemUnder(current) == Mod(position, |items|)
      ensures items != [] && settings.loop && !LayoutStale(old(invalidated)) ==>
        Some(current) == Landed(old(current), position, |items|, |clones|, settings.rewind)
      ensures from == if items != [] && settings.loop
        then MoveTo(old(current), position, |items|, old(|clones|) / 2, settings.rewind).start else old(current)
      ensures items != [] && settings.loop && !LayoutStale(old(invalidated)) ==>
        old(MayMove(position)) ==> AtHome()
      ensures items != [] && !settings.loop && !LayoutStale(old(invalidated)) ==>
        var max := MaximumOf(rendered, 0, settings, elementWidth, false);
        current == if settings.rewind then Mod(position, max + 1) else Max(0, Min(max, position))
    {
      from := MoveOn(position);
      if visible { Update(); }
    }

    method MoveOn(position: int) returns (from: int)
      requires Valid()
      modifies this`current, this`invalidated, this`validCount
      ensures Valid() && LayoutStale(invalidated) == LayoutStale(old(invalidated))
      ensures from == if items != [] && settings.loop
        then MoveTo(old(current), position, |items|, |clones| / 2, settings.rewind).start else old(current)
      ensures items != [] && settings.loop ==>
        && Some(current) == Landed(old(current), position, |items|, |clones|, settings.rewind)
        && ItemUnder(current) == Mod(position, |items|)
      ensures items != [] && settings.loop && !LayoutStale(old(invalidated)) ==>
        old(MayMove(position)) ==> AtHome()
      ensures items != [] && !settings.loop && !LayoutStale(old(invalidated)) ==>
        var max := MaximumOf(rendered, 0, settings, elementWidth, false);
        current == if settings.rewind then Mod(position, max + 1) else Max(0, Min(max, position))
    {
      if items != [] && settings.loop && !LayoutStale(invalidated) && MayMove(position) {
        if AtHome() && IsNear(current, position, |items|, |clones| / 2, settings.rewind) {
          ClonesOfLoop();
          NearIsInReach(current, position, |items|, |clones| / 2, settings.rewind);
        }
        LandsHome(current, position, |items|, |clones|, settings.rewind);
      }
      if items != [] && !settings.loop && !LayoutStale(invalidated) { ClonesOfLoop(); }
      from := Navigate(position);
      OnlyMoved();
    }

    /** The target is in reach, as near targets are from home. */
    ghost predicate MayMove(position: int)
      reads this
    {
      items != [] && OnStage(current, |items|, |clones| / 2)
      && (InReach(current, position, |items|, |clones| / 2, settings.rewind)
          || (AtHome() && IsNear(current, position, |items|, |clones| / 2, settings.rewind)))
    }

    lemma ClonesOfLoop()
      requires Valid() && !LayoutStale(invalidated) && items != []
      ensures settings.loop ==> |clones| >= 2 && (settings.rewind || |clones| >= |items|)
      ensures !settings.loop ==> clones == []
    {}

    /** Moving the current position invalidates nothing that is derived. */
    twostate lemma OnlyMoved()
      requires old(Valid())
      requires unchanged(this`elementWidth, this`settings, this`items, this`mergers, this`width, this`clones,
                         this`prepended, this`appended, this`widths, this`coordinates, this`rendered)
      requires (invalidated == old(invalidated) && validCount == old(validCount))
            || (invalidated == old(invalidated) + {Position} && validCount == Max(old(validCount) - 1, 0))
      ensures Valid() && LayoutStale(invalidated) == LayoutStale(old(invalidated))
    {}

    /** `to` up to the update of the view. */
    method Navigate(position: int) returns (from: int)
      requires |clones| % 2 == 0 && |items| == |rendered|
      modifies this`current, this`invalidated, this`validCount
      ensures (invalidated == old(invalidated) && validCount == old(validCount))
           || (invalidated == old(invalidated) + {Position} && validCount == Max(old(validCount) - 1, 0))
      ensures from == if items != [] && settings.loop
        then MoveTo(old(current), position, |items|, |clones| / 2, settings.rewind).start else old(current)
      ensures items != [] && settings.loop ==>
        && Some(current) == Landed(old(current), position, |items|, |clones|, settings.rewind)
        && ItemUnder(current) == Mod(position, |items|)
      ensures items != [] && !settings.loop && clones == [] ==>
        var max := MaximumOf(rendered, 0, settings, elementWidth, false);
        current == if settings.rewind then Mod(position, max + 1) else Max(0, Min(max, position))
    {
      from := current;
      if items != [] {
        if settings.loop {
          LandsOnTarget(current, position, |items|, |clones|, settings.rewind);
          from := Slide(position);
        } else {
          var target := Bounded(position);
          SetCurrent(target);
        }
      }
    }

    /** The branches of `to` without `loop`. */
    method Bounded(position: int) returns (target: int)
      requires items != [] && !settings.loop && |items| == |rendered|
      ensures var max := MaximumOf(rendered, 0, settings, elementWidth, false);
        && target == (if settings.rewind then Mod(position, max + 1) else Max(|clones| / 2, Min(max, position)))
        && (clones == [] ==> 0 <= target < |items|)
    {
      var maximum := Maximum(false);
      MaximumInRange(rendered, |clones|, settings, elementWidth);
      if settings.rewind {
        maximum := maximum + 1;
        target := JsMod2(position, maximum);
        JsModTwice(position, maximum);
      } else {
        target := Max(|clones| / 2, Min(maximum, position));
      }
    }

    /** The branch of `to` with `loop`. */
    method Slide(position: int) returns (from: int)
      requires |clones| % 2 == 0 && items != [] && settings.loop && |items| == |rendered|
      modifies this`current, this`invalidated, this`validCount
      ensures Some(current) == Landed(old(current), position, |items|, |clones|, settings.rewind)
      ensures from == MoveTo(old(current), position, |items|, |clones| / 2, settings.rewind).start
      ensures (invalidated == old(invalidated) && validCount == old(validCount))
           || (invalidated == old(invalidated) + {Position} && validCount == Max(old(validCount) - 1, 0))
    {
      var jump, target := PlanSlide(position);
      if jump.Some? {
        Reset(jump.value);
      }
      from := current;
      SetCurrent(target);
    }

    /** The steps to travel, the shorter way round unless `rewind`. */
    method WantedDistance(position: int) returns (distance: int)
      requires |clones| % 2 == 0 && items != []
      ensures distance == Distance(ItemUnder(current), position, |items|, settings.rewind)
    {
      var rel := RelativeItem(current);
      distance := position - rel;
      var direction := Sign(distance);
      if !settings.rewind && 2 * Abs(distance) > |items| {
        assert direction * -1 == if distance > 0 then -1 else 1;
        distance := distance + direction * -1 * |items|;
      }
    }

    /** Where `to` wants to go, and from where if it has to jump first. */
    method PlanSlide(position: int) returns (jump: Option<int>, target: int)
      requires |clones| % 2 == 0 && items != [] && settings.loop && |items| == |rendered|
      ensures var m := MoveTo(current, position, |items|, |clones| / 2, settings.rewind);
        target == m.target && m.start == match jump case Some(p) => p case None => current
      ensures jump.Some? ==> 0 <= jump.value < |items| + |clones|
    {
      var n, minimum := |items|, |clones| / 2;
      var distance := WantedDistance(position);
      var maximum := Maximum(false);
      jump, target := None, current + distance;
      var revert := JsMod2(target - minimum, n) + minimum;
      if revert != target && revert - distance <= maximum && revert - distance > 0 {
        jump, target := Some(revert - distance), revert;
      }
    }

    /** The state of an update in front of worker i. */
    ghost predicate Midway(i: nat, cache: Cache, want: Derived, was: int, shown: int, wereClones: seq<int>)
      reads this
    {
      && |items| <= |mergers| && |clones| % 2 == 0
      && DerivedMidway(i, Present(), cache, want, invalidated, settings, |items|, mergers)
      && ItemMidway(i, cache, current, |items|, Present(), settings, elementWidth, invalidated, was, shown, wereClones)
    }
  }

  /** The stage that an update leaves: as long as items and clones together, and
      at every position the item that `relative` gives. */
  lemma StageReadsAsRing(elementWidth: real, s: Settings, items: seq<Item>, mergers: seq<real>, p: nat)
    requires 0 < |items| <= |mergers|
    ensures var d := FromScratch(elementWidth, s, items, mergers);
      var stage := d.prepended + items + d.appended;
      && |stage| == |items| + |d.clones| == |d.coordinates|
      && (p < |stage| ==>
            var rel := Relative(p, |items|, |d.clones|);
            rel.Some? && 0 <= rel.value < |items| && stage[p] == items[rel.value])
  {
    var n, r := |items|, RepeatsOf(s, |items|);
    if p < n + 2 * r {
      StageIsRing(r, n, p);
      RelativeIsMod(p, n, r);
      PickStage(items, r, p);
    }
  }

  lemma PickStage(items: seq<Item>, r: nat, p: nat)
    requires items != [] && p < |items| + 2 * r
    requires 0 <= StageIndices(r, |items|)[p] < |items|
    ensures var n := |items|;
      (Pick(items, Prepended(r, n)) + items + Pick(items, Appended(r, n)))[p] == items[StageIndices(r, n)[p]]
  {}

  /** How wide the items are: in a grid of columns, each takes its merge value of
      them, else its own width; and how wide their elements are made. */
  lemma WidthsMeaning(elementWidth: real, s: Settings, items: seq<Item>, mergers: seq<real>, i: nat)
    requires i < |items| <= |mergers|
    ensures var d := FromScratch(elementWidth, s, items, mergers);
      var column, merge := GridWidth(elementWidth, s), mergers[i];
      && d.width == elementWidth && |d.widths| == |d.rendered| == |items|
      && (s.autoWidth ==> d.widths[i] == d.rendered[i] == items[i].width)
      && (!s.autoWidth ==>
            d.widths[i] == column * (if s.mergeFit && merge > s.items as real then s.items as real else merge))
      && (!s.autoWidth && (forall k :: 0 <= k < |items| ==> MergeValue(mergers[k], s) <= 1.0) ==> d.rendered[i] == column)
      && (!s.autoWidth && (exists k :: 0 <= k < |items| && MergeValue(mergers[k], s) > 1.0) ==>
            d.rendered[i] == d.widths[i])
  {
    var d := FromScratch(elementWidth, s, items, mergers);
    assert d.widths[i] == WidthAt(i, elementWidth, s, items, mergers);
  }

  /** From each position to the next, the coordinates advance by the width of
      the item shown there and one margin, to the left unless `rtl`. */
  lemma CoordinatesMeasureStage(elementWidth: real, s: Settings, items: seq<Item>, mergers: seq<real>, p: nat)
    requires 0 < |items| <= |mergers|
    ensures var d := FromScratch(elementWidth, s, items, mergers);
      p < |d.coordinates| ==>
        var rel := Relative(p, |items|, |d.clones|);
        && rel.Some? && 0 <= rel.value < |d.widths|
        && d.coordinates[p] - (if p == 0 then 0.0 else d.coordinates[p - 1])
           == (d.widths[rel.value] + s.margin) * (if s.rtl then 1.0 else -1.0)
  {
    var d := FromScratch(elementWidth, s, items, mergers);
    RelativeIsMod(p, |items|, RepeatsOf(s, |items|));
  }

  /** One round of the clone loop. */
  lemma CloneStep(k: nat, n: nat)
    requires n > 0
    ensures CloneList(k + 1, n) == CloneList(k, n) + [Mod(k, n)] + [Mod(n - 1 - k, n)]
    ensures Appended(k + 1, n) == Appended(k, n) + [Mod(k, n)]
    ensures Prepended(k + 1, n) == [Mod(n - 1 - k, n)] + Prepended(k, n)
  {
    assert (2 * k) / 2 == k && (2 * k + 1) / 2 == k && (2 * k + 1) % 2 == 1;
  }

  lemma PickStep(items: seq<Item>, append: seq<int>, prepend: seq<int>, a: nat, p: nat)
    requires a < |items| && p < |items|
    requires forall i :: 0 <= i < |append| ==> 0 <= append[i] < |items|
    requires forall i :: 0 <= i < |prepend| ==> 0 <= prepend[i] < |items|
    ensures Pick(items, append + [a]) == Pick(items, append) + [items[a]]
    ensures Pick(items, [p] + prepend) == [items[p]] + Pick(items, prepend)
  {}
}
