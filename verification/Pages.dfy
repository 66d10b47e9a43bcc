/** The pages that the navigation dots stand for. */
module Pages {
  import opened Basics
  import opened Ring
  import Carousel

  datatype Page = Page(start: int, end: int)

  /** The pages from offset i on; `filled` is what the open page holds so far. */
  function PagesFrom(i: nat, filled: real, max: int, size: int, merges: seq<real>): seq<Page>
    decreases |merges| - i
  {
    if i >= |merges| then []
    else if filled >= size as real || filled == 0.0 then
      [Page(Min(max, i), i + size - 1)]
      + (if Min(max, i) == max then [] else PagesFrom(i + 1, merges[i], max, size, merges))
    else PagesFrom(i + 1, filled + merges[i], max, size, merges)
  }

  /** `Navigation.update` for n items with r clones on either side. */
  method Update(n: nat, r: nat, mergers: seq<real>, max: int, size: int) returns (pages: seq<Page>)
    requires n <= |mergers|
    ensures pages == PagesFrom(0, 0.0, max, size, mergers[..n])
  {
    pages := [];
    var lower, upper := r, r + n;
    var i, j := lower, 0.0;
    while i < upper
      invariant lower <= i <= upper
      invariant pages + PagesFrom(i - lower, j, max, size, mergers[..n]) == PagesFrom(0, 0.0, max, size, mergers[..n])
    {
      if j >= size as real || j == 0.0 {
        pages := pages + [Page(Min(max, i - lower), i - lower + size - 1)];
        if Min(max, i - lower) == max { break; }
        j := 0.0;
      }
      RelativeOfItem(i, n, r);
      j := j + mergers[Relative(i, n, 2 * r).value];
      i := i + 1;
    }
  }

  lemma RelativeOfItem(i: nat, n: nat, r: nat)
    requires r <= i < r + n
    ensures Relative(i, n, 2 * r) == Some(i - r)
  {
    RelativeIsMod(i, n, r);
  }

  /** `Navigation.current`: the last page that holds a relative position. */
  function CurrentPage(pages: seq<Page>, position: int): Option<Page> {
    if pages == [] then None
    else
      var last := pages[|pages| - 1];
      if last.start <= position <= last.end then Some(last) else CurrentPage(pages[..|pages| - 1], position)
  }

  lemma {:induction false} CurrentPageDefined(pages: seq<Page>, position: int)
    ensures CurrentPage(pages, position).Some? <==> exists k :: 0 <= k < |pages| && pages[k].start <= position <= pages[k].end
    ensures var p := CurrentPage(pages, position); p.Some? ==> p.value in pages && p.value.start <= position <= p.value.end
  {
    if pages != [] {
      var front := pages[..|pages| - 1];
      CurrentPageDefined(front, position);
      if CurrentPage(front, position).Some? {
        var k :| 0 <= k < |front| && front[k].start <= position <= front[k].end;
        assert pages[k] == front[k];
      } else {
        forall k | 0 <= k < |front| ensures !(pages[k].start <= position <= pages[k].end) {
          assert pages[k] == front[k];
        }
      }
    }
  }

  predicate LastToHold(pages: seq<Page>, position: int, k: int) {
    && 0 <= k < |pages| && pages[k].start <= position <= pages[k].end
    && forall j :: k < j < |pages| ==> !(pages[j].start <= position <= pages[j].end)
  }

  /** Pages overlap; the current one is the last of those that hold the position. */
  lemma {:induction false} CurrentPageIsLast(pages: seq<Page>, position: int, k: int)
    requires LastToHold(pages, position, k)
    ensures CurrentPage(pages, position) == Some(pages[k])
  {
    var n := |pages| - 1;
    if k < n {
      assert !(pages[n].start <= position <= pages[n].end);
      assert LastToHold(pages[..n], position, k);
      CurrentPageIsLast(pages[..n], position, k);
    }
  }

  predicate EndsIncreasing(ps: seq<Page>, low: int) {
    && (forall a :: 0 <= a < |ps| ==> low <= ps[a].end)
    && (forall a, b :: 0 <= a < b < |ps| ==> ps[a].end < ps[b].end)
  }

  lemma {:induction false} EndsIncrease(i: nat, filled: real, max: int, size: int, merges: seq<real>)
    ensures EndsIncreasing(PagesFrom(i, filled, max, size, merges), i + size - 1)
    decreases |merges| - i
  {
    if i < |merges| {
      if filled >= size as real || filled == 0.0 {
        if Min(max, i) != max {
          EndsIncrease(i + 1, merges[i], max, size, merges);
          EndInFront(Page(i, i + size - 1), PagesFrom(i + 1, merges[i], max, size, merges));
        }
      } else {
        EndsIncrease(i + 1, filled + merges[i], max, size, merges);
      }
    }
  }

  lemma EndInFront(page: Page, rest: seq<Page>)
    requires EndsIncreasing(rest, page.end + 1)
    ensures EndsIncreasing([page] + rest, page.end)
  {}

  /** At the maximum the last page is the current one, if any page holds it. */
  lemma LastPageAtMaximum(max: int, size: int, merges: seq<real>)
    requires max >= 0
    ensures var ps := PagesFrom(0, 0.0, max, size, merges);
      Holds(ps, max) ==> CurrentPage(ps, max) == Some(ps[|ps| - 1])
  {
    var ps := PagesFrom(0, 0.0, max, size, merges);
    StartsIncrease(0, 0.0, max, size, merges);
    EndsIncrease(0, 0.0, max, size, merges);
    if Holds(ps, max) {
      var k :| 0 <= k < |ps| && ps[k].start <= max <= ps[k].end;
      assert LastToHold(ps, max, |ps| - 1);
      CurrentPageIsLast(ps, max, |ps| - 1);
    }
  }

  /** An instance: five items on pages of three have two pages that hold item 2,
      and the second is the current one. */
  lemma SecondPageAtMaximum()
    ensures PagesFrom(0, 0.0, 2, 3, [1.0, 1.0, 1.0, 1.0, 1.0]) == [Page(0, 2), Page(2, 5)]
    ensures CurrentPage([Page(0, 2), Page(2, 5)], 2) == Some(Page(2, 5))
  {
    var merges := [1.0, 1.0, 1.0, 1.0, 1.0];
    assert PagesFrom(3, 3.0, 2, 3, merges) == [Page(2, 5)];
    assert PagesFrom(2, 2.0, 2, 3, merges) == PagesFrom(3, 3.0, 2, 3, merges);
    assert PagesFrom(1, 1.0, 2, 3, merges) == PagesFrom(2, 2.0, 2, 3, merges);
    assert PagesFrom(0, 0.0, 2, 3, merges) == [Page(0, 2)] + PagesFrom(1, 1.0, 2, 3, merges);
  }

  predicate Increasing(ps: seq<Page>, low: int, high: int) {
    && (forall a :: 0 <= a < |ps| ==> low <= ps[a].start <= high)
    && (forall a, b :: 0 <= a < b < |ps| ==> ps[a].start < ps[b].start)
  }

  /** Page starts strictly increase up to the maximum, whatever the merge values are. */
  lemma {:induction false} StartsIncrease(i: nat, filled: real, max: int, size: int, merges: seq<real>)
    requires i > 0 ==> i <= max
    ensures Increasing(PagesFrom(i, filled, max, size, merges), Min(max, i), max)
    decreases |merges| - i
  {
    if i < |merges| {
      if filled >= size as real || filled == 0.0 {
        if Min(max, i) != max {
          StartsIncrease(i + 1, merges[i], max, size, merges);
          PageInFront(Page(i, i + size - 1), PagesFrom(i + 1, merges[i], max, size, merges), max);
        }
      } else if i + 1 <= max {
        StartsIncrease(i + 1, filled + merges[i], max, size, merges);
      } else {
        NoStartBehind(i + 1, filled + merges[i], max, size, merges);
      }
    }
  }

  lemma PageInFront(page: Page, rest: seq<Page>, max: int)
    requires page.start < max && Increasing(rest, page.start + 1, max)
    ensures Increasing([page] + rest, page.start, max)
  {}

  /** Behind the maximum at most one page follows. */
  lemma {:induction false} NoStartBehind(i: nat, filled: real, max: int, size: int, merges: seq<real>)
    requires i >= max
    ensures var ps := PagesFrom(i, filled, max, size, merges);
      |ps| <= 1 && (ps != [] ==> ps[0].start == max)
    decreases |merges| - i
  {
    if i < |merges| && !(filled >= size as real || filled == 0.0) {
      NoStartBehind(i + 1, filled + merges[i], max, size, merges);
    }
  }

  predicate Holds(pages: seq<Page>, position: int) {
    exists k :: 0 <= k < |pages| && pages[k].start <= position <= pages[k].end
  }

  // ---------- Exactly when no position is left out ----------

  predicate Positive(merges: seq<real>) {
    forall k :: 0 <= k < |merges| ==> merges[k] > 0.0
  }

  predicate Covered(max: int, size: int, merges: seq<real>) {
    forall p :: 0 <= p <= max ==> CurrentPage(PagesFrom(0, 0.0, max, size, merges), p).Some?
  }

  /** What the items from s up to i add up to. */
  function Filling(merges: seq<real>, s: nat, i: nat): real
    requires s <= i <= |merges|
  {
    if i == s then 0.0 else Filling(merges, s, i - 1) + merges[i - 1]
  }

  /** The first item from i on in front of which a page begun at s is full. */
  function Next(merges: seq<real>, size: int, s: nat, i: nat): (t: nat)
    requires s <= i <= |merges|
    ensures i <= t <= |merges|
    decreases |merges| - i
  {
    if i == |merges| || Filling(merges, s, i) >= size as real then i else Next(merges, size, s, i + 1)
  }

  /** From the page begun at s on: the page reaches the maximum, or its items
      fill it no later than it ends and so on from the next page; or the next
      page, begun too late, is set back to a maximum right behind this page. */
  predicate Full(s: nat, max: int, size: int, merges: seq<real>)
    requires size >= 1 && max < |merges|
    decreases |merges| - s
  {
    s + size > max
    || (var next := Next(merges, size, s, s + 1);
        next < |merges|
        && if Filling(merges, s, s + size) >= size as real then Full(next, max, size, merges) else s + size == max)
  }

  lemma {:induction false} FillingGrows(merges: seq<real>, s: nat, i: nat, j: nat)
    requires Positive(merges) && s <= i <= j <= |merges|
    ensures Filling(merges, s, i) <= Filling(merges, s, j)
    ensures i < j ==> Filling(merges, s, i) < Filling(merges, s, j)
    decreases j - i
  {
    if i < j { FillingGrows(merges, s, i, j - 1); }
  }

  lemma {:induction false} NextIsFirst(merges: seq<real>, size: int, s: nat, i: nat)
    requires s <= i <= |merges|
    ensures var t := Next(merges, size, s, i);
      && (t < |merges| ==> Filling(merges, s, t) >= size as real)
      && (forall j :: i <= j < t ==> Filling(merges, s, j) < size as real)
    decreases |merges| - i
  {
    if i < |merges| && Filling(merges, s, i) < size as real { NextIsFirst(merges, size, s, i + 1); }
  }

  /** The next page starts in time exactly when the items that a page spans fill it. */
  lemma NextInTime(merges: seq<real>, size: int, s: nat)
    requires Positive(merges) && size >= 1 && s + size <= |merges|
    requires Next(merges, size, s, s + 1) < |merges|
    ensures Next(merges, size, s, s + 1) <= s + size <==> Filling(merges, s, s + size) >= size as real
  {
    var t := Next(merges, size, s, s + 1);
    NextIsFirst(merges, size, s, s + 1);
    if t <= s + size { FillingGrows(merges, s, t, s + size); }
  }

  /** The pages from the one begun at s on. */
  function Chain(s: nat, max: int, size: int, merges: seq<real>): seq<Page>
    requires s < |merges|
    decreases |merges| - s
  {
    var next := Next(merges, size, s, s + 1);
    [Page(Min(max, s), s + size - 1)] +
    (if s >= max || next == |merges| then [] else Chain(next, max, size, merges))
  }

  lemma {:induction false} PagesAreChain(s: nat, i: nat, max: int, size: int, merges: seq<real>)
    requires Positive(merges) && size >= 1 && s < i <= |merges|
    ensures var next := Next(merges, size, s, i);
      PagesFrom(i, Filling(merges, s, i), max, size, merges)
      == if next == |merges| then [] else Chain(next, max, size, merges)
    decreases |merges| - i
  {
    FillingGrows(merges, s, s, i);
    if i < |merges| {
      if Filling(merges, s, i) >= size as real {
        ChainUnfolds(i, max, size, merges);
      } else {
        assert Filling(merges, s, i + 1) == Filling(merges, s, i) + merges[i];
        PagesAreChain(s, i + 1, max, size, merges);
      }
    }
  }

  lemma ChainUnfolds(i: nat, max: int, size: int, merges: seq<real>)
    requires Positive(merges) && size >= 1 && i < |merges|
    ensures Chain(i, max, size, merges)
      == [Page(Min(max, i), i + size - 1)]
         + (if Min(max, i) == max then [] else PagesFrom(i + 1, merges[i], max, size, merges))
    decreases |merges| - i, 0
  {
    assert Filling(merges, i, i + 1) == Filling(merges, i, i) + merges[i];
    if i < max { PagesAreChain(i, i + 1, max, size, merges); }
  }

  lemma {:induction false} ChainStarts(s: nat, max: int, size: int, merges: seq<real>)
    requires s < |merges|
    ensures forall k :: 0 <= k < |Chain(s, max, size, merges)| ==> Chain(s, max, size, merges)[k].start >= Min(max, s)
    decreases |merges| - s
  {
    var next := Next(merges, size, s, s + 1);
    if s < max && next < |merges| { ChainStarts(next, max, size, merges); }
  }

  predicate CoveredFrom(s: nat, max: int, size: int, merges: seq<real>)
    requires s < |merges|
  {
    forall p :: s <= p <= max ==> Holds(Chain(s, max, size, merges), p)
  }

  lemma HeldByFirstOrRest(page: Page, rest: seq<Page>, p: int)
    ensures Holds([page] + rest, p) <==> page.start <= p <= page.end || Holds(rest, p)
  {
    var ps := [page] + rest;
    if page.start <= p <= page.end { assert ps[0].start <= p <= ps[0].end; }
    if Holds(rest, p) {
      var k :| 0 <= k < |rest| && rest[k].start <= p <= rest[k].end;
      assert ps[k + 1].start <= p <= ps[k + 1].end;
    }
    assert forall k :: 1 <= k < |ps| ==> ps[k] == rest[k - 1];
  }

  lemma {:induction false} FullIffCovered(s: nat, max: int, size: int, merges: seq<real>)
    requires Positive(merges) && size >= 1 && s <= max < |merges|
    ensures Full(s, max, size, merges) <==> CoveredFrom(s, max, size, merges)
    decreases |merges| - s
  {
    var page, next := Page(s, s + size - 1), Next(merges, size, s, s + 1);
    var rest := if s >= max || next == |merges| then [] else Chain(next, max, size, merges);
    assert Chain(s, max, size, merges) == [page] + rest;
    forall p ensures Holds(Chain(s, max, size, merges), p) <==> s <= p < s + size || Holds(rest, p) {
      HeldByFirstOrRest(page, rest, p);
    }
    if s + size <= max {
      if next == |merges| {
        assert !Holds(Chain(s, max, size, merges), max);
      } else {
        NextInTime(merges, size, s);
        if next <= s + size {
          FullIffCovered(next, max, size, merges);
          FirstPageReaches(next, max, size, merges);
          assert CoveredFrom(s, max, size, merges) <==> CoveredFrom(next, max, size, merges);
        } else {
          ChainStarts(next, max, size, merges);
          if max == s + size {
            FirstPageReaches(next, max, size, merges);
          } else {
            assert !Holds(Chain(s, max, size, merges), s + size);
          }
        }
      }
    }
  }

  /** What the first page of a chain holds. */
  lemma FirstPageReaches(s: nat, max: int, size: int, merges: seq<real>)
    requires size >= 1 && s < |merges|
    ensures forall p :: Min(max, s) <= p < s + size ==> Holds(Chain(s, max, size, merges), p)
  {
    var ps := Chain(s, max, size, merges);
    forall p | Min(max, s) <= p < s + size ensures Holds(ps, p) {
      assert ps[0].start <= p <= ps[0].end;
    }
  }

  /** Every position up to the maximum has a current page exactly when the merge
      values leave no page short in front of the maximum. */
  lemma CoveredIffFull(max: int, size: int, merges: seq<real>)
    requires Positive(merges) && size >= 1 && max < |merges|
    ensures Covered(max, size, merges) <==> Full(0, max, size, merges)
  {
    if max >= 0 {
      var ps := PagesFrom(0, 0.0, max, size, merges);
      ChainUnfolds(0, max, size, merges);
      assert ps == Chain(0, max, size, merges);
      forall p ensures CurrentPage(ps, p).Some? <==> Holds(ps, p) { CurrentPageDefined(ps, p); }
      FullIffCovered(0, max, size, merges);
    }
  }

  predicate AllAtLeast(merges: seq<real>, least: real) {
    forall k :: 0 <= k < |merges| ==> merges[k] >= least
  }

  lemma {:induction false} FillingAtLeast(merges: seq<real>, s: nat, i: nat)
    requires AllAtLeast(merges, 1.0) && s <= i <= |merges|
    ensures Filling(merges, s, i) >= (i - s) as real
  {
    if s < i { FillingAtLeast(merges, s, i - 1); }
  }

  lemma {:induction false} WholeMergesFill(s: nat, max: int, size: int, merges: seq<real>)
    requires AllAtLeast(merges, 1.0) && size >= 1 && max < |merges|
    ensures Full(s, max, size, merges)
    decreases |merges| - s
  {
    if s + size <= max {
      FillingAtLeast(merges, s, s + size);
      FullInTime(merges, size, s);
      WholeMergesFill(Next(merges, size, s, s + 1), max, size, merges);
    }
  }

  lemma FullInTime(merges: seq<real>, size: int, s: nat)
    requires size >= 1 && s + size < |merges| && Filling(merges, s, s + size) >= size as real
    ensures Next(merges, size, s, s + 1) <= s + size
  {
    NextIsFirst(merges, size, s, s + 1);
  }

  /** With merge values of at least 1, every relative position up to the maximum
      lies on some page. */
  lemma PagesCover(max: int, size: int, merges: seq<real>)
    requires AllAtLeast(merges, 1.0) && size >= 1 && max < |merges|
    ensures Covered(max, size, merges)
  {
    WholeMergesFill(0, max, size, merges);
    CoveredIffFull(max, size, merges);
  }

  /** A page of two items of one half each is half full, and yet none is left out. */
  lemma FractionsMayCover()
    ensures Covered(1, 2, [0.5, 0.5])
  {
    CoveredIffFull(1, 2, [0.5, 0.5]);
  }

  /** For all settings, the navigation has a current page wherever the carousel
      can stand exactly when the merge values leave no page short; on a looping
      carousel it can stand on every item. */
  lemma NavigationCurrentDefined(rendered: seq<real>, merges: seq<real>, m: nat, s: Carousel.Settings,
                                 elementWidth: real, size: int)
    requires 0 < |rendered| == |merges| && size >= 1 && Positive(merges)
    ensures var max := Carousel.MaximumOf(rendered, m, s, elementWidth, true);
      && 0 <= max < |merges| && (s.loop ==> max == |merges| - 1)
      && (Covered(max, size, merges) <==> Full(0, max, size, merges))
      && (AllAtLeast(merges, 1.0) ==> Covered(max, size, merges))
      && (Covered(max, size, merges) ==>
            var pages := PagesFrom(0, 0.0, max, size, merges);
            pages != [] && CurrentPage(pages, max) == Some(pages[|pages| - 1]))
  {
    Carousel.MaximumInRange(rendered, m, s, elementWidth);
    var max := Carousel.MaximumOf(rendered, m, s, elementWidth, true);
    CoveredIffFull(max, size, merges);
    if AllAtLeast(merges, 1.0) { PagesCover(max, size, merges); }
    CurrentPageDefined(PagesFrom(0, 0.0, max, size, merges), max);
    LastPageAtMaximum(max, size, merges);
  }

  /** A fractional merge value leaves a gap: two items of it on pages of one. */
  lemma FractionLeavesGap(v: real)
    requires 0.0 < v < 1.0
    ensures CurrentPage(PagesFrom(0, 0.0, 1, 1, [v, v]), 1) == None
  {
    var merges := [v, v];
    assert PagesFrom(2, v + v, 1, 1, merges) == [];
    assert PagesFrom(1, v, 1, 1, merges) == [];
    assert PagesFrom(0, 0.0, 1, 1, merges) == [Page(0, 0)];
    CurrentPageDefined([Page(0, 0)], 1);
  }

  /** Merge values cover every carousel and page size exactly when they are at
      least 1: any smaller positive value can leave a position without a page. */
  lemma CoverIffWholeMerges(least: real)
    requires least > 0.0
    ensures least >= 1.0 <==>
      forall max: int, size: int, merges: seq<real> ::
        size >= 1 && max < |merges| && AllAtLeast(merges, least) ==> Covered(max, size, merges)
  {
    if least >= 1.0 {
      forall max: int, size: int, merges: seq<real> | size >= 1 && max < |merges| && AllAtLeast(merges, least)
        ensures Covered(max, size, merges)
      {
        PagesCover(max, size, merges);
      }
    } else {
      FractionLeavesGap(least);
      assert AllAtLeast([least, least], least) && !Covered(1, 1, [least, least]);
    }
  }
}
