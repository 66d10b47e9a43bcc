/** Positions on the carousel's stage: n items in the middle, r clones on either
    side, so that the stage reads as a stretch of an endless ring. Absolute
    positions count from the left end of the stage, relative ones from item 0. */
module Ring {
  import opened Basics

  // ---------- Remainders ----------

  /** Where a count of a steps leads on a ring of n places. */
  function Mod(a: int, n: nat): (m: int)
    requires n > 0
    ensures 0 <= m < n
    decreases if a < 0 then -a + n else a
  {
    if a < 0 then Mod(a + n, n) else if a >= n then Mod(a - n, n) else a
  }

  lemma ModPlus(a: int, n: nat)
    requires n > 0
    ensures Mod(a + n, n) == Mod(a, n) && Mod(a - n, n) == Mod(a, n)
  {}

  /** It is the remainder of Euclidean division. */
  lemma {:induction false} ModIsRemainder(a: int, n: nat)
    requires n > 0
    ensures Mod(a, n) == a % n
    decreases if a < 0 then -a + n else a
  {
    if a < 0 {
      ModIsRemainder(a + n, n);
      RemainderShift(a + n, -1, n);
    } else if a >= n {
      ModIsRemainder(a - n, n);
      RemainderShift(a - n, 1, n);
    }
  }

  lemma RemainderShift(a: int, k: int, n: nat)
    requires n > 0
    ensures (a + k * n) % n == a % n
  {
    var q, m := a / n, a % n;
    assert a == q * n + m;
    assert (q + k) * n == q * n + k * n;
    RemainderUnique(a + k * n, q + k, m, n);
  }

  lemma RemainderUnique(a: int, q: int, m: int, n: nat)
    requires n > 0 && a == q * n + m && 0 <= m < n
    ensures a % n == m
  {
    var q', m' := a / n, a % n;
    assert a == q' * n + m';
    assert (q - q') * n == m' - m;
    if q > q' {
      MulAtLeast(q - q', n);
    } else if q < q' {
      assert (q' - q) * n == -((q - q') * n);
      MulAtLeast(q' - q, n);
    }
  }

  lemma {:induction false} MulAtLeast(k: int, n: nat)
    requires k >= 1
    ensures k * n >= n
  {
    if k > 1 {
      MulAtLeast(k - 1, n);
      assert k * n == (k - 1) * n + n;
    }
  }

  /** Walking d further depends only on where one stands. */
  lemma {:induction false} ModStep(a: int, d: int, n: nat)
    requires n > 0
    ensures Mod(a + d, n) == Mod(Mod(a, n) + d, n)
    decreases if a < 0 then -a + n else a
  {
    if a < 0 {
      ModStep(a + n, d, n);
      ModPlus(a + d, n);
    } else if a >= n {
      ModStep(a - n, d, n);
      ModPlus(a + d, n);
    }
  }

  /** `%` of JavaScript takes the sign of the dividend. */
  function JsMod(a: int, b: nat): (m: int)
    requires b > 0
    ensures -(b as int) < m < b
    decreases if a < 0 then -a else a
  {
    if a >= b then JsMod(a - b, b) else if a + b <= 0 then JsMod(a + b, b) else a
  }

  /** The source's way of getting a non-negative remainder. */
  function JsMod2(a: int, n: nat): int
    requires n > 0
  {
    JsMod(JsMod(a, n) + n, n)
  }

  lemma {:induction false} JsModShows(a: int, n: nat)
    requires n > 0
    ensures Mod(JsMod(a, n), n) == Mod(a, n)
    decreases if a < 0 then -a else a
  {
    if a >= n {
      JsModShows(a - n, n);
      ModPlus(a, n);
    } else if a + n <= 0 {
      JsModShows(a + n, n);
      ModPlus(a, n);
    }
  }

  lemma JsModTwice(a: int, n: nat)
    requires n > 0
    ensures JsMod2(a, n) == Mod(a, n)
  {
    JsModShows(a, n);
    var m := JsMod(a, n);
    if m >= 0 { assert JsMod(m + n, n) == JsMod(m, n) == m; }
  }

  // ---------- normalize, relative ----------

  /** `normalize` for n items and m clones in all; m is 0 for a relative position. */
  function Normalize(position: int, n: nat, m: nat): Option<int> {
    if n < 1 then None
    else if position < 0 || position >= n + m
    then Some(JsMod2(position - m / 2, n) + m / 2)
    else Some(position)
  }

  function Relative(position: int, n: nat, m: nat): Option<int> {
    Normalize(position - m / 2, n, 0)
  }

  /** A normalised position is on the stage and shows the same item. */
  lemma NormalizeSound(position: int, n: nat, r: nat)
    requires n > 0
    ensures var p := Normalize(position, n, 2 * r);
      && p.Some? && 0 <= p.value < n + 2 * r
      && Mod(p.value - r, n) == Mod(position - r, n)
      && p.value == if 0 <= position < n + 2 * r then position else Mod(position - r, n) + r
  {
    if !(0 <= position < n + 2 * r) {
      JsModTwice(position - r, n);
    }
  }

  lemma RelativeIsMod(position: int, n: nat, r: nat)
    requires n > 0
    ensures Relative(position, n, 2 * r) == Some(Mod(position - r, n))
  {
    JsModTwice(position - r, n);
  }

  // ---------- The clones ----------

  /** How many clones go on either side. */
  function Repeats(settingsItems: int, loop: bool, rewind: bool, n: nat): (r: nat)
    ensures !loop || n == 0 ==> r == 0
    ensures loop && n > 0 ==> r >= 2 && r >= settingsItems
    ensures loop && n > 0 && !rewind ==> 2 * r >= n
  {
    var view := Max(settingsItems * 2, 4);
    var size := (n + 1) / 2 * 2;
    if loop && n > 0 then (if rewind then view else Max(view, size)) / 2 else 0
  }

  /** It is the least number that is at least 2, shows a whole view of items and,
      unless `rewind`, reaches half round the ring from either end. */
  lemma RepeatsLeast(settingsItems: int, rewind: bool, n: nat, k: int)
    requires n > 0
    ensures k >= Repeats(settingsItems, true, rewind, n) <==>
      k >= 2 && k >= settingsItems && (rewind || 2 * k >= n)
    ensures Repeats(settingsItems, false, rewind, n) == 0
  {}

  /** Entry i of the clone list: even entries are appended and count up from
      item 0, odd ones are prepended and count down from the last item. */
  function CloneAt(i: nat, n: nat): (item: int)
    requires n > 0
    ensures 0 <= item < n
  {
    if i % 2 == 0 then Mod(i / 2, n) else Mod(n - 1 - i / 2, n)
  }

  function CloneList(r: nat, n: nat): (list: seq<int>)
    requires n > 0 || r == 0
    ensures |list| == 2 * r
    ensures forall i :: 0 <= i < |list| ==> 0 <= list[i] < n
  {
    if n == 0 then [] else seq(2 * r, i requires 0 <= i => CloneAt(i, n))
  }

  /** The indices that the prepended and the appended clones show, left to right. */
  function Prepended(r: nat, n: nat): (list: seq<int>)
    requires n > 0 || r == 0
    ensures |list| == r
    ensures forall i :: 0 <= i < |list| ==> 0 <= list[i] < n
  {
    if n == 0 then [] else seq(r, p requires 0 <= p < r => CloneAt(2 * (r - 1 - p) + 1, n))
  }

  function Appended(r: nat, n: nat): (list: seq<int>)
    requires n > 0 || r == 0
    ensures |list| == r
    ensures forall i :: 0 <= i < |list| ==> 0 <= list[i] < n
  {
    if n == 0 then [] else seq(r, k requires 0 <= k => CloneAt(2 * k, n))
  }

  /** The item that each position of the stage shows. */
  function StageIndices(r: nat, n: nat): seq<int>
    requires n > 0 || r == 0
  {
    Prepended(r, n) + seq(n, i => i) + Appended(r, n)
  }

  /** Clones, items and clones read as one ring: position p shows item relative(p). */
  lemma StageIsRing(r: nat, n: nat, p: nat)
    requires n > 0 && p < n + 2 * r
    ensures |StageIndices(r, n)| == n + 2 * r
    ensures StageIndices(r, n)[p] == Mod(p - r, n)
    ensures 0 <= StageIndices(r, n)[p] < n
  {
    if p < r {
      var i := 2 * (r - 1 - p) + 1;
      assert StageIndices(r, n)[p] == Prepended(r, n)[p] == CloneAt(i, n);
      assert i % 2 == 1 && n - 1 - i / 2 == (p - r) + n;
      ModPlus(p - r, n);
    } else if p >= r + n {
      ModPlus(p - r, n);
      assert StageIndices(r, n)[p] == Appended(r, n)[p - r - n];
    }
  }

  // ---------- clones(position) ----------

  /** The stage position of entry `index` of the clone list. */
  function ClonePosition(index: nat, r: nat, n: nat): int {
    if index % 2 == 0 then r + n + index / 2 else r - (index + 1) / 2
  }

  /** The entry that sits at a stage position outside the real items. */
  function CloneEntry(p: int, r: nat, n: nat): int {
    if p < r then 2 * (r - 1 - p) + 1 else 2 * (p - r - n)
  }

  predicate OutsideItems(p: int, r: nat, n: nat) {
    0 <= p < r || r + n <= p < n + 2 * r
  }

  /** Entries and outside positions match one to one. */
  lemma ClonePositionBijection(index: nat, p: int, r: nat, n: nat)
    ensures index < 2 * r ==>
      OutsideItems(ClonePosition(index, r, n), r, n) && CloneEntry(ClonePosition(index, r, n), r, n) == index
    ensures OutsideItems(p, r, n) ==>
      0 <= CloneEntry(p, r, n) < 2 * r && ClonePosition(CloneEntry(p, r, n), r, n) == p
  {}

  lemma CloneShowsRelative(index: nat, r: nat, n: nat)
    requires n > 0 && index < 2 * r
    ensures CloneAt(index, n) == Mod(ClonePosition(index, r, n) - r, n)
  {
    var p := ClonePosition(index, r, n);
    if index % 2 == 0 {
      ModPlus(index / 2, n);
    } else {
      ModPlus(p - r, n);
      assert n - 1 - index / 2 == p - r + n;
    }
  }

  /** `clones(position)`: the positions of the list entries that show `position`. */
  function Clones(list: seq<int>, position: int, r: nat, n: nat): seq<int> {
    if list == [] then []
    else
      var front := Clones(list[..|list| - 1], position, r, n);
      if list[|list| - 1] == position then front + [ClonePosition(|list| - 1, r, n)] else front
  }

  lemma {:induction false} ClonesMembers(list: seq<int>, position: int, r: nat, n: nat, p: int)
    ensures p in Clones(list, position, r, n) <==>
      exists j :: 0 <= j < |list| && list[j] == position && ClonePosition(j, r, n) == p
  {
    if list != [] {
      var k := |list| - 1;
      ClonesMembers(list[..k], position, r, n, p);
      assert forall j :: 0 <= j < k ==> list[j] == list[..k][j];
    }
  }

  lemma {:induction false} ClonesDistinct(list: seq<int>, position: int, r: nat, n: nat)
    requires |list| <= 2 * r
    ensures var found := Clones(list, position, r, n); forall i, j :: 0 <= i < j < |found| ==> found[i] != found[j]
  {
    if list != [] {
      var k := |list| - 1;
      ClonesDistinct(list[..k], position, r, n);
      var last := ClonePosition(k, r, n);
      ClonesMembers(list[..k], position, r, n, last);
      forall j | 0 <= j < k ensures ClonePosition(j, r, n) != last {
        ClonePositionBijection(j, last, r, n);
        ClonePositionBijection(k, last, r, n);
      }
    }
  }

  /** `clones(i)` lists exactly the stage positions outside the real items at
      which item i shows, each once. */
  lemma CloneLookup(position: int, r: nat, n: nat)
    requires n > 0
    ensures var found := Clones(CloneList(r, n), position, r, n);
      && (forall p :: p in found <==> OutsideItems(p, r, n) && Mod(p - r, n) == position)
      && (forall i, j :: 0 <= i < j < |found| ==> found[i] != found[j])
  {
    var list := CloneList(r, n);
    forall p ensures p in Clones(list, position, r, n) <==> OutsideItems(p, r, n) && Mod(p - r, n) == position {
      CloneAtPosition(p, position, r, n);
      ClonesMembers(list, position, r, n, p);
    }
    ClonesDistinct(list, position, r, n);
  }

  lemma CloneAtPosition(p: int, position: int, r: nat, n: nat)
    requires n > 0
    ensures (exists j :: 0 <= j < |CloneList(r, n)| && CloneList(r, n)[j] == position && ClonePosition(j, r, n) == p)
      <==> OutsideItems(p, r, n) && Mod(p - r, n) == position
  {
    ClonePositionBijection(0, p, r, n);
    if OutsideItems(p, r, n) {
      var e := CloneEntry(p, r, n);
      CloneShowsRelative(e, r, n);
      assert CloneList(r, n)[e] == Mod(p - r, n) && ClonePosition(e, r, n) == p;
      forall j | 0 <= j < 2 * r && ClonePosition(j, r, n) == p ensures j == e {
        ClonePositionBijection(j, p, r, n);
      }
    } else {
      forall j | 0 <= j < 2 * r ensures ClonePosition(j, r, n) != p {
        ClonePositionBijection(j, p, r, n);
      }
    }
  }

  // ---------- to(position) on a looping carousel ----------

  function Abs(x: int): int { if x < 0 then -x else x }

  function Sign(x: int): int { if x > 0 then 1 else if x < 0 then -1 else 0 }

  /** The signed number of steps that `to` wants to travel from the item `rel`. */
  function Distance(rel: int, position: int, n: nat, rewind: bool): int {
    var d := position - rel;
    if rewind || 2 * Abs(d) <= n then d else if d > 0 then d - n else d + n
  }

  /** Where the animation starts and ends, before normalising. */
  datatype Move = Move(start: int, target: int)

  /** If the target lies outside the real items, the stage first jumps to the
      place that looks the same from which the target is within them, provided
      that place is in range. */
  function Travel(current: int, distance: int, n: nat, r: nat): Move
    requires n > 0
  {
    var target := current + distance;
    var revert := JsMod2(target - r, n) + r;
    if Reverts(target, distance, revert, n, r) then Move(revert - distance, revert) else Move(current, target)
  }

  predicate Reverts(target: int, distance: int, revert: int, n: nat, r: nat) {
    revert != target && revert - distance <= r + n - 1 && revert - distance > 0
  }

  /** The whole of `to`, from the item at `current` on. */
  function MoveTo(current: int, position: int, n: nat, r: nat, rewind: bool): Move
    requires n > 0
  {
    Travel(current, Distance(Mod(current - r, n), position, n, rewind), n, r)
  }

  /** The distance is the plain one up to whole rounds. It is at most half a round
      exactly for targets up to one and a half rounds away, or with `rewind`, which
      never takes the other way round, up to half a round away. */
  lemma ShortestWay(rel: int, position: int, n: nat, rewind: bool)
    requires n > 0
    ensures var d := Distance(rel, position, n, rewind);
      && Mod(d, n) == Mod(position - rel, n)
      && (2 * Abs(d) <= n <==> 2 * Abs(position - rel) <= if rewind then n else 3 * n)
  {
    ModPlus(position - rel, n);
  }

  /** The steps that `to` travels: straight to the target up to half a round away,
      both ways, or with `rewind` always; beyond that one whole round less, the
      other way. */
  lemma StepsTravelled(current: int, position: int, n: nat, r: nat, rewind: bool)
    requires n > 0
    ensures var m, d := MoveTo(current, position, n, r, rewind), position - Mod(current - r, n);
      && (rewind || (-(n as int) <= 2 * d <= n) ==> m.target - m.start == d)
      && (!rewind && 2 * d > n ==> m.target - m.start == d - n)
      && (!rewind && 2 * d < -(n as int) ==> m.target - m.start == d + n)
  {}

  /** The next page of a carousel of four that shows two: forwards, from the
      first half to the second. */
  lemma NextPageForwards()
    ensures MoveTo(2, 2, 4, 2, false) == Move(2, 4)
  {
    NearModulo(0, 4);
    NearModulo(2, 4);
    StepsTravelled(2, 2, 4, 2, false);
    TravelBy(2, 2, 4, 2, 2);
  }

  /** Walking the distance from where `rel` shows leads to where `position` shows. */
  lemma DistanceLeadsTo(a: int, position: int, d: int, n: nat)
    requires n > 0 && Mod(d, n) == Mod(position - Mod(a, n), n)
    ensures Mod(a + d, n) == Mod(position, n)
  {
    var rel := Mod(a, n);
    ModStep(a, d, n);
    ModStep(d, rel, n);
    ModStep(position - rel, rel, n);
  }

  /** For any target at all, the item shown at the end is the one asked for,
      counted round the ring; and the jump before it does not show. */
  lemma ToReachesTarget(current: int, position: int, n: nat, r: nat, rewind: bool)
    requires n > 0
    ensures var m := MoveTo(current, position, n, r, rewind);
      && Mod(m.target - r, n) == Mod(position, n)
      && Mod(m.start - r, n) == Mod(current - r, n)
  {
    var rel := Mod(current - r, n);
    var d := Distance(rel, position, n, rewind);
    ShortestWay(rel, position, n, rewind);
    DistanceLeadsTo(current - r, position, d, n);
    TravelShows(current, d, n, r);
  }

  /** A jump of whole rounds changes nothing that is seen. */
  lemma TravelShows(current: int, d: int, n: nat, r: nat)
    requires n > 0
    ensures var m := Travel(current, d, n, r);
      Mod(m.target - r, n) == Mod(current - r + d, n) && Mod(m.start - r, n) == Mod(current - r, n)
  {
    var t := current - r + d;
    assert JsMod2(t, n) == Mod(t, n) by { JsModTwice(t, n); }
    ModStep(t, -d, n);
  }

  /** The position at the end of `to`, for m clones in all. */
  function Landed(current: int, position: int, n: nat, m: nat, rewind: bool): Option<int>
    requires n > 0
  {
    Normalize(MoveTo(current, position, n, m / 2, rewind).target, n, m)
  }

  /** It shows the item asked for. */
  lemma LandsOnTarget(current: int, position: int, n: nat, m: nat, rewind: bool)
    requires n > 0 && m % 2 == 0
    ensures var landed := Landed(current, position, n, m, rewind);
      landed.Some? && Mod(landed.value - m / 2, n) == Mod(position, n)
  {
    var r := m / 2;
    var target := MoveTo(current, position, n, r, rewind).target;
    assert Mod(target - r, n) == Mod(position, n) by { ToReachesTarget(current, position, n, r, rewind); }
    assert m == 2 * r;
    NormalizeSound(target, n, r);
  }

  /** The positions that navigation by neighbouring targets stays in. */
  predicate Home(current: int, n: nat, r: nat) {
    2 * (r - current) <= n && current <= r + n
  }

  predicate OnStage(position: int, n: nat, r: nat) {
    0 <= position < n + 2 * r
  }

  /** A real item, no clone. */
  predicate OnItem(position: int, n: nat, r: nat) {
    r <= position < r + n
  }

  /** Where the stage would jump to first lies in range. */
  predicate CanJump(current: int, d: int, n: nat, r: nat)
    requires n > 0
  {
    0 < Mod(current - r + d, n) + r - d <= r + n - 1
  }

  /** The move stays on the stage: directly, or after a jump. */
  predicate Smooth(current: int, position: int, n: nat, r: nat, rewind: bool)
    requires n > 0
  {
    var d := Distance(Mod(current - r, n), position, n, rewind);
    OnStage(current + d, n, r) || CanJump(current, d, n, r)
  }

  /** And it ends at home. */
  predicate InReach(current: int, position: int, n: nat, r: nat, rewind: bool)
    requires n > 0
  {
    var d := Distance(Mod(current - r, n), position, n, rewind);
    (OnStage(current + d, n, r) && Home(current + d, n, r)) || CanJump(current, d, n, r)
  }

  /** Every move starts from a place that looks the same, travels the distance
      wanted and not a step further, and ends on the item meant. Neither of its
      ends needs normalising, which would show as a jump, exactly when the move is
      smooth; and it then ends at home exactly when the target is in reach. The
      stage jumps first only to end on a real item instead of a clone, and always
      then if it can. */
  lemma NoVisibleJump(current: int, position: int, n: nat, r: nat, rewind: bool)
    requires n > 0 && OnStage(current, n, r)
    ensures var m := MoveTo(current, position, n, r, rewind);
      var d := Distance(Mod(current - r, n), position, n, rewind);
      && m.target - m.start == d
      && Mod(m.start - r, n) == Mod(current - r, n) && Mod(m.target - r, n) == Mod(position, n)
      && (OnItem(m.target, n, r) <==> OnItem(current + d, n, r) || CanJump(current, d, n, r))
      && (OnItem(current + d, n, r) || !CanJump(current, d, n, r) ==> m.start == current)
      && (OnStage(m.start, n, r) && OnStage(m.target, n, r) <==> Smooth(current, position, n, r, rewind))
      && (OnStage(m.start, n, r) && OnStage(m.target, n, r) && Home(m.target, n, r)
          <==> InReach(current, position, n, r, rewind))
  {
    ToReachesTarget(current, position, n, r, rewind);
    TravelSmooth(current, Distance(Mod(current - r, n), position, n, rewind), n, r);
  }

  lemma TravelSmooth(current: int, d: int, n: nat, r: nat)
    requires n > 0 && OnStage(current, n, r)
    ensures var m := Travel(current, d, n, r);
      && (OnItem(m.target, n, r) <==> OnItem(current + d, n, r) || CanJump(current, d, n, r))
      && (OnItem(current + d, n, r) || !CanJump(current, d, n, r) ==> m.start == current)
      && (OnStage(m.start, n, r) && OnStage(m.target, n, r) <==> OnStage(current + d, n, r) || CanJump(current, d, n, r))
      && (OnStage(m.start, n, r) && OnStage(m.target, n, r) && Home(m.target, n, r) <==>
            (OnStage(current + d, n, r) && Home(current + d, n, r)) || CanJump(current, d, n, r))
  {
    var t := current - r + d;
    assert JsMod2(t, n) == Mod(t, n) by { JsModTwice(t, n); }
  }

  /** With `rewind` and as many items as are shown, two or more, paging by all
      of them is smooth once; the second click on "next" leads off the stage, and
      the carousel slides back from 2n to n. */
  lemma PagingJumps(n: nat)
    requires n >= 2
    ensures Repeats(n, true, true, n) == n
    ensures MoveTo(n, n, n, n, true) == Move(n, 2 * n) && InReach(n, n, n, n, true)
    ensures MoveTo(2 * n, n, n, n, true) == Move(2 * n, 3 * n) && !Smooth(2 * n, n, n, n, true)
    ensures Normalize(3 * n, n, 2 * n) == Some(n)
  {
    ModPlus(0, n);
    ModPlus(n, n);
    assert Mod(0, n) == 0 && Mod(n, n) == 0 && Mod(2 * n, n) == 0;
    TravelBy(n, n, n, n, 0);
    TravelBy(2 * n, n, n, n, 0);
    NormalizeSound(3 * n, n, n);
  }

  lemma TravelBy(current: int, d: int, n: nat, r: nat, m: int)
    requires n > 0 && m == Mod(current - r + d, n)
    ensures Travel(current, d, n, r)
      == if Reverts(current + d, d, m + r, n, r) then Move(m + r - d, m + r) else Move(current, current + d)
  {
    JsModTwice(current - r + d, n);
  }

  /** Targets that are near: with `rewind` all items and what is at most half a
      round and r steps away, else all that is at most one and a half rounds away. */
  predicate IsNear(current: int, position: int, n: nat, r: nat, rewind: bool)
    requires n > 0
  {
    var d := position - Mod(current - r, n);
    if rewind then 0 <= position < n || (2 * Abs(d) <= n && Abs(d) <= r) else 2 * Abs(d) <= 3 * n
  }

  /** With as many clones as an update provides, near targets are in reach from
      home, and without `rewind` at most half a round is travelled. */
  lemma NearIsInReach(current: int, position: int, n: nat, r: nat, rewind: bool)
    requires n > 0 && r >= 1 && (rewind || 2 * r >= n)
    requires Home(current, n, r) && OnStage(current, n, r) && IsNear(current, position, n, r, rewind)
    ensures InReach(current, position, n, r, rewind) && Smooth(current, position, n, r, rewind)
    ensures !rewind ==> 2 * Abs(Distance(Mod(current - r, n), position, n, rewind)) <= n
  {
    assert Mod(current - r, n) == Near(current - r, n) by { NearModulo(current - r, n); }
    assert MoveTo(current, position, n, r, rewind) == NearMove(current, position, n, r, rewind) by {
      TravelIsNear(current, position, n, r, rewind);
    }
    StaysOnStage(current, position, n, r, rewind);
    NoVisibleJump(current, position, n, r, rewind);
  }

  /** From a target in reach, `to` ends at home without normalising. */
  lemma LandsHome(current: int, position: int, n: nat, m: nat, rewind: bool)
    requires n > 0 && m % 2 == 0
    requires OnStage(current, n, m / 2) && InReach(current, position, n, m / 2, rewind)
    ensures var landed := Landed(current, position, n, m, rewind);
      landed.Some? && Home(landed.value, n, m / 2) && OnStage(landed.value, n, m / 2)
  {
    var target := MoveTo(current, position, n, m / 2, rewind).target;
    assert Home(target, n, m / 2) && OnStage(target, n, m / 2) by {
      NoVisibleJump(current, position, n, m / 2, rewind);
    }
    assert Normalize(target, n, m) == Some(target);
  }

  /** The place in [0, n) that is one round or none away. */
  function Near(b: int, n: nat): int {
    if b < 0 then b + n else if b < n then b else b - n
  }

  lemma NearModulo(a: int, n: nat)
    requires n > 0 && 0 <= a + n < 3 * n
    ensures Mod(a, n) == Near(a, n)
  {}

  /** `MoveTo` without remainders, which is enough near home. */
  function NearMove(current: int, position: int, n: nat, r: nat, rewind: bool): Move {
    NearTravel(current, Distance(Near(current - r, n), position, n, rewind), n, r)
  }

  function NearTravel(current: int, d: int, n: nat, r: nat): Move {
    var revert := Near(current - r + d, n) + r;
    if Reverts(current + d, d, revert, n, r) then Move(revert - d, revert) else Move(current, current + d)
  }

  lemma NearTravelled(current: int, d: int, n: nat, r: nat)
    requires n > 0 && 0 <= current - r + d + n < 3 * n
    ensures Travel(current, d, n, r) == NearTravel(current, d, n, r)
  {
    var t := current - r + d;
    assert JsMod2(t, n) == Near(t, n) by {
      JsModTwice(t, n);
      NearModulo(t, n);
    }
  }

  predicate NearReach(a: int, position: int, n: nat, r: nat, rewind: bool) {
    var d := position - Near(a, n);
    if rewind then 0 <= position < n || (2 * Abs(d) <= n && Abs(d) <= r) else 2 * Abs(d) <= 3 * n
  }

  lemma TravelIsNear(current: int, position: int, n: nat, r: nat, rewind: bool)
    requires n > 0 && Home(current, n, r) && NearReach(current - r, position, n, r, rewind)
    ensures MoveTo(current, position, n, r, rewind) == NearMove(current, position, n, r, rewind)
  {
    NearModulo(current - r, n);
    NearInRange(current - r, position, n, r, rewind);
    NearTravelled(current, Distance(Near(current - r, n), position, n, rewind), n, r);
  }

  lemma NearInRange(a: int, position: int, n: nat, r: nat, rewind: bool)
    requires n > 0 && 0 <= 2 * a + n && a <= n && NearReach(a, position, n, r, rewind)
    ensures var d := Distance(Near(a, n), position, n, rewind);
      (!rewind ==> 2 * Abs(d) <= n) && 0 <= a + d + n < 3 * n
  {}

  /** The linear part: neither end of the animation needs normalising. */
  lemma StaysOnStage(current: int, position: int, n: nat, r: nat, rewind: bool)
    requires n > 0 && r >= 1 && (rewind || 2 * r >= n)
    requires Home(current, n, r) && OnStage(current, n, r) && NearReach(current - r, position, n, r, rewind)
    ensures var m := NearMove(current, position, n, r, rewind);
      && m.target - m.start == Distance(Near(current - r, n), position, n, rewind)
      && (!rewind ==> 2 * Abs(m.target - m.start) <= n)
      && Home(m.target, n, r) && OnStage(m.target, n, r) && OnStage(m.start, n, r)
  {}

  /** The position after moving to each target in turn. */
  function Tour(current: int, targets: seq<int>, n: nat, r: nat, rewind: bool): int
    requires n > 0
    decreases |targets|
  {
    if targets == [] then current
    else Tour(MoveTo(current, targets[0], n, r, rewind).target, targets[1..], n, r, rewind)
  }

  /** Each target is in reach of where the one before it led. */
  predicate AllInReach(current: int, targets: seq<int>, n: nat, r: nat, rewind: bool)
    requires n > 0
    decreases |targets|
  {
    targets != [] ==>
      && InReach(current, targets[0], n, r, rewind)
      && AllInReach(MoveTo(current, targets[0], n, r, rewind).target, targets[1..], n, r, rewind)
  }

  lemma {:induction false} TourHome(current: int, targets: seq<int>, n: nat, r: nat, rewind: bool)
    requires n > 0 && OnStage(current, n, r) && AllInReach(current, targets, n, r, rewind)
    ensures var end := Tour(current, targets, n, r, rewind);
      OnStage(end, n, r) && (targets != [] || Home(current, n, r) ==> Home(end, n, r))
    decreases |targets|
  {
    if targets != [] {
      NoVisibleJump(current, targets[0], n, r, rewind);
      TourHome(MoveTo(current, targets[0], n, r, rewind).target, targets[1..], n, r, rewind);
    }
  }

  lemma {:induction false} TourEnds(current: int, targets: seq<int>, n: nat, r: nat, rewind: bool)
    requires n > 0 && targets != []
    ensures Mod(Tour(current, targets, n, r, rewind) - r, n) == Mod(targets[|targets| - 1], n)
    decreases |targets|
  {
    var next := MoveTo(current, targets[0], n, r, rewind).target;
    if |targets| == 1 {
      ToReachesTarget(current, targets[0], n, r, rewind);
      assert Tour(current, targets, n, r, rewind) == Tour(next, [], n, r, rewind);
    } else {
      TourEnds(next, targets[1..], n, r, rewind);
    }
  }

  /** No sequence of moves to targets in reach ever leaves the stage; it ends at
      home, on the item that was asked for last. */
  lemma TourStaysHome(current: int, targets: seq<int>, n: nat, r: nat, rewind: bool)
    requires n > 0 && targets != [] && OnStage(current, n, r) && AllInReach(current, targets, n, r, rewind)
    ensures var end := Tour(current, targets, n, r, rewind);
      OnStage(end, n, r) && Home(end, n, r) && Mod(end - r, n) == Mod(targets[|targets| - 1], n)
  {
    TourHome(current, targets, n, r, rewind);
    TourEnds(current, targets, n, r, rewind);
  }

  predicate AllNear(current: int, targets: seq<int>, n: nat, r: nat, rewind: bool)
    requires n > 0
    decreases |targets|
  {
    targets != [] ==>
      && IsNear(current, targets[0], n, r, rewind)
      && AllNear(MoveTo(current, targets[0], n, r, rewind).target, targets[1..], n, r, rewind)
  }

  lemma {:induction false} NearToursInReach(current: int, targets: seq<int>, n: nat, r: nat, rewind: bool)
    requires n > 0 && r >= 1 && (rewind || 2 * r >= n)
    requires Home(current, n, r) && OnStage(current, n, r) && AllNear(current, targets, n, r, rewind)
    ensures AllInReach(current, targets, n, r, rewind)
    decreases |targets|
  {
    if targets != [] {
      NearIsInReach(current, targets[0], n, r, rewind);
      NoVisibleJump(current, targets[0], n, r, rewind);
      NearToursInReach(MoveTo(current, targets[0], n, r, rewind).target, targets[1..], n, r, rewind);
    }
  }

  /** With the clones of an update, moves to near targets go on for ever. */
  lemma NearTour(current: int, targets: seq<int>, settingsItems: int, n: nat, rewind: bool)
    requires n > 0
    requires var r := Repeats(settingsItems, true, rewind, n);
      Home(current, n, r) && OnStage(current, n, r) && AllNear(current, targets, n, r, rewind)
    ensures AllInReach(current, targets, n, Repeats(settingsItems, true, rewind, n), rewind)
  {
    NearToursInReach(current, targets, n, Repeats(settingsItems, true, rewind, n), rewind);
  }
}
