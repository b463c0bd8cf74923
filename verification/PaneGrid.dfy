/** Growing a tab into a grid of four panes, and which pane gets which fixed slot
  * (herdr-dashboard/src/layout.rs). */
module PaneGrid {
  import opened Wrappers

  datatype Rect = Rect(x: nat, y: nat, width: nat, height: nat) {
    predicate Covers(cx: nat, cy: nat) {
      x <= cx < x + width && y <= cy < y + height
    }
  }

  type PaneId = string

  datatype LayoutPane = LayoutPane(paneId: PaneId, rect: Rect)

  datatype TabLayout = TabLayout(area: Rect, panes: seq<LayoutPane>)

  datatype Direction = Right | Down

  datatype SplitTarget = SplitTarget(paneId: PaneId, direction: Direction)

  const OPERATION_TAB_SLOTS := 4
  const NO_USABLE_PANE := "herdr response had no usable pane"

  // ---------- which pane to split ----------

  /** Pane `k` is the first listed of this height. */
  predicate FirstOfHeight(panes: seq<LayoutPane>, height: nat, k: nat) {
    && k < |panes| && panes[k].rect.height == height
    && forall j {:trigger panes[j]} :: 0 <= j < k ==> panes[j].rect.height != height
  }

  function FirstFullHeight(panes: seq<LayoutPane>, height: nat): (r: Option<PaneId>)
    ensures r.None? <==> forall p :: p in panes ==> p.rect.height != height
    ensures r.Some? ==> exists k: nat :: FirstOfHeight(panes, height, k) && panes[k].paneId == r.value
  {
    if panes == [] then None
    else if panes[0].rect.height == height then assert FirstOfHeight(panes, height, 0); Some(panes[0].paneId)
    else
      var r := FirstFullHeight(panes[1..], height);
      assert forall k: nat :: FirstOfHeight(panes[1..], height, k) ==> FirstOfHeight(panes, height, k + 1);
      r
  }

  function NextSplitTarget(layout: TabLayout, paneCount: nat): Result<SplitTarget, string> {
    if paneCount <= 1 then
      if layout.panes == [] then Err(NO_USABLE_PANE) else Ok(SplitTarget(layout.panes[0].paneId, Right))
    else
      match FirstFullHeight(layout.panes, layout.area.height)
      case None => Err(NO_USABLE_PANE)
      case Some(paneId) => Ok(SplitTarget(paneId, Down))
  }

  /** A tab of one pane is split to the right at the pane listed first, a larger one downwards at the first listed
    * pane that is as high as the tab; without such a pane there is nothing to split. */
  lemma NextSplitIff(layout: TabLayout, paneCount: nat, target: SplitTarget)
    ensures NextSplitTarget(layout, paneCount) == Ok(target) <==>
      if paneCount <= 1 then layout.panes != [] && target == SplitTarget(layout.panes[0].paneId, Right)
      else target.direction == Down && exists k: nat :: FirstOfHeight(layout.panes, layout.area.height, k)
                                                   && layout.panes[k].paneId == target.paneId
    ensures NextSplitTarget(layout, paneCount).Err? ==> NextSplitTarget(layout, paneCount).error == NO_USABLE_PANE
  {
    if k: nat :| FirstOfHeight(layout.panes, layout.area.height, k) && layout.panes[k].paneId == target.paneId {
      assert layout.panes[k] in layout.panes;
      var r := FirstFullHeight(layout.panes, layout.area.height);
      var j: nat :| FirstOfHeight(layout.panes, layout.area.height, j) && layout.panes[j].paneId == r.value;
      assert !(j < k) && !(k < j);
    }
  }

  // ---------- a tab and its splits ----------

  type Tab = map<PaneId, Rect>

  /** A split cuts a pane in two non-empty parts; where it cuts is up to the terminal. */
  function SplitFirst(r: Rect, direction: Direction, cut: nat): Rect {
    if direction == Right then r.(width := cut) else r.(height := cut)
  }

  function SplitSecond(r: Rect, direction: Direction, cut: nat): Rect
    requires cut < if direction == Right then r.width else r.height
  {
    if direction == Right then Rect(r.x + cut, r.y, r.width - cut, r.height)
    else Rect(r.x, r.y + cut, r.width, r.height - cut)
  }

  predicate CanCut(r: Rect, direction: Direction, cut: nat) {
    0 < cut < if direction == Right then r.width else r.height
  }

  function Split(tab: Tab, target: SplitTarget, cut: nat, newId: PaneId): Tab
    requires target.paneId in tab && CanCut(tab[target.paneId], target.direction, cut)
  {
    var r := tab[target.paneId];
    tab[target.paneId := SplitFirst(r, target.direction, cut)][newId := SplitSecond(r, target.direction, cut)]
  }

  /** The panes are non-empty, lie in the area, cover every cell of it, and no cell twice. */
  ghost predicate Tiles(tab: Tab, area: Rect) {
    && (forall id :: id in tab ==> tab[id].width > 0 && tab[id].height > 0)
    && (forall cx: nat, cy: nat :: area.Covers(cx, cy) <==> Covered(tab, cx, cy))
    && (forall a, b, cx: nat, cy: nat :: CoveredBy(tab, a, cx, cy) && CoveredBy(tab, b, cx, cy) ==> a == b)
  }

  ghost predicate CoveredBy(tab: Tab, id: PaneId, cx: nat, cy: nat) {
    id in tab && tab[id].Covers(cx, cy)
  }

  ghost predicate Covered(tab: Tab, cx: nat, cy: nat) {
    exists id :: CoveredBy(tab, id, cx, cy)
  }

  /** Any split of any pane keeps the panes an exact, disjoint tiling. */
  lemma SplitKeepsTiling(tab: Tab, area: Rect, target: SplitTarget, cut: nat, newId: PaneId)
    requires Tiles(tab, area) && target.paneId in tab && newId !in tab
    requires CanCut(tab[target.paneId], target.direction, cut)
    ensures Tiles(Split(tab, target, cut, newId), area)
  {
    var after := Split(tab, target, cut, newId);
    forall cx: nat, cy: nat ensures area.Covers(cx, cy) <==> Covered(after, cx, cy) {
      SplitCells(tab, target, cut, newId, cx, cy);
      if Covered(tab, cx, cy) {
        var id :| CoveredBy(tab, id, cx, cy);
        assert CoveredBy(after, id, cx, cy) || CoveredBy(after, newId, cx, cy);
      }
      if Covered(after, cx, cy) {
        var id :| CoveredBy(after, id, cx, cy);
        assert CoveredBy(tab, id, cx, cy) || CoveredBy(tab, target.paneId, cx, cy);
      }
    }
    forall a, b, cx: nat, cy: nat | CoveredBy(after, a, cx, cy) && CoveredBy(after, b, cx, cy) ensures a == b {
      SplitCells(tab, target, cut, newId, cx, cy);
    }
  }

  lemma SplitCells(tab: Tab, target: SplitTarget, cut: nat, newId: PaneId, cx: nat, cy: nat)
    requires target.paneId in tab && newId !in tab
    requires CanCut(tab[target.paneId], target.direction, cut)
    ensures var after := Split(tab, target, cut, newId);
      && (CoveredBy(tab, target.paneId, cx, cy) <==>
          CoveredBy(after, target.paneId, cx, cy) || CoveredBy(after, newId, cx, cy))
      && !(CoveredBy(after, target.paneId, cx, cy) && CoveredBy(after, newId, cx, cy))
      && (forall id {:trigger CoveredBy(tab, id, cx, cy)} {:trigger CoveredBy(after, id, cx, cy)} ::
            id != target.paneId && id != newId ==> (CoveredBy(tab, id, cx, cy) <==> CoveredBy(after, id, cx, cy)))
      && !CoveredBy(tab, newId, cx, cy)
  {
  }

  // ---------- how the grid is built ----------

  /** The stages of a tab that starts as one pane: one pane, two columns, one column cut
    * in two, both columns cut in two. `w` is the width of the left column, `h`, `left` and
    * `right` the heights of the upper panes. */
  datatype Build =
    | One(a: PaneId)
    | Two(a: PaneId, b: PaneId, w: nat)
    | LeftCut(a: PaneId, b: PaneId, below: PaneId, w: nat, h: nat)
    | RightCut(a: PaneId, b: PaneId, below: PaneId, w: nat, h: nat)
    | Four(topLeft: PaneId, topRight: PaneId, bottomLeft: PaneId, bottomRight: PaneId,
           w: nat, left: nat, right: nat)

  function Count(b: Build): nat {
    match b case One(_) => 1 case Two(_, _, _) => 2 case Four(_, _, _, _, _, _, _) => 4 case _ => 3
  }

  predicate Fits(b: Build, area: Rect) {
    && area.width >= 2 && area.height >= 2
    && (!b.One? ==> 0 < b.w < area.width)
    && (b.LeftCut? || b.RightCut? ==> 0 < b.h < area.height && b.below != b.a && b.below != b.b)
    && (b.Two? || b.LeftCut? || b.RightCut? ==> b.a != b.b)
    && (b.Four? ==>
          && 0 < b.left < area.height && 0 < b.right < area.height
          && b.topLeft != b.topRight && b.topLeft != b.bottomLeft && b.topLeft != b.bottomRight
          && b.topRight != b.bottomLeft && b.topRight != b.bottomRight && b.bottomLeft != b.bottomRight)
  }

  function Left(area: Rect, w: nat): Rect { area.(width := w) }

  function RightOf(area: Rect, w: nat): Rect
    requires w <= area.width
  {
    Rect(area.x + w, area.y, area.width - w, area.height)
  }

  function Upper(r: Rect, h: nat): Rect { r.(height := h) }

  function Lower(r: Rect, h: nat): Rect
    requires h <= r.height
  {
    Rect(r.x, r.y + h, r.width, r.height - h)
  }

  function Panes(b: Build, area: Rect): Tab
    requires Fits(b, area)
  {
    match b
    case One(a) => map[a := area]
    case Two(a, c, w) => map[a := Left(area, w), c := RightOf(area, w)]
    case LeftCut(a, c, below, w, h) =>
      map[a := Upper(Left(area, w), h), c := RightOf(area, w), below := Lower(Left(area, w), h)]
    case RightCut(a, c, below, w, h) =>
      map[a := Left(area, w), c := Upper(RightOf(area, w), h), below := Lower(RightOf(area, w), h)]
    case Four(tl, tr, bl, br, w, left, right) =>
      map[tl := Upper(Left(area, w), left), tr := Upper(RightOf(area, w), right),
          bl := Lower(Left(area, w), left), br := Lower(RightOf(area, w), right)]
  }

  /** The terminal lists every pane of the tab once, in whatever order. */
  ghost predicate Lists(layout: TabLayout, tab: Tab, area: Rect) {
    && layout.area == area
    && (forall k {:trigger layout.panes[k]} :: 0 <= k < |layout.panes| ==> Shows(layout.panes[k], tab))
    && (forall j, k :: 0 <= j < k < |layout.panes| ==> layout.panes[j].paneId != layout.panes[k].paneId)
    && (forall id :: id in tab ==> ListedAt(layout.panes, id))
  }

  predicate Shows(pane: LayoutPane, tab: Tab) { pane.paneId in tab && tab[pane.paneId] == pane.rect }

  ghost predicate ListedAt(panes: seq<LayoutPane>, id: PaneId) {
    exists k :: 0 <= k < |panes| && panes[k].paneId == id
  }

  /** The stage after the pane the code chooses has been split. */
  function Grown(b: Build, target: PaneId, cut: nat, newId: PaneId): Build
    requires !b.Four?
  {
    match b
    case One(a) => Two(a, newId, cut)
    case Two(a, c, w) => if target == a then LeftCut(a, c, newId, w, cut) else RightCut(a, c, newId, w, cut)
    case LeftCut(a, c, below, w, h) => Four(a, c, below, newId, w, h, cut)
    case RightCut(a, c, below, w, h) => Four(a, c, newId, below, w, cut, h)
  }

  /** For one, two and three panes, listed in any order, the code finds a pane it can split,
    * and wherever the cut falls the result is the next stage. */
  lemma NextSplitGrows(b: Build, area: Rect, layout: TabLayout)
    requires Fits(b, area) && !b.Four? && Lists(layout, Panes(b, area), area)
    ensures NextSplitTarget(layout, Count(b)).Ok?
    ensures var target := NextSplitTarget(layout, Count(b)).value;
      && target.paneId in Panes(b, area)
      && (exists cut :: CanCut(Panes(b, area)[target.paneId], target.direction, cut))
      && forall cut, newId {:trigger Grown(b, target.paneId, cut, newId)} ::
           CanCut(Panes(b, area)[target.paneId], target.direction, cut) && newId !in Panes(b, area) ==>
             && Fits(Grown(b, target.paneId, cut, newId), area)
             && Split(Panes(b, area), target, cut, newId) == Panes(Grown(b, target.paneId, cut, newId), area)
  {
    var tab := Panes(b, area);
    var someId := match b case One(a) => a case Two(a, _, _) => a case LeftCut(_, c, _, _, _) => c
        case RightCut(a, _, _, _, _) => a case Four(a, _, _, _, _, _, _) => a;
    assert ListedAt(layout.panes, someId);
    var k :| 0 <= k < |layout.panes| && layout.panes[k].paneId == someId;
    assert Shows(layout.panes[k], tab);
    assert layout.panes[k] in layout.panes;
    TargetIsFullHeight(b, area, layout);
    var target := NextSplitTarget(layout, Count(b)).value;
    assert CanCut(tab[target.paneId], target.direction, 1);
    forall cut, newId | CanCut(tab[target.paneId], target.direction, cut) && newId !in tab
      ensures Fits(Grown(b, target.paneId, cut, newId), area)
      ensures Split(tab, target, cut, newId) == Panes(Grown(b, target.paneId, cut, newId), area)
    {
      GrownIsSplit(b, area, target, cut, newId);
    }
  }

  predicate ChosenPane(b: Build, target: SplitTarget) {
    match b
    case One(a) => target == SplitTarget(a, Right)
    case Two(a, c, _) => target.direction == Down && (target.paneId == a || target.paneId == c)
    case LeftCut(_, c, _, _, _) => target == SplitTarget(c, Down)
    case RightCut(a, _, _, _, _) => target == SplitTarget(a, Down)
    case Four(_, _, _, _, _, _, _) => false
  }

  lemma TargetIsFullHeight(b: Build, area: Rect, layout: TabLayout)
    requires Fits(b, area) && !b.Four? && Lists(layout, Panes(b, area), area)
    requires layout.panes != []
    requires !b.One? ==> exists p :: p in layout.panes && p.rect.height == area.height
    ensures NextSplitTarget(layout, Count(b)).Ok?
    ensures ChosenPane(b, NextSplitTarget(layout, Count(b)).value)
  {
    if b.One? {
      assert Shows(layout.panes[0], Panes(b, area));
    } else {
      var r := FirstFullHeight(layout.panes, area.height);
      var k: nat :| FirstOfHeight(layout.panes, area.height, k) && layout.panes[k].paneId == r.value;
      assert Shows(layout.panes[k], Panes(b, area));
      FullHeightIsChosen(b, area, r.value);
    }
  }

  lemma FullHeightIsChosen(b: Build, area: Rect, id: PaneId)
    requires Fits(b, area) && !b.Four? && !b.One?
    requires id in Panes(b, area) && Panes(b, area)[id].height == area.height
    ensures ChosenPane(b, SplitTarget(id, Down))
  {
  }

  lemma GrownIsSplit(b: Build, area: Rect, target: SplitTarget, cut: nat, newId: PaneId)
    requires Fits(b, area) && ChosenPane(b, target)
    requires target.paneId in Panes(b, area) && newId !in Panes(b, area)
    requires CanCut(Panes(b, area)[target.paneId], target.direction, cut)
    ensures Fits(Grown(b, target.paneId, cut, newId), area)
    ensures Split(Panes(b, area), target, cut, newId) == Panes(Grown(b, target.paneId, cut, newId), area)
  {
    match b
    case LeftCut(_, _, _, _, _) => LastCutIsSplit(b, area, cut, newId);
    case RightCut(_, _, _, _, _) => LastCutIsSplit(b, area, cut, newId);
    case _ =>
  }

  lemma LastCutIsSplit(b: Build, area: Rect, cut: nat, newId: PaneId)
    requires Fits(b, area) && (b.LeftCut? || b.RightCut?) && newId !in Panes(b, area)
    requires 0 < cut < area.height
    ensures var target := SplitTarget(if b.LeftCut? then b.b else b.a, Down);
      && Panes(b, area)[target.paneId].height == area.height
      && Fits(Grown(b, target.paneId, cut, newId), area)
      && Split(Panes(b, area), target, cut, newId) == Panes(Grown(b, target.paneId, cut, newId), area)
  {
  }

  lemma OneTiles(a: PaneId, area: Rect)
    requires area.width >= 1 && area.height >= 1
    ensures Tiles(map[a := area], area)
  {
    forall cx: nat, cy: nat ensures area.Covers(cx, cy) <==> Covered(map[a := area], cx, cy) {
      assert CoveredBy(map[a := area], a, cx, cy) <==> area.Covers(cx, cy);
    }
  }

  // ---------- reading order ----------

  predicate Before(p: LayoutPane, q: LayoutPane) {
    p.rect.y < q.rect.y || (p.rect.y == q.rect.y && p.rect.x < q.rect.x)
  }

  /** Puts `p`, which came earlier in the list, in front of the first pane not before it. */
  function Insert(p: LayoutPane, sorted: seq<LayoutPane>): seq<LayoutPane> {
    if sorted == [] || !Before(sorted[0], p) then [p] + sorted else [sorted[0]] + Insert(p, sorted[1..])
  }

  function ReadingOrder(panes: seq<LayoutPane>): seq<LayoutPane> {
    if panes == [] then [] else Insert(panes[0], ReadingOrder(panes[1..]))
  }

  datatype OperationPanes = OperationPanes(merge: PaneId, retro: PaneId, cleanup: PaneId, spare: PaneId)

  function OperationSlotPanes(layout: TabLayout): Option<OperationPanes> {
    if |layout.panes| < OPERATION_TAB_SLOTS then None
    else
      var ordered := ReadingOrder(layout.panes);
      OrderedLength(layout.panes);
      Some(OperationPanes(ordered[0].paneId, ordered[1].paneId, ordered[2].paneId, ordered[3].paneId))
  }

  lemma {:induction false} InsertedBag(p: LayoutPane, sorted: seq<LayoutPane>)
    ensures multiset(Insert(p, sorted)) == multiset{p} + multiset(sorted)
  {
    if sorted != [] {
      assert sorted == [sorted[0]] + sorted[1..];
      InsertedBag(p, sorted[1..]);
    }
  }

  /** Reading order keeps every pane, exactly as often as it was listed. */
  lemma {:induction false} OrderKeepsPanes(panes: seq<LayoutPane>)
    ensures multiset(ReadingOrder(panes)) == multiset(panes)
  {
    if panes != [] {
      assert panes == [panes[0]] + panes[1..];
      OrderKeepsPanes(panes[1..]);
      InsertedBag(panes[0], ReadingOrder(panes[1..]));
    }
  }

  lemma OrderedLength(panes: seq<LayoutPane>)
    ensures |ReadingOrder(panes)| == |panes|
  {
    OrderKeepsPanes(panes);
    assert |multiset(ReadingOrder(panes))| == |multiset(panes)|;
  }

  /** No later pane comes before an earlier one. */
  predicate InOrder(s: seq<LayoutPane>) {
    forall j, k :: 0 <= j < k < |s| ==> !Before(s[k], s[j])
  }

  lemma {:induction false} InsertKeepsOrder(p: LayoutPane, sorted: seq<LayoutPane>)
    requires InOrder(sorted)
    ensures InOrder(Insert(p, sorted))
  {
    if sorted != [] && Before(sorted[0], p) {
      var rest := sorted[1..];
      assert InOrder(rest);
      InsertKeepsOrder(p, rest);
      InsertedBag(p, rest);
      var r := Insert(p, rest);
      forall k | 0 <= k < |r| ensures !Before(r[k], sorted[0]) {
        assert r[k] in multiset(r);
        assert r[k] == p || r[k] in multiset(rest);
      }
      assert Insert(p, sorted) == [sorted[0]] + r;
    }
  }

  lemma {:induction false} OrderIsOrdered(panes: seq<LayoutPane>)
    ensures InOrder(ReadingOrder(panes))
  {
    if panes != [] {
      OrderIsOrdered(panes[1..]);
      InsertKeepsOrder(panes[0], ReadingOrder(panes[1..]));
    }
  }

  predicate StrictOrder(s: seq<LayoutPane>) {
    forall j, k :: 0 <= j < k < |s| ==> Before(s[j], s[k])
  }

  /** Two strictly ordered lists of the same panes are the same list. */
  lemma {:induction false} StrictOrderIsUnique(s: seq<LayoutPane>, t: seq<LayoutPane>)
    requires StrictOrder(s) && StrictOrder(t) && multiset(s) == multiset(t)
    ensures s == t
  {
    if s != [] && t != [] {
      FirstIsLeast(s, t);
      assert s == [s[0]] + s[1..] && t == [t[0]] + t[1..];
      assert multiset(s[1..]) == multiset(s) - multiset{s[0]};
      assert multiset(t[1..]) == multiset(t) - multiset{t[0]};
      StrictOrderIsUnique(s[1..], t[1..]);
    } else {
      assert |s| == |multiset(s)| && |t| == |multiset(t)|;
    }
  }

  lemma FirstIsLeast(s: seq<LayoutPane>, t: seq<LayoutPane>)
    requires StrictOrder(s) && StrictOrder(t) && multiset(s) == multiset(t) && s != [] && t != []
    ensures s[0] == t[0]
  {
    assert s[0] in multiset(t) && t[0] in multiset(s);
    var j :| 0 <= j < |t| && t[j] == s[0];
    var k :| 0 <= k < |s| && s[k] == t[0];
  }

  // ---------- the slots do not depend on the listing ----------

  lemma {:induction false} EachPaneOnce(panes: seq<LayoutPane>, p: LayoutPane)
    requires forall j, k :: 0 <= j < k < |panes| ==> panes[j].paneId != panes[k].paneId
    ensures multiset(panes)[p] == if p in panes then 1 else 0
  {
    if panes != [] {
      assert panes == [panes[0]] + panes[1..];
      EachPaneOnce(panes[1..], p);
    }
  }

  lemma TwoPlacesTwoPanes(s: seq<LayoutPane>, j: nat, k: nat)
    requires j < k < |s| && multiset(s)[s[j]] <= 1
    ensures s[j] != s[k]
  {
    assert s == s[..k] + s[k..];
    assert multiset(s) == multiset(s[..k]) + multiset(s[k..]);
    assert s[..k][j] in multiset(s[..k]);
    assert s[k..][0] in multiset(s[k..]);
  }

  lemma TilesHaveCorners(tab: Tab, area: Rect, p: LayoutPane, q: LayoutPane)
    requires Tiles(tab, area) && Shows(p, tab) && Shows(q, tab) && p.paneId != q.paneId
    ensures Before(p, q) || Before(q, p)
  {
    assert CoveredBy(tab, p.paneId, p.rect.x, p.rect.y);
    assert CoveredBy(tab, q.paneId, q.rect.x, q.rect.y);
  }

  lemma OrderIsStrict(layout: TabLayout, tab: Tab, area: Rect)
    requires Lists(layout, tab, area) && Tiles(tab, area)
    ensures StrictOrder(ReadingOrder(layout.panes))
  {
    var s := ReadingOrder(layout.panes);
    OrderKeepsPanes(layout.panes);
    OrderIsOrdered(layout.panes);
    forall j, k | 0 <= j < k < |s| ensures Before(s[j], s[k]) {
      assert s[j] in multiset(s) && s[k] in multiset(s);
      EachPaneOnce(layout.panes, s[j]);
      TwoPlacesTwoPanes(s, j, k);
      assert s[j] in layout.panes && s[k] in layout.panes;
      assert Shows(s[j], tab) && Shows(s[k], tab);
      TilesHaveCorners(tab, area, s[j], s[k]);
    }
  }

  lemma SameTabSamePanes(one: TabLayout, two: TabLayout, tab: Tab, area: Rect)
    requires Lists(one, tab, area) && Lists(two, tab, area)
    ensures multiset(one.panes) == multiset(two.panes)
  {
    forall p ensures multiset(one.panes)[p] == multiset(two.panes)[p] {
      EachPaneOnce(one.panes, p);
      EachPaneOnce(two.panes, p);
      InListing(one, tab, area, p);
      InListing(two, tab, area, p);
    }
  }

  lemma InListing(layout: TabLayout, tab: Tab, area: Rect, p: LayoutPane)
    requires Lists(layout, tab, area)
    ensures p in layout.panes <==> Shows(p, tab)
  {
  }

  /** On any tiled tab the four slots depend on the tab alone, not on the order in which the
    * terminal lists its panes, and they are four different panes of that tab. */
  lemma SlotsIgnoreListing(one: TabLayout, two: TabLayout, tab: Tab, area: Rect)
    requires Lists(one, tab, area) && Lists(two, tab, area) && Tiles(tab, area)
    ensures OperationSlotPanes(one) == OperationSlotPanes(two)
    ensures OperationSlotPanes(one).Some? <==> |one.panes| >= OPERATION_TAB_SLOTS
    ensures OperationSlotPanes(one).Some? ==>
              var p := OperationSlotPanes(one).value;
              && p.merge in tab && p.retro in tab && p.cleanup in tab && p.spare in tab
              && |{p.merge, p.retro, p.cleanup, p.spare}| == 4
  {
    SameTabSamePanes(one, two, tab, area);
    assert |multiset(one.panes)| == |multiset(two.panes)|;
    OrderIsStrict(one, tab, area);
    OrderIsStrict(two, tab, area);
    OrderKeepsPanes(one.panes);
    OrderKeepsPanes(two.panes);
    StrictOrderIsUnique(ReadingOrder(one.panes), ReadingOrder(two.panes));
    if |one.panes| >= OPERATION_TAB_SLOTS {
      OrderedLength(one.panes);
      FourSlots(one, tab, area);
    }
  }

  /** Pane `a` lies higher than `b`, or as high and further left. */
  predicate Earlier(tab: Tab, a: PaneId, b: PaneId) {
    && a in tab && b in tab
    && (tab[a].y < tab[b].y || (tab[a].y == tab[b].y && tab[a].x < tab[b].x))
  }

  lemma OrderIsEarlier(layout: TabLayout, tab: Tab, area: Rect, j: nat, k: nat)
    requires Lists(layout, tab, area) && Tiles(tab, area) && j < k < |ReadingOrder(layout.panes)|
    ensures Earlier(tab, ReadingOrder(layout.panes)[j].paneId, ReadingOrder(layout.panes)[k].paneId)
  {
    var s := ReadingOrder(layout.panes);
    OrderIsStrict(layout, tab, area);
    OrderKeepsPanes(layout.panes);
    assert s[j] in multiset(s) && s[k] in multiset(s);
    InListing(layout, tab, area, s[j]);
    InListing(layout, tab, area, s[k]);
  }

  lemma OrderHasPane(layout: TabLayout, tab: Tab, area: Rect, id: PaneId) returns (k: nat)
    requires Lists(layout, tab, area) && id in tab
    ensures k < |ReadingOrder(layout.panes)| && ReadingOrder(layout.panes)[k].paneId == id
  {
    assert ListedAt(layout.panes, id);
    var j :| 0 <= j < |layout.panes| && layout.panes[j].paneId == id;
    OrderKeepsPanes(layout.panes);
    assert layout.panes[j] in multiset(ReadingOrder(layout.panes));
    k :| 0 <= k < |ReadingOrder(layout.panes)| && ReadingOrder(layout.panes)[k] == layout.panes[j];
  }

  /** On a tiled tab the slots are its four first panes, row by row and each row from the left. */
  lemma SlotsAreFirst(layout: TabLayout, tab: Tab, area: Rect, id: PaneId)
    requires Lists(layout, tab, area) && Tiles(tab, area) && |layout.panes| >= 4
    ensures OperationSlotPanes(layout).Some?
    ensures var p := OperationSlotPanes(layout).value;
      && Earlier(tab, p.merge, p.retro) && Earlier(tab, p.retro, p.cleanup) && Earlier(tab, p.cleanup, p.spare)
      && (id in tab ==> id == p.merge || id == p.retro || id == p.cleanup || id == p.spare || Earlier(tab, p.spare, id))
  {
    OrderedLength(layout.panes);
    OrderIsEarlier(layout, tab, area, 0, 1);
    OrderIsEarlier(layout, tab, area, 1, 2);
    OrderIsEarlier(layout, tab, area, 2, 3);
    if id in tab {
      var k := OrderHasPane(layout, tab, area, id);
      if k > 3 { OrderIsEarlier(layout, tab, area, 3, k); }
    }
  }

  lemma FourSlots(layout: TabLayout, tab: Tab, area: Rect)
    requires Lists(layout, tab, area) && StrictOrder(ReadingOrder(layout.panes))
    requires |ReadingOrder(layout.panes)| >= 4
    ensures var s := ReadingOrder(layout.panes);
      && (forall k {:trigger s[k]} :: 0 <= k < |s| ==> Shows(s[k], tab))
      && |{s[0].paneId, s[1].paneId, s[2].paneId, s[3].paneId}| == 4
  {
    var s := ReadingOrder(layout.panes);
    OrderKeepsPanes(layout.panes);
    forall k {:trigger s[k]} | 0 <= k < |s| ensures Shows(s[k], tab) {
      assert s[k] in multiset(s);
      InListing(layout, tab, area, s[k]);
    }
    StrictShownIds(s[0], s[1], s[2], s[3], tab);
  }

  lemma StrictShownIds(a: LayoutPane, b: LayoutPane, c: LayoutPane, d: LayoutPane, tab: Tab)
    requires Shows(a, tab) && Shows(b, tab) && Shows(c, tab) && Shows(d, tab)
    requires Before(a, b) && Before(b, c) && Before(c, d)
    ensures |{a.paneId, b.paneId, c.paneId, d.paneId}| == 4
  {
  }

  // ---------- the slots of a grown grid ----------

  lemma GridTiles(b: Build, area: Rect)
    requires Fits(b, area)
    ensures Tiles(Panes(b, area), area)
    decreases Count(b), 0
  {
    match b
    case One(a) => OneTiles(a, area);
    case Two(a, c, w) => FromStage(One(a), area, SplitTarget(a, Right), w, c);
    case LeftCut(a, c, below, w, h) => FromStage(Two(a, c, w), area, SplitTarget(a, Down), h, below);
    case RightCut(a, c, below, w, h) => FromStage(Two(a, c, w), area, SplitTarget(c, Down), h, below);
    case Four(tl, tr, bl, br, w, left, right) =>
      FromStage(LeftCut(tl, tr, bl, w, left), area, SplitTarget(tr, Down), right, br);
  }

  /** A stage tiles the area because the stage before it did. */
  lemma FromStage(b: Build, area: Rect, target: SplitTarget, cut: nat, newId: PaneId)
    requires Fits(b, area) && ChosenPane(b, target)
    requires target.paneId in Panes(b, area) && newId !in Panes(b, area)
    requires CanCut(Panes(b, area)[target.paneId], target.direction, cut)
    ensures Tiles(Panes(Grown(b, target.paneId, cut, newId), area), area)
    decreases Count(b), 1
  {
    GridTiles(b, area);
    SplitKeepsTiling(Panes(b, area), area, target, cut, newId);
    GrownIsSplit(b, area, target, cut, newId);
  }

  /** The slots of a full grid: the first two are always the top row. The third is the bottom
    * left pane exactly when the left column was not cut lower than the right one. */
  lemma GridSlots(b: Build, area: Rect, layout: TabLayout)
    requires Fits(b, area) && b.Four? && Lists(layout, Panes(b, area), area)
    ensures OperationSlotPanes(layout) == Some(
      if b.left <= b.right then OperationPanes(b.topLeft, b.topRight, b.bottomLeft, b.bottomRight)
      else OperationPanes(b.topLeft, b.topRight, b.bottomRight, b.bottomLeft))
  {
    var tab := Panes(b, area);
    var tl, tr := LayoutPane(b.topLeft, tab[b.topLeft]), LayoutPane(b.topRight, tab[b.topRight]);
    var bl, br := LayoutPane(b.bottomLeft, tab[b.bottomLeft]), LayoutPane(b.bottomRight, tab[b.bottomRight]);
    var sorted := if b.left <= b.right then [tl, tr, bl, br] else [tl, tr, br, bl];
    var listing := TabLayout(area, sorted);
    ListingOfFour(b, area, sorted);
    GridTiles(b, area);
    SameTabSamePanes(layout, listing, tab, area);
    OrderIsStrict(layout, tab, area);
    OrderKeepsPanes(layout.panes);
    OrderedLength(layout.panes);
    StrictOrderIsUnique(ReadingOrder(layout.panes), sorted);
  }

  lemma ListingOfFour(b: Build, area: Rect, sorted: seq<LayoutPane>)
    requires Fits(b, area) && b.Four?
    requires
      var tab := Panes(b, area);
      var tl, tr := LayoutPane(b.topLeft, tab[b.topLeft]), LayoutPane(b.topRight, tab[b.topRight]);
      var bl, br := LayoutPane(b.bottomLeft, tab[b.bottomLeft]), LayoutPane(b.bottomRight, tab[b.bottomRight]);
      sorted == if b.left <= b.right then [tl, tr, bl, br] else [tl, tr, br, bl]
    ensures Lists(TabLayout(area, sorted), Panes(b, area), area) && StrictOrder(sorted) && |sorted| == 4
  {
    var tab := Panes(b, area);
    if b.left <= b.right {
      ListsFour(sorted[0], sorted[1], sorted[2], sorted[3], tab, area);
    } else {
      ListsFour(sorted[0], sorted[1], sorted[2], sorted[3], tab, area);
    }
    assert sorted == [sorted[0], sorted[1], sorted[2], sorted[3]];
  }

  lemma ListsFour(a: LayoutPane, b: LayoutPane, c: LayoutPane, d: LayoutPane, tab: Tab, area: Rect)
    requires Shows(a, tab) && Shows(b, tab) && Shows(c, tab) && Shows(d, tab)
    requires a.paneId != b.paneId && a.paneId != c.paneId && a.paneId != d.paneId
    requires b.paneId != c.paneId && b.paneId != d.paneId && c.paneId != d.paneId
    requires forall id :: id in tab ==> id == a.paneId || id == b.paneId || id == c.paneId || id == d.paneId
    ensures Lists(TabLayout(area, [a, b, c, d]), tab, area)
  {
    var s := [a, b, c, d];
    forall id | id in tab ensures ListedAt(s, id) {
      assert s[0].paneId == a.paneId && s[1].paneId == b.paneId && s[2].paneId == c.paneId && s[3].paneId == d.paneId;
    }
  }

  const SMALL_AREA := Rect(0, 0, 2, 3)

  /** The left column cut at two, the right one at one. */
  function LowerLeftCut(a: PaneId, b: PaneId, c: PaneId, d: PaneId): Build { Four(a, b, c, d, 1, 2, 1) }

  function LowerLeftLayout(a: PaneId, b: PaneId, c: PaneId, d: PaneId): TabLayout {
    TabLayout(SMALL_AREA, [LayoutPane(a, Rect(0, 0, 1, 2)), LayoutPane(b, Rect(1, 0, 1, 1)),
                           LayoutPane(c, Rect(0, 2, 1, 1)), LayoutPane(d, Rect(1, 1, 1, 2))])
  }

  lemma LowerLeftPanes(a: PaneId, b: PaneId, c: PaneId, d: PaneId)
    requires a != b && a != c && a != d && b != c && b != d && c != d
    ensures Fits(LowerLeftCut(a, b, c, d), SMALL_AREA)
    ensures Panes(LowerLeftCut(a, b, c, d), SMALL_AREA) ==
            map[a := Rect(0, 0, 1, 2), b := Rect(1, 0, 1, 1), c := Rect(0, 2, 1, 1), d := Rect(1, 1, 1, 2)]
  {
    var left, right := Left(SMALL_AREA, 1), RightOf(SMALL_AREA, 1);
    assert Upper(left, 2) == Rect(0, 0, 1, 2) && Upper(right, 1) == Rect(1, 0, 1, 1);
    assert Lower(left, 2) == Rect(0, 2, 1, 1) && Lower(right, 1) == Rect(1, 1, 1, 2);
  }

  lemma LowerLeftLayoutIsListed(a: PaneId, b: PaneId, c: PaneId, d: PaneId, tab: Tab)
    requires a != b && a != c && a != d && b != c && b != d && c != d
    requires tab == map[a := Rect(0, 0, 1, 2), b := Rect(1, 0, 1, 1), c := Rect(0, 2, 1, 1), d := Rect(1, 1, 1, 2)]
    ensures Lists(LowerLeftLayout(a, b, c, d), tab, SMALL_AREA)
  {
    ListsFour(LayoutPane(a, Rect(0, 0, 1, 2)), LayoutPane(b, Rect(1, 0, 1, 1)),
              LayoutPane(c, Rect(0, 2, 1, 1)), LayoutPane(d, Rect(1, 1, 1, 2)), tab, SMALL_AREA);
  }

  /** Cuts that the terminal is free to make, after which the third slot is not the bottom left pane `c`. */
  lemma LowerLeftCutSwapsTheBottomRow(a: PaneId, b: PaneId, c: PaneId, d: PaneId)
    requires a != b && a != c && a != d && b != c && b != d && c != d
    ensures Fits(LowerLeftCut(a, b, c, d), SMALL_AREA)
    ensures Lists(LowerLeftLayout(a, b, c, d), Panes(LowerLeftCut(a, b, c, d), SMALL_AREA), SMALL_AREA)
    ensures OperationSlotPanes(LowerLeftLayout(a, b, c, d)) == Some(OperationPanes(a, b, d, c))
  {
    LowerLeftPanes(a, b, c, d);
    LowerLeftLayoutIsListed(a, b, c, d, Panes(LowerLeftCut(a, b, c, d), SMALL_AREA));
    GridSlots(LowerLeftCut(a, b, c, d), SMALL_AREA, LowerLeftLayout(a, b, c, d));
  }

  // ---------- growing the operation tab ----------

  /** The terminal's answers in one round of the loop: the layout the split target is chosen
    * from, whether the split command succeeded, and the layout read afterwards. */
  datatype Round = Round(before: Result<TabLayout, string>, split: Result<(), string>, after: Result<TabLayout, string>)

  /** The layout the loop holds after `k` rounds. */
  function Held(first: TabLayout, answers: nat -> Round, k: nat): TabLayout {
    if k == 0 || answers(k - 1).after.Err? then first else answers(k - 1).after.value
  }

  /** Round `k` is entered and leaves the tab with more panes. */
  predicate Grows(first: TabLayout, answers: nat -> Round, k: nat) {
    var held := Held(first, answers, k);
    var r := answers(k);
    && |held.panes| < OPERATION_TAB_SLOTS
    && r.before.Ok? && NextSplitTarget(r.before.value, |held.panes|).Ok?
    && r.split.Ok?
    && r.after.Ok? && |r.after.value.panes| > |held.panes|
  }

  /** Why round `k` stops the loop with an error: the first answer that failed. */
  function Failure(held: TabLayout, r: Round): Option<string> {
    if r.before.Err? then Some(r.before.error)
    else if NextSplitTarget(r.before.value, |held.panes|).Err? then Some(NO_USABLE_PANE)
    else if r.split.Err? then Some(r.split.error)
    else if r.after.Err? then Some(r.after.error)
    else if |r.after.value.panes| <= |held.panes| then Some(NO_USABLE_PANE)
    else None
  }

  /** Some pane of the layout can be chosen. */
  predicate HasTarget(layout: TabLayout, paneCount: nat) {
    if paneCount <= 1 then layout.panes != [] else exists p :: p in layout.panes && p.rect.height == layout.area.height
  }

  /** The error is that of the first answer that failed, or that there is nothing to split, or nothing new. */
  lemma FailureIff(held: TabLayout, r: Round, e: string)
    ensures Failure(held, r) == Some(e) <==>
      || r.before == Err(e)
      || (r.before.Ok? && var found := HasTarget(r.before.value, |held.panes|);
            || (!found && e == NO_USABLE_PANE)
            || (found && r.split == Err(e))
            || (found && r.split.Ok? && r.after == Err(e))
            || (found && r.split.Ok? && r.after.Ok? && |r.after.value.panes| <= |held.panes| && e == NO_USABLE_PANE))
  {
  }

  /** Round `k` commanded a split of `target`. */
  predicate Commands(first: TabLayout, answers: nat -> Round, k: nat, target: SplitTarget) {
    var r := answers(k);
    r.before.Ok? && NextSplitTarget(r.before.value, |Held(first, answers, k).panes|) == Ok(target)
  }

  /** The loop goes through `n` rounds that each add a pane. */
  ghost predicate Through(first: TabLayout, answers: nat -> Round, n: nat) {
    forall k {:trigger Grows(first, answers, k)} :: 0 <= k < n ==> Grows(first, answers, k)
  }

  ghost predicate AllCommanded(first: TabLayout, answers: nat -> Round, splits: seq<SplitTarget>) {
    forall k {:trigger splits[k]} :: 0 <= k < |splits| ==> Commands(first, answers, k, splits[k])
  }

  /** Whatever the terminal answers, the loop ends after at most one round per missing pane:
    * either the tab has its four panes and the slots are read off it, or round `n` failed. */
  method EnsureOperationTab(first: TabLayout, answers: nat -> Round)
    returns (r: Result<OperationPanes, string>, splits: seq<SplitTarget>, n: nat)
    ensures Through(first, answers, n) && n <= if |first.panes| < 4 then 4 - |first.panes| else 0
    ensures r.Ok? <==> |Held(first, answers, n).panes| >= OPERATION_TAB_SLOTS
    ensures r.Ok? ==> OperationSlotPanes(Held(first, answers, n)) == Some(r.value) && |splits| == n
    ensures r.Err? ==> Failure(Held(first, answers, n), answers(n)) == Some(r.error) && n <= |splits| <= n + 1
    ensures AllCommanded(first, answers, splits)
  {
    var layout := first;
    n, splits := 0, [];
    while |layout.panes| < OPERATION_TAB_SLOTS
      invariant layout == Held(first, answers, n) && |splits| == n
      invariant |first.panes| + n <= |layout.panes|
      invariant n == 0 || |first.panes| + n <= 4
      invariant Through(first, answers, n)
      invariant AllCommanded(first, answers, splits)
      decreases OPERATION_TAB_SLOTS - |layout.panes|
    {
      var round := answers(n);
      if round.before.Err? { return Err(round.before.error), splits, n; }
      var target := NextSplitTarget(round.before.value, |layout.panes|);
      if target.Err? { return Err(target.error), splits, n; }
      splits := splits + [target.value];
      assert Commands(first, answers, n, splits[n]);
      if round.split.Err? { return Err(round.split.error), splits, n; }
      if round.after.Err? { return Err(round.after.error), splits, n; }
      if |round.after.value.panes| <= |layout.panes| { return Err(NO_USABLE_PANE), splits, n; }
      assert Grows(first, answers, n);
      layout, n := round.after.value, n + 1;
    }
    var slots := OperationSlotPanes(layout);
    r := match slots case Some(p) => Ok(p) case None => Err(NO_USABLE_PANE);
  }

  // ---------- against an honest terminal ----------

  function Ids(panes: seq<LayoutPane>): (ids: set<PaneId>) {
    set k | 0 <= k < |panes| :: panes[k].paneId
  }

  lemma {:induction false} DistinctIdsCount(panes: seq<LayoutPane>)
    requires forall j, k :: 0 <= j < k < |panes| ==> panes[j].paneId != panes[k].paneId
    ensures |Ids(panes)| == |panes|
  {
    if panes != [] {
      var front := panes[..|panes| - 1];
      DistinctIdsCount(front);
      assert Ids(panes) == Ids(front) + {panes[|panes| - 1].paneId};
    }
  }

  lemma ListedCount(layout: TabLayout, tab: Tab, area: Rect)
    requires Lists(layout, tab, area)
    ensures |layout.panes| == |tab|
  {
    DistinctIdsCount(layout.panes);
    forall id ensures id in Ids(layout.panes) <==> id in tab.Keys {
      if id in Ids(layout.panes) {
        var k :| 0 <= k < |layout.panes| && layout.panes[k].paneId == id;
        assert Shows(layout.panes[k], tab);
      }
      if id in tab { assert ListedAt(layout.panes, id); }
    }
    assert Ids(layout.panes) == tab.Keys;
    assert |tab| == |tab.Keys|;
  }

  lemma BuildCount(b: Build, area: Rect)
    requires Fits(b, area)
    ensures |Panes(b, area)| == Count(b)
    decreases Count(b)
  {
  }

  predicate Splittable(r: Rect, direction: Direction) {
    if direction == Right then r.width >= 2 else r.height >= 2
  }

  /** The terminal lists the tab it has; a splittable pane it is told to split it cuts in two,
    * where it likes and under an unused id; then it lists the result. */
  ghost predicate Honest(tab: Tab, next: Tab, area: Rect, r: Round, cut: nat, newId: PaneId) {
    && r.before.Ok? && Lists(r.before.value, tab, area) && newId !in tab
    && var target := NextSplitTarget(r.before.value, |tab|);
      (target.Ok? && target.value.paneId in tab && Splittable(tab[target.value.paneId], target.value.direction) ==>
        && CanCut(tab[target.value.paneId], target.value.direction, cut)
        && next == Split(tab, target.value, cut, newId)
        && r.split.Ok? && r.after.Ok? && Lists(r.after.value, next, area))
  }

  lemma HonestRoundGrows(b: Build, next: Tab, area: Rect, r: Round, cut: nat, newId: PaneId)
    returns (b': Build)
    requires Fits(b, area) && !b.Four? && Honest(Panes(b, area), next, area, r, cut, newId)
    ensures Fits(b', area) && Count(b') == Count(b) + 1 && next == Panes(b', area)
    ensures NextSplitTarget(r.before.value, Count(b)).Ok? && r.split.Ok? && r.after.Ok?
    ensures Lists(r.after.value, next, area) && |r.after.value.panes| == Count(b')
  {
    BuildCount(b, area);
    NextSplitGrows(b, area, r.before.value);
    var target := NextSplitTarget(r.before.value, Count(b)).value;
    b' := Grown(b, target.paneId, cut, newId);
    ListedCount(r.after.value, next, area);
    BuildCount(b', area);
  }

  ghost predicate HonestAt(area: Rect, answers: nat -> Round, tabs: nat -> Tab, cuts: nat -> nat, ids: nat -> PaneId,
                           k: nat) {
    Honest(tabs(k), tabs(k + 1), area, answers(k), cuts(k), ids(k))
  }

  ghost predicate HonestRun(area: Rect, answers: nat -> Round, tabs: nat -> Tab, cuts: nat -> nat, ids: nat -> PaneId,
                            n: nat) {
    forall k {:trigger HonestAt(area, answers, tabs, cuts, ids, k)} :: 0 <= k < n ==>
        HonestAt(area, answers, tabs, cuts, ids, k)
  }

  /** The tab is at stage `b` and the loop holds a listing of it. */
  ghost predicate At(b: Build, area: Rect, tab: Tab, held: TabLayout) {
    Fits(b, area) && tab == Panes(b, area) && Lists(held, tab, area) && |held.panes| == Count(b)
  }

  lemma HonestRoundKeepsStage(b: Build, area: Rect, first: TabLayout, answers: nat -> Round,
                              tabs: nat -> Tab, cuts: nat -> nat, ids: nat -> PaneId, n: nat, k: nat)
    returns (b': Build)
    requires At(b, area, tabs(k), Held(first, answers, k)) && !b.Four?
    requires HonestRun(area, answers, tabs, cuts, ids, n) && k < n
    ensures Grows(first, answers, k)
    ensures At(b', area, tabs(k + 1), Held(first, answers, k + 1)) && Count(b') == Count(b) + 1
  {
    assert HonestAt(area, answers, tabs, cuts, ids, k);
    b' := HonestRoundGrows(b, tabs(k + 1), area, answers(k), cuts(k), ids(k));
  }

  /** From any stage of a tab of at least 2x2, over any run with an honest terminal, no round
    * fails and each makes the next stage, up to the full grid. By `GridTiles` the panes are an
    * exact disjoint tiling of the area at every stage. */
  lemma {:induction false} HonestRunBuildsGrid(b: Build, area: Rect, first: TabLayout, answers: nat -> Round,
                                               tabs: nat -> Tab, cuts: nat -> nat, ids: nat -> PaneId, n: nat)
    returns (b': Build)
    requires At(b, area, tabs(0), first) && HonestRun(area, answers, tabs, cuts, ids, n)
    requires n <= 4 - Count(b)
    ensures Through(first, answers, n)
    ensures At(b', area, tabs(n), Held(first, answers, n)) && Count(b') == Count(b) + n
  {
    if n == 0 {
      b' := b;
    } else {
      var was := HonestRunBuildsGrid(b, area, first, answers, tabs, cuts, ids, n - 1);
      b' := HonestRoundKeepsStage(was, area, first, answers, tabs, cuts, ids, n, n - 1);
      ThroughOneMore(first, answers, n);
    }
  }

  lemma ThroughOneMore(first: TabLayout, answers: nat -> Round, n: nat)
    requires n > 0 && Through(first, answers, n - 1) && Grows(first, answers, n - 1)
    ensures Through(first, answers, n)
  {
  }

  lemma FirstStage(b: Build, area: Rect, tab: Tab, first: TabLayout)
    requires Fits(b, area) && tab == Panes(b, area) && Lists(first, tab, area)
    ensures At(b, area, tab, first)
  {
    ListedCount(first, tab, area);
    BuildCount(b, area);
  }

  /** So the slots the code hands out on such a run are the corners of the grid. */
  lemma HonestRunSlots(b: Build, area: Rect, first: TabLayout, answers: nat -> Round,
                       tabs: nat -> Tab, cuts: nat -> nat, ids: nat -> PaneId)
    returns (grid: Build)
    requires Fits(b, area) && tabs(0) == Panes(b, area) && Lists(first, tabs(0), area)
    requires HonestRun(area, answers, tabs, cuts, ids, 4 - Count(b))
    ensures var n := 4 - Count(b);
      && Through(first, answers, n) && grid.Four? && Fits(grid, area) && tabs(n) == Panes(grid, area)
      && OperationSlotPanes(Held(first, answers, n)) == Some(
           if grid.left <= grid.right then
             OperationPanes(grid.topLeft, grid.topRight, grid.bottomLeft, grid.bottomRight)
           else OperationPanes(grid.topLeft, grid.topRight, grid.bottomRight, grid.bottomLeft))
  {
    FirstStage(b, area, tabs(0), first);
    grid := HonestRunBuildsGrid(b, area, first, answers, tabs, cuts, ids, 4 - Count(b));
    GridSlots(grid, area, Held(first, answers, 4 - Count(b)));
  }

  /** What the loop must answer is settled by the terminal's answers: no second reading of
    * `EnsureOperationTab`'s contract gives another result on a run that fills the tab. */
  lemma FilledRunHasOneEnd(first: TabLayout, answers: nat -> Round, n: nat, m: nat)
    requires Through(first, answers, n) && Through(first, answers, m)
    requires |Held(first, answers, n).panes| >= OPERATION_TAB_SLOTS
    requires |Held(first, answers, m).panes| >= OPERATION_TAB_SLOTS ||
             Failure(Held(first, answers, m), answers(m)).Some?
    ensures n == m
  {
    if n < m { ThroughIsUnfinished(first, answers, m, n); }
    if m < n { ThroughIsUnfinished(first, answers, n, m); }
  }

  lemma ThroughIsUnfinished(first: TabLayout, answers: nat -> Round, n: nat, k: nat)
    requires Through(first, answers, n) && k < n
    ensures |Held(first, answers, k).panes| < OPERATION_TAB_SLOTS
    ensures Failure(Held(first, answers, k), answers(k)).None?
  {
    assert Grows(first, answers, k);
  }
}
