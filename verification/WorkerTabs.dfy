/** How the dashboard numbers and fills its worker tabs (herdr-dashboard/src/layout.rs). */
module WorkerTabs {
  import opened Wrappers
  import Decimal

  const PANES_PER_WORKERS_TAB := 4
  const WORKERS_TAB_PREFIX := "fg:workers-"
  const OPERATION_TAB := "fg:operation"
  const U32_LIMIT := 0x1_0000_0000

  datatype TabRow = TabRow(tabId: string, title: Option<string>, paneCount: nat)

  function WorkersTabIndex(title: string): Option<nat> {
    if WORKERS_TAB_PREFIX <= title then Decimal.Parse(title[|WORKERS_TAB_PREFIX|..], U32_LIMIT) else None
  }

  function RenderTitle(index: nat): string {
    WORKERS_TAB_PREFIX + Decimal.Render(index)
  }

  /** The index read from a rendered title is the number rendered, for every 32-bit number. */
  lemma TitleRoundTrip(index: nat)
    ensures WorkersTabIndex(RenderTitle(index)) == if index < U32_LIMIT then Some(index) else None
  {
    Decimal.ParseAfterRender(index, U32_LIMIT);
    assert RenderTitle(index)[|WORKERS_TAB_PREFIX|..] == Decimal.Render(index);
  }

  function IndexOf(tab: TabRow): Option<nat> {
    if tab.title.None? then None else WorkersTabIndex(tab.title.value)
  }

  /** The titles of worker tabs: the prefix, an optional plus sign, any zeros, and a 32-bit number. */
  ghost predicate TitledAs(title: string, index: nat) {
    index < 0x1_0000_0000 && exists sign, zeros :: SpelledAs(title, sign, zeros, index)
  }

  predicate SpelledAs(title: string, sign: string, zeros: string, index: nat) {
    && (sign == "" || sign == "+") && (forall k :: 0 <= k < |zeros| ==> zeros[k] == '0')
    && title == "fg:workers-" + (sign + (zeros + Decimal.Render(index)))
  }

  lemma IndexIff(tab: TabRow, index: nat)
    ensures IndexOf(tab) == Some(index) <==> tab.title.Some? && TitledAs(tab.title.value, index)
  {
    if tab.title.Some? { TitleIff(tab.title.value, index); }
  }

  lemma TitleIff(title: string, index: nat)
    ensures WorkersTabIndex(title) == Some(index) <==> TitledAs(title, index)
  {
    if WorkersTabIndex(title) == Some(index) {
      var rest := title[|WORKERS_TAB_PREFIX|..];
      assert title == WORKERS_TAB_PREFIX + rest;
      var sign, zeros := Decimal.ReadIsSpelled(rest, U32_LIMIT, index);
      assert SpelledAs(title, sign, zeros, index);
    }
    if TitledAs(title, index) {
      var sign, zeros :| SpelledAs(title, sign, zeros, index);
      var rest := title[|WORKERS_TAB_PREFIX|..];
      assert rest == sign + (zeros + Decimal.Render(index));
      Decimal.SpelledIsRead(rest, sign, zeros, U32_LIMIT, index);
    }
  }

  // ---------- placement ----------

  datatype Indexed = Indexed(index: nat, tab: TabRow)

  ghost predicate Sorted(tabs: seq<Indexed>) {
    forall i, j :: 0 <= i < j < |tabs| ==> tabs[i].index <= tabs[j].index
  }

  function Insert(t: Indexed, tabs: seq<Indexed>): (r: seq<Indexed>)
    requires Sorted(tabs)
    ensures Sorted(r) && forall u :: u in r <==> u == t || u in tabs
  {
    if tabs == [] || t.index < tabs[0].index then [t] + tabs
    else
      var rest := Insert(t, tabs[1..]);
      assert rest[0] in rest;
      assert tabs == [tabs[0]] + tabs[1..];
      assert forall u :: u in rest ==> tabs[0].index <= u.index;
      assert forall k :: 0 <= k < |rest| ==> rest[k] in rest;
      [tabs[0]] + rest
  }

  function Indexes(listing: seq<TabRow>): (r: seq<Option<nat>>)
    ensures |r| == |listing| && forall k {:trigger r[k]} :: 0 <= k < |listing| ==> r[k] == IndexOf(listing[k])
  {
    seq(|listing|, k requires 0 <= k < |listing| => IndexOf(listing[k]))
  }

  ghost predicate Has(listing: seq<TabRow>, ix: seq<Option<nat>>, k: nat, t: Indexed) {
    k < |listing| && k < |ix| && listing[k] == t.tab && ix[k] == Some(t.index)
  }

  ghost predicate Collects(tabs: seq<Indexed>, listing: seq<TabRow>, ix: seq<Option<nat>>) {
    forall t :: t in tabs <==> exists k: nat :: Has(listing, ix, k, t)
  }

  function SortedBy(listing: seq<TabRow>, ix: seq<Option<nat>>): (r: seq<Indexed>)
    requires |ix| == |listing|
    ensures Sorted(r) && Collects(r, listing, ix)
  {
    if listing == [] then []
    else
      var n := |listing| - 1;
      var rest := SortedBy(listing[..n], ix[..n]);
      assert forall k: nat, t: Indexed :: Has(listing, ix, k, t) <==>
             Has(listing[..n], ix[..n], k, t) || (k == n && listing[n] == t.tab && ix[n] == Some(t.index));
      if ix[n].None? then rest else
      assert Has(listing, ix, n, Indexed(ix[n].value, listing[n]));
      Insert(Indexed(ix[n].value, listing[n]), rest)
  }

  /** The worker tabs of a listing by index; tabs with equal indexes keep the order of the listing. */
  function SortedWorkerTabs(listing: seq<TabRow>): (r: seq<Indexed>)
    ensures Sorted(r)
    ensures forall t :: t in r <==> t.tab in listing && IndexOf(t.tab) == Some(t.index)
  {
    var ix := Indexes(listing);
    var r := SortedBy(listing, ix);
    CollectsBy(r, listing, ix, IndexOf);
    r
  }

  lemma CollectsBy(tabs: seq<Indexed>, listing: seq<TabRow>, ix: seq<Option<nat>>, index: TabRow -> Option<nat>)
    requires |ix| == |listing| && Collects(tabs, listing, ix)
    requires forall k {:trigger ix[k]} :: 0 <= k < |listing| ==> ix[k] == index(listing[k])
    ensures forall t :: t in tabs <==> t.tab in listing && index(t.tab) == Some(t.index)
  {
    forall t: Indexed | t.tab in listing && index(t.tab) == Some(t.index) ensures t in tabs {
      var k: nat :| k < |listing| && listing[k] == t.tab;
      assert Has(listing, ix, k, t);
    }
  }

  /** `Overflow`: the last index is the largest 32-bit number, so there is no next one. */
  datatype Placement = ExistingTabWithRoom(tab: TabRow) | CreateNextTab(index: nat) | Overflow

  function FirstWithRoom(tabs: seq<Indexed>): (r: Option<Indexed>)
    ensures r.None? <==> forall t :: t in tabs ==> t.tab.paneCount >= PANES_PER_WORKERS_TAB
    ensures r.Some? ==> r.value in tabs && r.value.tab.paneCount < PANES_PER_WORKERS_TAB
  {
    if tabs == [] then None
    else if tabs[0].tab.paneCount < PANES_PER_WORKERS_TAB then Some(tabs[0])
    else FirstWithRoom(tabs[1..])
  }

  function DecideWorkersTabPlacement(tabs: seq<Indexed>): Placement {
    var room := FirstWithRoom(tabs);
    if room.Some? then ExistingTabWithRoom(room.value.tab)
    else if tabs == [] then CreateNextTab(1)
    else if tabs[|tabs| - 1].index + 1 < U32_LIMIT then CreateNextTab(tabs[|tabs| - 1].index + 1)
    else Overflow
  }

  // ---------- the placement over the listing ----------

  /** Tab `k` of the listing is a worker tab with room; `ix` are the indexes of the tabs, if any. */
  predicate RoomAt(listing: seq<TabRow>, ix: seq<Option<nat>>, k: nat) {
    k < |listing| && k < |ix| && ix[k].Some? && listing[k].paneCount < 4
  }

  /** Of the worker tabs with room, tab `k` has the least index, and is listed first among those with that index. */
  ghost predicate FirstRoomAt(listing: seq<TabRow>, ix: seq<Option<nat>>, k: nat) {
    && RoomAt(listing, ix, k)
    && forall j: nat {:trigger RoomAt(listing, ix, j)} :: RoomAt(listing, ix, j) ==>
         ix[k].value < ix[j].value || (ix[k] == ix[j] && k <= j)
  }

  ghost predicate Finds(listing: seq<TabRow>, ix: seq<Option<nat>>, r: Option<Indexed>) {
    if r.Some? then exists k: nat :: FirstRoomAt(listing, ix, k) && Has(listing, ix, k, r.value)
    else forall k: nat :: !RoomAt(listing, ix, k)
  }

  lemma {:induction false} InsertRoom(t: Indexed, tabs: seq<Indexed>)
    requires Sorted(tabs)
    ensures var was := FirstWithRoom(tabs);
      FirstWithRoom(Insert(t, tabs)) ==
      if t.tab.paneCount >= 4 || (was.Some? && was.value.index <= t.index) then was else Some(t)
  {
    if tabs != [] {
      assert tabs[0] in tabs;
      if t.index >= tabs[0].index { InsertRoom(t, tabs[1..]); }
    }
  }

  lemma {:induction false} FirstRoomIsFound(listing: seq<TabRow>, ix: seq<Option<nat>>)
    requires |ix| == |listing|
    ensures Finds(listing, ix, FirstWithRoom(SortedBy(listing, ix)))
  {
    if listing != [] {
      var n := |listing| - 1;
      var front, before := listing[..n], ix[..n];
      FirstRoomIsFound(front, before);
      FindsOneMore(listing, ix, FirstWithRoom(SortedBy(front, before)));
      if ix[n].Some? { InsertRoom(Indexed(ix[n].value, listing[n]), SortedBy(front, before)); }
    }
  }

  lemma FindsOneMore(listing: seq<TabRow>, ix: seq<Option<nat>>, r: Option<Indexed>)
    requires listing != [] && |ix| == |listing|
    requires var n := |listing| - 1; Finds(listing[..n], ix[..n], r)
    ensures var n := |listing| - 1;
      Finds(listing, ix, if ix[n].None? || listing[n].paneCount >= 4 || (r.Some? && r.value.index <= ix[n].value) then r
                         else Some(Indexed(ix[n].value, listing[n])))
  {
    var n := |listing| - 1;
    var front, before := listing[..n], ix[..n];
    assert forall k: nat {:trigger RoomAt(listing, ix, k)} {:trigger RoomAt(front, before, k)} ::
        RoomAt(listing, ix, k) <==> RoomAt(front, before, k) || (k == n && ix[n].Some? && listing[n].paneCount < 4);
    if ix[n].None? || listing[n].paneCount >= 4 || (r.Some? && r.value.index <= ix[n].value) {
      if r.Some? {
        var k: nat :| FirstRoomAt(front, before, k) && Has(front, before, k, r.value);
        assert FirstRoomAt(listing, ix, k) && Has(listing, ix, k, r.value);
      }
    } else {
      assert FirstRoomAt(listing, ix, n) && Has(listing, ix, n, Indexed(ix[n].value, listing[n]));
    }
  }

  /** A pane goes to the worker tab with room that has the least index, the one listed first if several have it. */
  lemma PlacedInRoomIff(listing: seq<TabRow>, tab: TabRow)
    ensures DecideWorkersTabPlacement(SortedWorkerTabs(listing)) == ExistingTabWithRoom(tab) <==>
            exists k: nat :: FirstRoomAt(listing, Indexes(listing), k) && listing[k] == tab
  {
    RoomDecides(listing, Indexes(listing), tab);
  }

  lemma RoomDecides(listing: seq<TabRow>, ix: seq<Option<nat>>, tab: TabRow)
    requires |ix| == |listing|
    ensures DecideWorkersTabPlacement(SortedBy(listing, ix)) == ExistingTabWithRoom(tab) <==>
            exists k: nat :: FirstRoomAt(listing, ix, k) && listing[k] == tab
  {
    FirstRoomIsFound(listing, ix);
  }

  ghost predicate SomeNumbered(ix: seq<Option<nat>>, index: int) {
    index >= 0 && exists k :: 0 <= k < |ix| && ix[k] == Some(index)
  }

  /** Only without such a tab is one created, with the index after the largest there is, or with one. */
  lemma CreatesNextIff(listing: seq<TabRow>, index: nat)
    ensures var ix := Indexes(listing);
      DecideWorkersTabPlacement(SortedWorkerTabs(listing)) == CreateNextTab(index) <==>
      && (forall k: nat :: !RoomAt(listing, ix, k))
      && 1 <= index < 0x1_0000_0000 && (index == 1 || SomeNumbered(ix, index - 1))
      && forall i: nat :: SomeNumbered(ix, i) ==> i < index
  {
    var ix := Indexes(listing);
    FirstRoomIsFound(listing, ix);
    NoRoomDecides(SortedBy(listing, ix), listing, ix, index);
  }

  lemma NoRoomDecides(tabs: seq<Indexed>, listing: seq<TabRow>, ix: seq<Option<nat>>, index: nat)
    requires |ix| == |listing| && Sorted(tabs) && Collects(tabs, listing, ix)
    requires Finds(listing, ix, FirstWithRoom(tabs))
    ensures DecideWorkersTabPlacement(tabs) == CreateNextTab(index) <==>
      && (forall k: nat :: !RoomAt(listing, ix, k))
      && 1 <= index < 0x1_0000_0000 && (index == 1 || SomeNumbered(ix, index - 1))
      && forall i: nat :: SomeNumbered(ix, i) ==> i < index
  {
    LastIsLargest(tabs, listing, ix);
  }

  lemma LastIsLargest(tabs: seq<Indexed>, listing: seq<TabRow>, ix: seq<Option<nat>>)
    requires |ix| == |listing| && Sorted(tabs) && Collects(tabs, listing, ix)
    ensures if tabs == [] then forall i: nat :: !SomeNumbered(ix, i)
            else SomeNumbered(ix, tabs[|tabs| - 1].index) &&
                 forall i: nat :: SomeNumbered(ix, i) ==> i <= tabs[|tabs| - 1].index
  {
    forall i: nat | SomeNumbered(ix, i) ensures tabs != [] && i <= tabs[|tabs| - 1].index {
      var k :| 0 <= k < |ix| && ix[k] == Some(i);
      assert Has(listing, ix, k, Indexed(i, listing[k]));
      assert Indexed(i, listing[k]) in tabs;
    }
    if tabs != [] {
      var top := tabs[|tabs| - 1];
      assert top in tabs;
      var k: nat :| Has(listing, ix, k, top);
    }
  }

  /** A pane is placed only in a listed worker tab with room. */
  lemma PlacesInWorkerTab(listing: seq<TabRow>)
    ensures var placed := DecideWorkersTabPlacement(SortedWorkerTabs(listing));
      placed.ExistingTabWithRoom? ==>
        placed.tab in listing && IndexOf(placed.tab).Some? && placed.tab.paneCount < PANES_PER_WORKERS_TAB
  {
  }

  // ---------- runs in which only the dashboard opens panes and none closes ----------

  /** The tabs of a workspace by tab id. */
  type Workspace = map<string, TabRow>

  ghost predicate IsListing(w: Workspace, listing: seq<TabRow>) {
    && (forall row :: row in listing ==> row.tabId in w && w[row.tabId] == row)
    && (forall id :: id in w ==> w[id].tabId == id && w[id] in listing)
  }

  /** One new pane is needed: the tabs are listed in some order, a tab is chosen or created, and a pane
    * of it is split. `newId` is the id of a created tab; the split may fail after that. */
  datatype Placing = Placing(listing: seq<TabRow>, newId: string, splits: bool)

  function PlaceBy(w: Workspace, placement: Placement, newId: string, splits: bool): Workspace {
    var more := if splits then 1 else 0;
    match placement
    case ExistingTabWithRoom(tab) => w[tab.tabId := tab.(paneCount := tab.paneCount + more)]
    case CreateNextTab(index) => w[newId := TabRow(newId, Some(RenderTitle(index)), 1 + more)]
    case Overflow => w
  }

  function Place(w: Workspace, p: Placing): Workspace {
    PlaceBy(w, DecideWorkersTabPlacement(SortedWorkerTabs(p.listing)), p.newId, p.splits)
  }

  ghost predicate ValidPlacing(w: Workspace, p: Placing) {
    IsListing(w, p.listing) && p.newId !in w
  }

  /** A tab as far as its numbering goes. */
  datatype Numbered = Numbered(index: Option<nat>, paneCount: nat)

  ghost function View(w: Workspace): map<string, Numbered> {
    map id | id in w :: Numbered(IndexOf(w[id]), w[id].paneCount)
  }

  /** Tab `id` is numbered `index`. */
  ghost predicate Holds(v: map<string, Numbered>, index: nat, id: string) {
    id in v && v[id].index == Some(index)
  }

  ghost predicate Taken(v: map<string, Numbered>, index: nat) {
    exists id :: Holds(v, index, id)
  }

  /** The worker tabs are numbered exactly 1..n; all but the last are full and none is over-full. */
  ghost predicate NumberedTo(v: map<string, Numbered>, n: nat) {
    && (forall index: nat :: 1 <= index <= n ==> Taken(v, index))
    && (forall index: nat, id :: Holds(v, index, id) ==>
                                   && 1 <= index <= n
                                   && v[id].paneCount <= PANES_PER_WORKERS_TAB
                                   && (index < n ==> v[id].paneCount == PANES_PER_WORKERS_TAB))
    && (forall index: nat, a, b :: Holds(v, index, a) && Holds(v, index, b) ==> a == b)
  }

  lemma FillingKeepsNumbering(v: map<string, Numbered>, id: string, count: nat, n: nat)
    requires NumberedTo(v, n) && Holds(v, n, id) && count <= PANES_PER_WORKERS_TAB
    ensures NumberedTo(v[id := v[id].(paneCount := count)], n)
  {
    var after := v[id := v[id].(paneCount := count)];
    assert forall index: nat, other :: Holds(after, index, other) <==> Holds(v, index, other);
    forall index: nat | 1 <= index <= n ensures Taken(after, index) {
      assert Taken(v, index);
      var other :| Holds(v, index, other);
      assert Holds(after, index, other);
    }
  }

  lemma AddingKeepsNumbering(v: map<string, Numbered>, id: string, count: nat, n: nat)
    requires NumberedTo(v, n) && id !in v && count <= PANES_PER_WORKERS_TAB
    requires forall other :: Holds(v, n, other) ==> v[other].paneCount == PANES_PER_WORKERS_TAB
    ensures NumberedTo(v[id := Numbered(Some(n + 1), count)], n + 1)
  {
    var after := v[id := Numbered(Some(n + 1), count)];
    assert forall index: nat, other :: Holds(after, index, other) <==>
           Holds(v, index, other) || (index == n + 1 && other == id);
    forall index: nat | 1 <= index <= n + 1 ensures Taken(after, index) {
      if index <= n {
        assert Taken(v, index);
        var other :| Holds(v, index, other);
        assert Holds(after, index, other);
      } else {
        assert Holds(after, index, id);
      }
    }
  }

  lemma SortedAreHeld(w: Workspace, listing: seq<TabRow>)
    requires IsListing(w, listing)
    ensures forall t :: t in SortedWorkerTabs(listing) <==>
            Holds(View(w), t.index, t.tab.tabId) && w[t.tab.tabId] == t.tab
  {
  }

  lemma TopIsListed(w: Workspace, listing: seq<TabRow>, n: nat)
    requires IsListing(w, listing) && NumberedTo(View(w), n)
    ensures var tabs := SortedWorkerTabs(listing); if n == 0 then tabs == [] else exists t :: t in tabs && t.index == n
    ensures forall t :: t in SortedWorkerTabs(listing) ==> t.index <= n
  {
    var tabs := SortedWorkerTabs(listing);
    SortedAreHeld(w, listing);
    forall t | t in tabs ensures 1 <= t.index <= n {
      assert Holds(View(w), t.index, t.tab.tabId);
    }
    assert tabs != [] ==> tabs[0] in tabs;
    if n > 0 {
      assert Taken(View(w), n);
      var id :| Holds(View(w), n, id);
      assert Indexed(n, w[id]) in tabs;
    }
  }

  lemma LastIsTop(tabs: seq<Indexed>, n: nat)
    requires Sorted(tabs) && (forall t :: t in tabs ==> t.index <= n) && exists t :: t in tabs && t.index == n
    ensures tabs != [] && tabs[|tabs| - 1].index == n
  {
  }

  /** A tab with room is tab n. */
  lemma RoomIsAtTop(w: Workspace, listing: seq<TabRow>, n: nat)
    requires IsListing(w, listing) && NumberedTo(View(w), n) && FirstWithRoom(SortedWorkerTabs(listing)).Some?
    ensures var tab := FirstWithRoom(SortedWorkerTabs(listing)).value.tab;
            tab.tabId in w && w[tab.tabId] == tab && Holds(View(w), n, tab.tabId)
  {
    var tabs := SortedWorkerTabs(listing);
    SortedAreHeld(w, listing);
    var t := FirstWithRoom(tabs).value;
    HeldWithRoomIsTop(View(w), t.index, t.tab.tabId, n);
  }

  lemma HeldWithRoomIsTop(v: map<string, Numbered>, index: nat, id: string, n: nat)
    requires NumberedTo(v, n) && Holds(v, index, id) && v[id].paneCount < PANES_PER_WORKERS_TAB
    ensures index == n
  {
  }

  /** Without room tab n is full, and the next tab is n + 1. */
  lemma NoRoomAddsNext(w: Workspace, listing: seq<TabRow>, n: nat)
    requires IsListing(w, listing) && NumberedTo(View(w), n) && FirstWithRoom(SortedWorkerTabs(listing)).None?
    ensures forall id :: Holds(View(w), n, id) ==> View(w)[id].paneCount == PANES_PER_WORKERS_TAB
    ensures DecideWorkersTabPlacement(SortedWorkerTabs(listing)) == if n + 1 < U32_LIMIT then CreateNextTab(n + 1)
            else Overflow
  {
    var tabs := SortedWorkerTabs(listing);
    TopIsListed(w, listing, n);
    if n > 0 {
      LastIsTop(tabs, n);
    }
    forall id | Holds(View(w), n, id) ensures View(w)[id].paneCount == PANES_PER_WORKERS_TAB {
      SortedAreHeld(w, listing);
      assert Indexed(n, w[id]) in tabs;
    }
  }

  lemma ViewOfPut(w: Workspace, id: string, tab: TabRow)
    ensures View(w[id := tab]) == View(w)[id := Numbered(IndexOf(tab), tab.paneCount)]
  {
  }

  lemma ViewOfFill(w: Workspace, id: string, count: nat)
    requires id in w
    ensures View(w[id := w[id].(paneCount := count)]) == View(w)[id := View(w)[id].(paneCount := count)]
  {
  }

  lemma PlaceIntoRoom(w: Workspace, tab: TabRow, newId: string, splits: bool, n: nat)
    requires NumberedTo(View(w), n) && Holds(View(w), n, tab.tabId) && w[tab.tabId] == tab
    requires tab.paneCount < PANES_PER_WORKERS_TAB
    ensures NumberedTo(View(PlaceBy(w, ExistingTabWithRoom(tab), newId, splits)), n)
  {
    var count := tab.paneCount + if splits then 1 else 0;
    FillingKeepsNumbering(View(w), tab.tabId, count, n);
    ViewOfFill(w, tab.tabId, count);
  }

  lemma PlaceIntoNew(w: Workspace, newId: string, splits: bool, n: nat)
    requires NumberedTo(View(w), n) && newId !in w && n + 1 < U32_LIMIT
    requires forall id :: Holds(View(w), n, id) ==> View(w)[id].paneCount == PANES_PER_WORKERS_TAB
    ensures NumberedTo(View(PlaceBy(w, CreateNextTab(n + 1), newId, splits)), n + 1)
  {
    var tab := TabRow(newId, Some(RenderTitle(n + 1)), 1 + if splits then 1 else 0);
    AddingKeepsNumbering(View(w), newId, tab.paneCount, n);
    ViewOfPut(w, newId, tab);
    assert IndexOf(tab) == Some(n + 1) by {
      TitleRoundTrip(n + 1);
    }
  }

  /** Placing one pane keeps the numbering. */
  lemma PlaceKeepsNumbering(w: Workspace, p: Placing, n: nat)
    requires ValidPlacing(w, p) && NumberedTo(View(w), n)
    ensures NumberedTo(View(Place(w, p)), n) || NumberedTo(View(Place(w, p)), n + 1)
  {
    if FirstWithRoom(SortedWorkerTabs(p.listing)).Some? {
      RoomIsAtTop(w, p.listing, n);
      PlaceIntoRoom(w, FirstWithRoom(SortedWorkerTabs(p.listing)).value.tab, p.newId, p.splits, n);
    } else {
      NoRoomAddsNext(w, p.listing, n);
      if n + 1 < U32_LIMIT {
        PlaceIntoNew(w, p.newId, p.splits, n);
      }
    }
  }

  function PlaceAll(w: Workspace, placings: seq<Placing>): Workspace
    decreases |placings|
  {
    if placings == [] then w else PlaceAll(Place(w, placings[0]), placings[1..])
  }

  ghost predicate ValidRun(w: Workspace, placings: seq<Placing>)
    decreases |placings|
  {
    placings != [] ==> ValidPlacing(w, placings[0]) && ValidRun(Place(w, placings[0]), placings[1..])
  }

  /** After any run the worker tabs are numbered exactly 1..n for some n. */
  lemma {:induction false} RunKeepsNumbering(w: Workspace, placings: seq<Placing>, n: nat) returns (m: nat)
    requires NumberedTo(View(w), n) && ValidRun(w, placings)
    ensures n <= m <= n + |placings| && NumberedTo(View(PlaceAll(w, placings)), m)
    decreases |placings|
  {
    m := n;
    if placings != [] {
      PlaceKeepsNumbering(w, placings[0], n);
      var next := Place(w, placings[0]);
      var k: nat := if NumberedTo(View(next), n) then n else n + 1;
      m := RunKeepsNumbering(next, placings[1..], k);
    }
  }

  /** A workspace without worker tabs is where such runs start. */
  lemma NoWorkerTabsStarts(w: Workspace)
    requires forall id :: id in w ==> IndexOf(w[id]) == None
    ensures NumberedTo(View(w), 0)
  {
  }

  lemma OperationTabHasNoIndex()
    ensures WorkersTabIndex(OPERATION_TAB) == None
  {
    assert !(WORKERS_TAB_PREFIX <= OPERATION_TAB) by {
      assert WORKERS_TAB_PREFIX[3] != OPERATION_TAB[3];
    }
  }
}
