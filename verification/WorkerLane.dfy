/** Which pane a launched worker gets, and how long the dashboard holds that pane as taken
  * (herdr-dashboard/src/layout.rs, app.rs, main.rs and pane_scan.rs). */
module WorkerLane {
  import opened Wrappers
  import WorkItemId
  import WorkerTabs
  import PaneGrid

  type PaneId = string

  datatype PaneSnapshot = PaneSnapshot(paneId: PaneId, tabId: string, title: Option<string>, focused: bool)

  datatype PaneIdentity = PaneIdentity(paneId: PaneId, tabId: string)

  datatype WorkItem = WorkItem(id: string, title: string, status: string, stage: string, blockedBy: seq<string>) {
    predicate InDiscoverStage() { stage == "clarify" || stage == "discovery" || stage == "exploring" }
    predicate DiscoverEligible() { InDiscoverStage() && blockedBy == [] }
  }

  // ---------- task ids of the panes ----------

  function TaskOf(pane: PaneSnapshot): Option<string> {
    if pane.title.None? then None else WorkItemId.ExtractTaskId(pane.title.value)
  }

  /** The title is a valid id outside the reserved names, alone or in front of a separator. */
  predicate TitleNames(pane: PaneSnapshot, id: string) {
    && pane.title.Some? && WorkItemId.IsValidId(id) && !("fgos-auto-" <= id)
    && (pane.title.value == id || id + " | " <= pane.title.value)
  }

  lemma TaskOfIff(pane: PaneSnapshot, id: string)
    ensures TaskOf(pane) == Some(id) <==> TitleNames(pane, id)
  {
    if pane.title.Some? { WorkItemId.ExtractedIdLeadsLabel(pane.title.value, id); }
  }

  function IdentityOf(pane: PaneSnapshot): PaneIdentity { PaneIdentity(pane.paneId, pane.tabId) }

  predicate Names(panes: seq<PaneSnapshot>, k: nat, id: string) { k < |panes| && TaskOf(panes[k]) == Some(id) }

  /** Pane `k` is the last of the listing whose title names `id`. */
  ghost predicate LastNaming(panes: seq<PaneSnapshot>, k: nat, id: string) {
    Names(panes, k, id) && forall j {:trigger Names(panes, j, id)} :: k < j < |panes| ==> !Names(panes, j, id)
  }

  /** `m` sends every id that a title names to the last pane naming it, and no other id anywhere. */
  ghost predicate MapsToLast(m: map<string, PaneIdentity>, panes: seq<PaneSnapshot>) {
    && (forall k, id {:trigger Names(panes, k, id)} :: Names(panes, k, id) ==> id in m)
    && (forall id {:trigger m[id]} :: id in m ==>
         exists k: nat :: LastNaming(panes, k, id) && m[id] == IdentityOf(panes[k]))
  }

  method TaskIdMap(panes: seq<PaneSnapshot>) returns (m: map<string, PaneIdentity>)
    ensures MapsToLast(m, panes)
  {
    m := map[];
    for i := 0 to |panes|
      invariant MapsToLast(m, panes[..i])
    {
      var id := TaskOf(panes[i]);
      ghost var before := m;
      if id.Some? {
        m := m[id.value := IdentityOf(panes[i])];
      }
      MapsOneMore(before, m, panes, i);
    }
    assert panes[..|panes|] == panes;
  }

  lemma MapsOneMore(before: map<string, PaneIdentity>, after: map<string, PaneIdentity>, panes: seq<PaneSnapshot>,
                    i: nat)
    requires i < |panes| && MapsToLast(before, panes[..i])
    requires after == if TaskOf(panes[i]).Some? then before[TaskOf(panes[i]).value := IdentityOf(panes[i])] else before
    ensures MapsToLast(after, panes[..i + 1])
  {
    var shorter, longer := panes[..i], panes[..i + 1];
    forall k: nat, id | Names(longer, k, id) ensures id in after {
      assert k < i ==> Names(shorter, k, id);
    }
    forall id | id in after ensures exists k: nat :: LastNaming(longer, k, id) && after[id] == IdentityOf(longer[k]) {
      if TaskOf(panes[i]) == Some(id) {
        assert LastNaming(longer, i, id);
      } else {
        var k: nat :| LastNaming(shorter, k, id) && before[id] == IdentityOf(shorter[k]);
        StillLast(panes, i, k, id);
      }
    }
  }

  lemma StillLast(panes: seq<PaneSnapshot>, i: nat, k: nat, id: string)
    requires i < |panes| && LastNaming(panes[..i], k, id) && TaskOf(panes[i]) != Some(id)
    ensures LastNaming(panes[..i + 1], k, id)
  {
    var shorter, longer := panes[..i], panes[..i + 1];
    forall j: nat {:trigger Names(longer, j, id)} | k < j < i + 1 ensures !Names(longer, j, id) {
      assert j < i ==> !Names(shorter, j, id);
    }
  }

  // ---------- which pane can be reused ----------

  /** Lexicographic order by character. */
  predicate Leq(a: string, b: string) {
    a == "" || (b != "" && (a[0] < b[0] || (a[0] == b[0] && Leq(a[1..], b[1..]))))
  }

  /** `k` is where the texts first differ, and `a` is smaller there. */
  predicate LessAt(a: string, b: string, k: nat) { k < |a| && k < |b| && a[..k] == b[..k] && a[k] < b[k] }

  /** `a` begins `b`, or is smaller where they first differ. */
  lemma {:induction false} LeqIff(a: string, b: string)
    ensures Leq(a, b) <==> a <= b || exists k: nat :: LessAt(a, b, k)
  {
    if a != "" && b != "" {
      LeqIff(a[1..], b[1..]);
      forall k: nat | k > 0 ensures LessAt(a, b, k) <==> a[0] == b[0] && LessAt(a[1..], b[1..], k - 1) {
        LaterDifference(a, b, k);
      }
      assert LessAt(a, b, 0) <==> a[0] < b[0];
      assert a <= b <==> a[0] == b[0] && a[1..] <= b[1..];
      if k: nat :| LessAt(a[1..], b[1..], k) { assert LessAt(a, b, k + 1) <==> a[0] == b[0]; }
    }
  }

  lemma LaterDifference(a: string, b: string, k: nat)
    requires a != "" && b != "" && k > 0
    ensures LessAt(a, b, k) <==> a[0] == b[0] && LessAt(a[1..], b[1..], k - 1)
  {
    if k < |a| && k < |b| {
      assert a[..k] == [a[0]] + a[1..][..k - 1] && b[..k] == [b[0]] + b[1..][..k - 1];
      assert a[..k][0] == a[0] && a[..k][1..] == a[1..][..k - 1];
      assert b[..k][0] == b[0] && b[..k][1..] == b[1..][..k - 1];
    }
  }

  lemma {:induction false} LeqTotal(a: string, b: string)
    ensures Leq(a, b) || Leq(b, a)
    ensures Leq(a, b) && Leq(b, a) ==> a == b
  {
    if a != "" && b != "" {
      LeqTotal(a[1..], b[1..]);
      assert a == [a[0]] + a[1..] && b == [b[0]] + b[1..];
    }
  }

  lemma {:induction false} LeqTransitive(a: string, b: string, c: string)
    requires Leq(a, b) && Leq(b, c)
    ensures Leq(a, c)
  {
    if a != "" && a[0] == b[0] == c[0] {
      LeqTransitive(a[1..], b[1..], c[1..]);
    }
  }

  /** What the lane decision knows: the worker tabs, the running items, the panes still awaited. */
  datatype LaneView = LaneView(workerTabs: set<string>, doing: set<string>, pending: set<PaneId>)

  predicate Free(pane: PaneSnapshot, view: LaneView) {
    && pane.tabId in view.workerTabs
    && !pane.focused
    && pane.paneId !in view.pending
    && TaskOf(pane).Some? && TaskOf(pane).value !in view.doing
  }

  ghost predicate FreeAt(panes: seq<PaneSnapshot>, k: nat, view: LaneView) { k < |panes| && Free(panes[k], view) }

  /** The free pane with the least id. */
  function ReusableWorkerPane(panes: seq<PaneSnapshot>, view: LaneView): (r: Option<PaneId>)
    ensures r.Some? ==> exists k: nat :: FreeAt(panes, k, view) && panes[k].paneId == r.value
    ensures forall k: nat {:trigger FreeAt(panes, k, view)} ::
              FreeAt(panes, k, view) ==> r.Some? && Leq(r.value, panes[k].paneId)
  {
    if panes == [] then None
    else
      var last := panes[|panes| - 1];
      var front := panes[..|panes| - 1];
      var best := ReusableWorkerPane(front, view);
      assert forall k: nat :: k < |front| ==> (FreeAt(panes, k, view) <==> FreeAt(front, k, view));
      if !Free(last, view) then best
      else if best.None? then LeqTotal(last.paneId, last.paneId); assert FreeAt(panes, |front|, view); Some(last.paneId)
      else
        LeqTotal(best.value, last.paneId);
        assert FreeAt(panes, |front|, view);
        if Leq(best.value, last.paneId) then best
        else
          BelowAll(front, view, last.paneId, best.value);
          LeqTotal(last.paneId, last.paneId);
          Some(last.paneId)
  }

  lemma BelowAll(front: seq<PaneSnapshot>, view: LaneView, low: PaneId, best: PaneId)
    requires Leq(low, best)
    ensures forall k: nat :: FreeAt(front, k, view) && Leq(best, front[k].paneId) ==> Leq(low, front[k].paneId)
  {
    forall k: nat | FreeAt(front, k, view) && Leq(best, front[k].paneId) ensures Leq(low, front[k].paneId) {
      LeqTransitive(low, best, front[k].paneId);
    }
  }

  function WorkerTabIds(tabs: seq<WorkerTabs.TabRow>): (ids: set<string>)
  {
    set k: nat | k < |tabs| && WorkerTabs.IndexOf(tabs[k]).Some? :: tabs[k].tabId
  }

  function Doing(items: seq<WorkItem>): set<string> {
    set k: nat | k < |items| && items[k].status == "doing" :: items[k].id
  }

  // ---------- the same over titles, tab names and statuses ----------

  predicate Running(items: seq<WorkItem>, id: string) {
    exists k: nat :: k < |items| && items[k].id == id && items[k].status == "doing"
  }

  /** The pane's tab is listed with the title of a worker tab. */
  ghost predicate InWorkerTab(pane: PaneSnapshot, tabs: seq<WorkerTabs.TabRow>) {
    exists t: nat, index: nat :: t < |tabs| && tabs[t].tabId == pane.tabId && tabs[t].title.Some?
                                 && WorkerTabs.TitledAs(tabs[t].title.value, index)
  }

  lemma InWorkerTabIff(pane: PaneSnapshot, tabs: seq<WorkerTabs.TabRow>)
    ensures pane.tabId in WorkerTabIds(tabs) <==> InWorkerTab(pane, tabs)
  {
    if pane.tabId in WorkerTabIds(tabs) {
      var t: nat :| t < |tabs| && WorkerTabs.IndexOf(tabs[t]).Some? && tabs[t].tabId == pane.tabId;
      WorkerTabs.IndexIff(tabs[t], WorkerTabs.IndexOf(tabs[t]).value);
    }
    if t: nat, index: nat :| t < |tabs| && tabs[t].tabId == pane.tabId && tabs[t].title.Some?
                             && WorkerTabs.TitledAs(tabs[t].title.value, index) {
      WorkerTabs.IndexIff(tabs[t], index);
    }
  }

  /** A pane of the worker lane nobody looks at, whose title names an item that does not run. */
  ghost predicate Idle(pane: PaneSnapshot, tabs: seq<WorkerTabs.TabRow>, items: seq<WorkItem>) {
    !pane.focused && InWorkerTab(pane, tabs) && exists id :: TitleNames(pane, id) && !Running(items, id)
  }

  lemma FreeIff(pane: PaneSnapshot, tabs: seq<WorkerTabs.TabRow>, items: seq<WorkItem>, pending: set<PaneId>)
    ensures Free(pane, LaneView(WorkerTabIds(tabs), Doing(items), pending)) <==>
            Idle(pane, tabs, items) && pane.paneId !in pending
  {
    InWorkerTabIff(pane, tabs);
    forall id ensures TaskOf(pane) == Some(id) <==> TitleNames(pane, id) {
      TaskOfIff(pane, id);
    }
    if TaskOf(pane).Some? { assert TitleNames(pane, TaskOf(pane).value); }
  }

  /** What is reused is a pane that is idle and not awaited, the first by id, and there is one if any such pane is. */
  lemma ReusesIdlePane(panes: seq<PaneSnapshot>, tabs: seq<WorkerTabs.TabRow>, items: seq<WorkItem>,
                       pending: set<PaneId>)
    ensures var r := ReusableWorkerPane(panes, LaneView(WorkerTabIds(tabs), Doing(items), pending));
      && (r.Some? ==>
            && r.value !in pending
            && exists k: nat :: k < |panes| && panes[k].paneId == r.value && Idle(panes[k], tabs, items))
      && forall k: nat {:trigger panes[k]} ::
           k < |panes| && Idle(panes[k], tabs, items) && panes[k].paneId !in pending ==>
             r.Some? && Leq(r.value, panes[k].paneId)
  {
    var view := LaneView(WorkerTabIds(tabs), Doing(items), pending);
    var r := ReusableWorkerPane(panes, view);
    forall k: nat ensures FreeAt(panes, k, view) <==>
                          k < |panes| && Idle(panes[k], tabs, items) && panes[k].paneId !in pending {
      if k < |panes| { FreeIff(panes[k], tabs, items, pending); }
    }
  }

  // ---------- the lane's state and its steps ----------

  datatype AdminLane = Merge | Retro | Cleanup

  datatype Settings = Settings(autoDiscover: bool, autoMerge: bool, autoRetro: bool, autoCleanup: bool)

  datatype Lane = Lane(items: seq<WorkItem>, settings: Settings, operationPanes: Option<PaneGrid.OperationPanes>,
                       pendingWorker: set<PaneId>, pendingDiscover: Option<PaneId>,
                       pendingMerge: Option<PaneId>, pendingRetro: Option<PaneId>, pendingCleanup: Option<PaneId>)

  /** What the engine, the terminal and the shell answer to one worker launch: `slots` is whether
    * the engine has room (`None`: it could not be asked), `split` the pane of a successful split. */
  datatype LaunchIo = LaunchIo(slots: Option<bool>, hasRoot: bool, scan: Option<seq<PaneSnapshot>>,
                               tabs: Option<seq<WorkerTabs.TabRow>>, split: Option<PaneId>, spawned: bool)

  datatype AdminIo = AdminIo(settings: Settings, mergeSpawned: bool, retroSpawned: bool, cleanupSpawned: bool)

  datatype Event =
    | Refresh(items: seq<WorkItem>)
    | Scan(panes: seq<PaneSnapshot>)
    | ReadSettings(settings: Settings)
    | Launch(id: string, io: LaunchIo)
    | AutoDiscover(io: LaunchIo)
    | AutoAdmin(admin: AdminIo)

  predicate Listed(panes: seq<PaneSnapshot>, p: PaneId) {
    exists k: nat :: k < |panes| && panes[k].paneId == p
  }

  /** The title of pane `p` names a running item, and no later pane takes that name away from it. */
  ghost predicate RunsItem(panes: seq<PaneSnapshot>, doing: set<string>, p: PaneId) {
    exists k: nat, id :: LastNaming(panes, k, id) && panes[k].paneId == p && id in doing
  }

  ghost predicate Settles(panes: seq<PaneSnapshot>, doing: set<string>, p: PaneId) {
    !Listed(panes, p) || RunsItem(panes, doing, p)
  }

  function Keep(pending: Option<PaneId>, keep: bool): Option<PaneId> { if keep then pending else None }

  function StillListed(pending: Option<PaneId>, panes: seq<PaneSnapshot>): Option<PaneId> {
    Keep(pending, pending.Some? && Listed(panes, pending.value))
  }

  ghost function Unsettled(pending: set<PaneId>, panes: seq<PaneSnapshot>, doing: set<string>): set<PaneId> {
    set p | p in pending && !Settles(panes, doing, p)
  }

  ghost function Retired(s: Lane, panes: seq<PaneSnapshot>): Lane {
    var still := Unsettled(s.pendingWorker, panes, Doing(s.items));
    s.(pendingWorker := still,
       pendingDiscover := Keep(s.pendingDiscover, s.pendingDiscover.Some? && s.pendingDiscover.value in still),
       pendingMerge := StillListed(s.pendingMerge, panes),
       pendingRetro := StillListed(s.pendingRetro, panes),
       pendingCleanup := StillListed(s.pendingCleanup, panes))
  }

  /** The pane a worker is launched into, if the launch succeeds. */
  function LaunchPane(items: seq<WorkItem>, pending: set<PaneId>, io: LaunchIo, typed: bool): Option<PaneId> {
    if io.slots == Some(false) || !io.hasRoot || io.scan.None? || io.tabs.None? || !typed || !io.spawned then None
    else
      var reused := ReusableWorkerPane(io.scan.value, LaneView(WorkerTabIds(io.tabs.value), Doing(items), pending));
      if reused.Some? then reused else io.split
  }

  predicate DiscoverAlive(items: seq<WorkItem>) {
    exists k: nat :: k < |items| && items[k].status == "doing" && items[k].InDiscoverStage()
  }

  predicate DiscoverCandidate(items: seq<WorkItem>) {
    exists k: nat :: k < |items| && items[k].status == "todo" && items[k].DiscoverEligible()
  }

  predicate DiscoverDue(s: Lane) {
    s.settings.autoDiscover && !DiscoverAlive(s.items) && s.pendingDiscover.None? && DiscoverCandidate(s.items)
  }

  function PendingOf(s: Lane, lane: AdminLane): Option<PaneId> {
    match lane case Merge => s.pendingMerge case Retro => s.pendingRetro case Cleanup => s.pendingCleanup
  }

  function PoolStatus(lane: AdminLane): string {
    match lane case Merge => "awaiting-approval" case Retro => "retrospective" case Cleanup => "cleanup"
  }

  predicate PoolReady(items: seq<WorkItem>, lane: AdminLane) {
    exists k: nat :: k < |items| && items[k].status == PoolStatus(lane)
  }

  function Toggle(settings: Settings, lane: AdminLane): bool {
    match lane case Merge => settings.autoMerge case Retro => settings.autoRetro case Cleanup => settings.autoCleanup
  }

  function Slot(panes: PaneGrid.OperationPanes, lane: AdminLane): PaneId {
    match lane case Merge => panes.merge case Retro => panes.retro case Cleanup => panes.cleanup
  }

  function Spawned(io: AdminIo, lane: AdminLane): bool {
    match lane case Merge => io.mergeSpawned case Retro => io.retroSpawned case Cleanup => io.cleanupSpawned
  }

  /** The fixed pane an admin lane is launched into by this tick, if any. */
  function AdminPane(s: Lane, io: AdminIo, lane: AdminLane): Option<PaneId> {
    if s.operationPanes.Some? && AdminDue(Toggle(io.settings, lane), PendingOf(s, lane), PoolReady(s.items, lane)) &&
        Spawned(io, lane)
    then Some(Slot(s.operationPanes.value, lane)) else None
  }

  predicate AdminDue(toggle: bool, pending: Option<PaneId>, poolReady: bool) {
    toggle && pending.None? && poolReady
  }

  function OrElse(p: Option<PaneId>, q: Option<PaneId>): Option<PaneId> { if p.Some? then p else q }

  function WithWorker(s: Lane, p: Option<PaneId>): Lane {
    if p.Some? then s.(pendingWorker := s.pendingWorker + {p.value}) else s
  }

  /** The worker pane a step launches into. */
  function LaunchedPane(s: Lane, e: Event): Option<PaneId> {
    match e
    case Launch(id, io) => LaunchPane(s.items, s.pendingWorker, io, WorkItemId.IsValidId(id))
    case AutoDiscover(io) => if DiscoverDue(s) then LaunchPane(s.items, s.pendingWorker, io, true) else None
    case _ => None
  }

  ghost function Step(s: Lane, e: Event): Lane {
    match e
    case Refresh(items) => s.(items := items)
    case Scan(panes) => Retired(s, panes)
    case ReadSettings(settings) => s.(settings := settings)
    case Launch(_, _) => WithWorker(s, LaunchedPane(s, e))
    case AutoDiscover(_) =>
      var p := LaunchedPane(s, e);
      WithWorker(s, p).(pendingDiscover := OrElse(p, s.pendingDiscover))
    case AutoAdmin(io) =>
      s.(pendingMerge := OrElse(AdminPane(s, io, Merge), s.pendingMerge),
         pendingRetro := OrElse(AdminPane(s, io, Retro), s.pendingRetro),
         pendingCleanup := OrElse(AdminPane(s, io, Cleanup), s.pendingCleanup))
  }

  /** A started item and the pane that shows it; `None` is the orphan badge. */
  datatype InProcessTask = InProcessTask(id: string, pane: Option<PaneIdentity>)

  ghost predicate ShowsPane(task: InProcessTask, panes: seq<PaneSnapshot>) {
    match task.pane
    case None => forall k: nat {:trigger Names(panes, k, task.id)} :: !Names(panes, k, task.id)
    case Some(identity) => exists k: nat :: LastNaming(panes, k, task.id) && identity == IdentityOf(panes[k])
  }

  /** The same tasks, each with the last pane whose title names it. */
  ghost predicate AllShown(before: seq<InProcessTask>, after: seq<InProcessTask>, panes: seq<PaneSnapshot>) {
    && |after| == |before|
    && forall k {:trigger after[k]} :: 0 <= k < |after| ==> after[k].id == before[k].id && ShowsPane(after[k], panes)
  }

  function Shown(tasks: seq<InProcessTask>, m: map<string, PaneIdentity>,
                 ghost panes: seq<PaneSnapshot>): (r: seq<InProcessTask>)
    requires MapsToLast(m, panes)
    ensures AllShown(tasks, r, panes)
  {
    if tasks == [] then []
    else
      var first := InProcessTask(tasks[0].id, if tasks[0].id in m then Some(m[tasks[0].id]) else None);
      MapShows(m, panes, first);
      [first] + Shown(tasks[1..], m, panes)
  }

  class App {
    var items: seq<WorkItem>
    var inProcess: seq<InProcessTask>
    var settings: Settings
    const operationPanes: Option<PaneGrid.OperationPanes>
    var pendingWorker: set<PaneId>
    var pendingDiscover: Option<PaneId>
    var pendingMerge: Option<PaneId>
    var pendingRetro: Option<PaneId>
    var pendingCleanup: Option<PaneId>

    ghost function State(): Lane
      reads this
    {
      Lane(items, settings, operationPanes, pendingWorker, pendingDiscover, pendingMerge, pendingRetro, pendingCleanup)
    }

    constructor (operationPanes: Option<PaneGrid.OperationPanes>, settings: Settings)
      ensures State() == Lane([], settings, operationPanes, {}, None, None, None, None)
      ensures inProcess == []
    {
      this.items, this.inProcess, this.settings, this.operationPanes := [], [], settings, operationPanes;
      pendingWorker, pendingDiscover, pendingMerge, pendingRetro, pendingCleanup := {}, None, None, None, None;
    }

    method RefreshPaneState(panes: seq<PaneSnapshot>)
      modifies this
      ensures State() == Step(old(State()), Scan(panes))
      ensures AllShown(old(inProcess), inProcess, panes)
    {
      var m := TaskIdMap(panes);
      inProcess := Shown(inProcess, m, panes);
      RetireSettledPendingPanes(panes, m);
      if pendingDiscover.Some? && pendingDiscover.value !in pendingWorker {
        pendingDiscover := None;
      }
      RetireSettledPendingOperationPanes(panes);
    }

    method RetireSettledPendingOperationPanes(panes: seq<PaneSnapshot>)
      modifies this`pendingMerge, this`pendingRetro, this`pendingCleanup
      ensures pendingMerge == StillListed(old(pendingMerge), panes)
      ensures pendingRetro == StillListed(old(pendingRetro), panes)
      ensures pendingCleanup == StillListed(old(pendingCleanup), panes)
    {
      if pendingMerge.Some? && !Listed(panes, pendingMerge.value) { pendingMerge := None; }
      if pendingRetro.Some? && !Listed(panes, pendingRetro.value) { pendingRetro := None; }
      if pendingCleanup.Some? && !Listed(panes, pendingCleanup.value) { pendingCleanup := None; }
    }

    method RetireSettledPendingPanes(panes: seq<PaneSnapshot>, labeled: map<string, PaneIdentity>)
      requires MapsToLast(labeled, panes)
      modifies this`pendingWorker
      ensures pendingWorker == Unsettled(old(pendingWorker), panes, Doing(items))
    {
      var doing := Doing(items);
      forall p ensures Settles(panes, doing, p) <==>
          !Listed(panes, p) || exists id :: id in labeled && labeled[id].paneId == p && id in doing {
        SettlesByMap(labeled, panes, doing, p);
      }
      pendingWorker := set p | p in pendingWorker && Listed(panes, p)
                               && !exists id :: id in labeled && labeled[id].paneId == p && id in doing;
    }

    method LaunchWorker(io: LaunchIo, typed: bool) returns (pane: Option<PaneId>)
      modifies this`pendingWorker
      ensures pane == LaunchPane(items, old(pendingWorker), io, typed)
      ensures State() == WithWorker(old(State()), pane)
    {
      pane := LaunchPane(items, pendingWorker, io, typed);
      if pane.Some? {
        pendingWorker := pendingWorker + {pane.value};
      }
    }

    method AutoLaunchDiscover(io: LaunchIo)
      modifies this`pendingWorker, this`pendingDiscover
      ensures State() == Step(old(State()), AutoDiscover(io))
    {
      if settings.autoDiscover && !DiscoverAlive(items) && pendingDiscover.None? && DiscoverCandidate(items) {
        var pane := LaunchWorker(io, true);
        if pane.Some? {
          pendingDiscover := pane;
        }
      }
    }

    method AutoLaunchOperationPanes(io: AdminIo)
      modifies this`pendingMerge, this`pendingRetro, this`pendingCleanup
      ensures State() == Step(old(State()), AutoAdmin(io))
    {
      if operationPanes.None? { return; }
      var panes := operationPanes.value;
      var mergeReady, retroReady, cleanupReady := PoolReady(items, Merge), PoolReady(items, Retro),
          PoolReady(items, Cleanup);
      var merge := AdminDue(io.settings.autoMerge, pendingMerge, mergeReady);
      var retro := AdminDue(io.settings.autoRetro, pendingRetro, retroReady);
      var cleanup := AdminDue(io.settings.autoCleanup, pendingCleanup, cleanupReady);
      ghost var before := State();
      assert AdminPane(before, io, Merge) == if merge && io.mergeSpawned then Some(panes.merge) else None;
      assert AdminPane(before, io, Retro) == if retro && io.retroSpawned then Some(panes.retro) else None;
      assert AdminPane(before, io, Cleanup) == if cleanup && io.cleanupSpawned then Some(panes.cleanup) else None;
      if merge && io.mergeSpawned { pendingMerge := Some(panes.merge); }
      if retro && io.retroSpawned { pendingRetro := Some(panes.retro); }
      if cleanup && io.cleanupSpawned { pendingCleanup := Some(panes.cleanup); }
    }

    /** One poll tick of the event loop: what could be read is taken over, then the launches. `root`
      * holds the settings file and the admin answers when the dashboard knows its project. */
    method Tick(fetched: Option<seq<WorkItem>>, scanned: Option<seq<PaneSnapshot>>,
                root: Option<(Settings, AdminIo)>, io: LaunchIo)
      modifies this
      ensures var events := TickEvents(fetched, scanned, root, io); State() == At(old(State()), events, |events|)
    {
      ghost var before := State();
      if fetched.Some? { items := fetched.value; }
      if scanned.Some? { RefreshPaneState(scanned.value); }
      if root.Some? { settings := root.value.0; }
      AutoLaunchDiscover(io);
      if root.Some? { AutoLaunchOperationPanes(root.value.1); }
      assert State() == TickStates(before, fetched, scanned, root, io);
      TickIsRun(before, fetched, scanned, root, io);
    }
  }

  ghost function TickStates(s: Lane, fetched: Option<seq<WorkItem>>, scanned: Option<seq<PaneSnapshot>>,
                            root: Option<(Settings, AdminIo)>, io: LaunchIo): Lane {
    var s1 := if fetched.Some? then Step(s, Refresh(fetched.value)) else s;
    var s2 := if scanned.Some? then Step(s1, Scan(scanned.value)) else s1;
    var s3 := if root.Some? then Step(s2, ReadSettings(root.value.0)) else s2;
    var s4 := Step(s3, AutoDiscover(io));
    if root.Some? then Step(s4, AutoAdmin(root.value.1)) else s4
  }

  lemma MapShows(m: map<string, PaneIdentity>, panes: seq<PaneSnapshot>, task: InProcessTask)
    requires MapsToLast(m, panes) && task.pane == if task.id in m then Some(m[task.id]) else None
    ensures ShowsPane(task, panes)
  {
  }

  lemma SettlesByMap(m: map<string, PaneIdentity>, panes: seq<PaneSnapshot>, doing: set<string>, p: PaneId)
    requires MapsToLast(m, panes)
    ensures Settles(panes, doing, p) <==> !Listed(panes, p) || exists id :: id in m && m[id].paneId == p && id in doing
  {
  }

  // ---------- whole runs ----------

  /** The state after `k` of the events. */
  ghost function At(s: Lane, events: seq<Event>, k: nat): Lane
    requires k <= |events|
  {
    if k == 0 then s else Step(At(s, events, k - 1), events[k - 1])
  }

  /** A tick is the run of its parts that take place, in the loop's order. */
  function TickEvents(fetched: Option<seq<WorkItem>>, scanned: Option<seq<PaneSnapshot>>,
                      root: Option<(Settings, AdminIo)>, io: LaunchIo): seq<Event> {
    (if fetched.Some? then [Refresh(fetched.value)] else [])
    + (if scanned.Some? then [Scan(scanned.value)] else [])
    + (if root.Some? then [ReadSettings(root.value.0)] else [])
    + [AutoDiscover(io)]
    + (if root.Some? then [AutoAdmin(root.value.1)] else [])
  }

  lemma {:induction false} AtPrefix(s: Lane, events: seq<Event>, more: seq<Event>, k: nat)
    requires k <= |events|
    ensures At(s, events + more, k) == At(s, events, k)
  {
    if k > 0 { AtPrefix(s, events, more, k - 1); }
  }

  lemma OneMoreEvent(s: Lane, events: seq<Event>, e: Event)
    ensures At(s, events + [e], |events| + 1) == Step(At(s, events, |events|), e)
  {
    AtPrefix(s, events, [e], |events|);
  }

  /** So every statement about runs is one about runs of ticks. */
  lemma TickIsRun(s: Lane, fetched: Option<seq<WorkItem>>, scanned: Option<seq<PaneSnapshot>>,
                  root: Option<(Settings, AdminIo)>, io: LaunchIo)
    ensures var events := TickEvents(fetched, scanned, root, io);
      TickStates(s, fetched, scanned, root, io) == At(s, events, |events|)
  {
    var e2 := (if fetched.Some? then [Refresh(fetched.value)] else []) +
        (if scanned.Some? then [Scan(scanned.value)] else []);
    var e3 := e2 + (if root.Some? then [ReadSettings(root.value.0)] else []);
    var e4 := e3 + [AutoDiscover(io)];
    ReadingIsRun(s, fetched, scanned);
    if root.Some? { OneMoreEvent(s, e2, ReadSettings(root.value.0)); } else { assert e3 == e2; }
    OneMoreEvent(s, e3, AutoDiscover(io));
    if root.Some? { OneMoreEvent(s, e4, AutoAdmin(root.value.1)); } else { assert e4 + [] == e4; }
  }

  lemma ReadingIsRun(s: Lane, fetched: Option<seq<WorkItem>>, scanned: Option<seq<PaneSnapshot>>)
    ensures var e1: seq<Event> := if fetched.Some? then [Refresh(fetched.value)] else [];
      var e2 := e1 + (if scanned.Some? then [Scan(scanned.value)] else []);
      var s1 := if fetched.Some? then Step(s, Refresh(fetched.value)) else s;
      At(s, e2, |e2|) == if scanned.Some? then Step(s1, Scan(scanned.value)) else s1
  {
    var e1: seq<Event> := if fetched.Some? then [Refresh(fetched.value)] else [];
    if fetched.Some? { OneMoreEvent(s, [], Refresh(fetched.value)); assert [] + [Refresh(fetched.value)] == e1; }
    if scanned.Some? { OneMoreEvent(s, e1, Scan(scanned.value)); } else { assert e1 + [] == e1; }
  }

  ghost predicate Starts(s: Lane) {
    s.pendingWorker == {} && s.pendingDiscover.None? && s.pendingMerge.None? && s.pendingRetro.None? &&
        s.pendingCleanup.None?
  }

  /** Event `k` is a scan that lacks pane `p` or in which its title names a running item. */
  ghost predicate SettledAt(s: Lane, events: seq<Event>, k: nat, p: PaneId) {
    k < |events| && events[k].Scan? && Settles(events[k].panes, Doing(At(s, events, k).items), p)
  }

  ghost predicate SettledBetween(s: Lane, events: seq<Event>, i: nat, j: nat, p: PaneId) {
    exists k: nat :: i < k < j && SettledAt(s, events, k, p)
  }

  ghost predicate LaunchedAt(s: Lane, events: seq<Event>, k: nat, p: PaneId) {
    k < |events| && LaunchedPane(At(s, events, k), events[k]) == Some(p)
  }

  function IoOf(e: Event): Option<LaunchIo> {
    match e case Launch(_, io) => Some(io) case AutoDiscover(io) => Some(io) case _ => None
  }

  /** The launch of event `k` splits a new pane off: nothing its own scan lists is free. */
  ghost predicate SplitsAt(s: Lane, events: seq<Event>, k: nat) {
    && k < |events| && IoOf(events[k]).Some?
    && var io := IoOf(events[k]).value;
      io.scan.Some? && io.tabs.Some? && forall n: nat :: !FreeAt(io.scan.value, n, LaneOf(At(s, events, k), io))
  }

  ghost function LaneOf(s: Lane, io: LaunchIo): LaneView
    requires io.tabs.Some?
  {
    LaneView(WorkerTabIds(io.tabs.value), Doing(s.items), s.pendingWorker)
  }

  lemma LaunchHolds(s: Lane, e: Event)
    requires LaunchedPane(s, e).Some?
    ensures LaunchedPane(s, e).value in Step(s, e).pendingWorker
  {
  }

  /** A launch gives the free pane of its own scan with the least id; or, if none is free, a split one. */
  lemma LaunchTakesFreePane(s: Lane, e: Event)
    requires LaunchedPane(s, e).Some?
    ensures IoOf(e).Some? && IoOf(e).value.scan.Some? && IoOf(e).value.tabs.Some?
    ensures var io, p := IoOf(e).value, LaunchedPane(s, e).value;
      var panes, view := io.scan.value, LaneOf(s, io);
      || ((exists k: nat :: FreeAt(panes, k, view) && panes[k].paneId == p)
          && forall k: nat {:trigger FreeAt(panes, k, view)} :: FreeAt(panes, k, view) ==> Leq(p, panes[k].paneId))
      || (io.split == Some(p) && forall k: nat {:trigger FreeAt(panes, k, view)} :: !FreeAt(panes, k, view))
  {
  }

  /** A step holds a pane exactly when it launches into it, or it was held and the step is no scan that settles it. */
  lemma StepHoldsIff(s: Lane, e: Event, p: PaneId)
    ensures p in Step(s, e).pendingWorker <==>
            LaunchedPane(s, e) == Some(p) || (p in s.pendingWorker && !(e.Scan? && Settles(e.panes, Doing(s.items), p)))
  {
  }

  lemma {:induction false} PendingUntilSettled(s: Lane, events: seq<Event>, i: nat, j: nat, p: PaneId)
    requires i < j <= |events| && LaunchedAt(s, events, i, p)
    requires !SettledBetween(s, events, i, j, p)
    ensures p in At(s, events, j).pendingWorker
  {
    if j == i + 1 {
      LaunchHolds(At(s, events, i), events[i]);
    } else {
      assert forall k: nat :: i < k < j - 1 && SettledAt(s, events, k, p) ==> SettledBetween(s, events, i, j, p);
      PendingUntilSettled(s, events, i, j - 1, p);
      StepHoldsIff(At(s, events, j - 1), events[j - 1], p);
      assert !SettledAt(s, events, j - 1, p);
    }
  }

  /** Between two launches into one pane there is a scan that settled it. The one other way is
    * that the second launch split the pane off anew, finding nothing free. */
  lemma LaunchesAreSeparated(s: Lane, events: seq<Event>, i: nat, j: nat, p: PaneId)
    requires i < j < |events| && LaunchedAt(s, events, i, p) && LaunchedAt(s, events, j, p)
    ensures SettledBetween(s, events, i, j, p) || (SplitsAt(s, events, j) && IoOf(events[j]).value.split == Some(p))
  {
    if !SettledBetween(s, events, i, j, p) {
      PendingUntilSettled(s, events, i, j, p);
      LaunchTakesFreePane(At(s, events, j), events[j]);
    }
  }

  /** The launch's split, if it makes one, does not answer a pane that the scan just before it listed. */
  predicate SplitIsNew(io: LaunchIo) {
    io.scan.Some? && io.split.Some? ==> !Listed(io.scan.value, io.split.value)
  }

  /** So with a terminal whose splits are new panes, between two launches into one pane some
    * successful scan, a poll's or the second launch's own, lacked the pane, or a poll's scan
    * showed it with the title of a running item. */
  lemma NoSecondWorkerBeforeAScan(s: Lane, events: seq<Event>, i: nat, j: nat, p: PaneId)
    requires i < j < |events| && LaunchedAt(s, events, i, p) && LaunchedAt(s, events, j, p)
    requires IoOf(events[j]).Some? ==> SplitIsNew(IoOf(events[j]).value)
    ensures || SettledBetween(s, events, i, j, p)
            || !Listed(IoOf(events[j]).value.scan.value, p)
  {
    LaunchesAreSeparated(s, events, i, j, p);
    LaunchTakesFreePane(At(s, events, j), events[j]);
  }

  // ---------- exactly when a pane is held, and when it is taken again ----------

  /** In every run a pane is held exactly when some launch into it has not been settled since. */
  lemma {:induction false} HeldIff(s: Lane, events: seq<Event>, j: nat, p: PaneId)
    requires Starts(s) && j <= |events|
    ensures p in At(s, events, j).pendingWorker <==>
            exists i: nat :: i < j && LaunchedAt(s, events, i, p) && !SettledBetween(s, events, i, j, p)
  {
    if p in At(s, events, j).pendingWorker {
      var e := events[j - 1];
      StepHoldsIff(At(s, events, j - 1), e, p);
      if LaunchedPane(At(s, events, j - 1), e) == Some(p) {
        assert LaunchedAt(s, events, j - 1, p) && !SettledBetween(s, events, j - 1, j, p);
      } else {
        HeldIff(s, events, j - 1, p);
        var i: nat :| i < j - 1 && LaunchedAt(s, events, i, p) && !SettledBetween(s, events, i, j - 1, p);
        UnsettledOneMore(s, events, i, j - 1, p);
      }
    }
    if i: nat :| i < j && LaunchedAt(s, events, i, p) && !SettledBetween(s, events, i, j, p) {
      PendingUntilSettled(s, events, i, j, p);
    }
  }

  /** Everything a worker launch asks for, except a pane, is answered well. */
  predicate Ready(s: Lane, e: Event) {
    && IoOf(e).Some?
    && var io := IoOf(e).value;
      && io.slots != Some(false) && io.hasRoot && io.scan.Some? && io.tabs.Some? && io.spawned
      && (e.Launch? ==> WorkItemId.IsValidId(e.id)) && (e.AutoDiscover? ==> DiscoverDue(s))
  }

  ghost predicate IdleAt(s: Lane, io: LaunchIo, k: nat)
    requires io.scan.Some? && io.tabs.Some?
  {
    k < |io.scan.value| && Idle(io.scan.value[k], io.tabs.value, s.items)
  }

  ghost predicate AllSettled(s: Lane, events: seq<Event>, j: nat, p: PaneId) {
    forall i: nat {:trigger LaunchedAt(s, events, i, p)} :: i < j && LaunchedAt(s, events, i, p) ==>
        SettledBetween(s, events, i, j, p)
  }

  lemma LaunchOutcome(s: Lane, e: Event)
    requires Ready(s, e)
    ensures var io := IoOf(e).value;
      var reused := ReusableWorkerPane(io.scan.value, LaneOf(s, io));
      LaunchedPane(s, e) == if reused.Some? then reused else io.split
  {
  }

  lemma NotReadyLaunchesNothing(s: Lane, e: Event)
    requires !Ready(s, e)
    ensures LaunchedPane(s, e).None?
  {
  }

  /** Pane `k` of the launch's own scan is idle, and every earlier launch into it has been settled since. */
  ghost predicate OpenAt(s: Lane, events: seq<Event>, j: nat, io: LaunchIo, k: nat)
    requires j <= |events| && io.scan.Some? && io.tabs.Some?
  {
    IdleAt(At(s, events, j), io, k) && AllSettled(s, events, j, io.scan.value[k].paneId)
  }

  lemma OpenIff(s: Lane, events: seq<Event>, j: nat, io: LaunchIo, k: nat)
    requires Starts(s) && j <= |events| && io.scan.Some? && io.tabs.Some?
    ensures FreeAt(io.scan.value, k, LaneOf(At(s, events, j), io)) <==> OpenAt(s, events, j, io, k)
  {
    if k < |io.scan.value| {
      var now, pane := At(s, events, j), io.scan.value[k];
      FreeIff(pane, io.tabs.value, now.items, now.pendingWorker);
      HeldIff(s, events, j, pane.paneId);
    }
  }

  /** In every run a launch takes pane `p` from the lane exactly when it is ready and `p` is the first by id of the
    * panes that its own scan shows idle and whose earlier launches have all been settled since. */
  lemma ReusedIff(s: Lane, events: seq<Event>, j: nat, p: PaneId)
    requires Starts(s) && j < |events|
    ensures LaunchedAt(s, events, j, p) && !SplitsAt(s, events, j) <==>
      && Ready(At(s, events, j), events[j])
      && var io := IoOf(events[j]).value;
        && (exists k: nat :: OpenAt(s, events, j, io, k) && io.scan.value[k].paneId == p)
        && forall k: nat {:trigger OpenAt(s, events, j, io, k)} ::
             OpenAt(s, events, j, io, k) ==> Leq(p, io.scan.value[k].paneId)
  {
    var now, e := At(s, events, j), events[j];
    if Ready(now, e) {
      var io := IoOf(e).value;
      var panes, view := io.scan.value, LaneOf(now, io);
      forall k: nat ensures FreeAt(panes, k, view) <==> OpenAt(s, events, j, io, k) {
        OpenIff(s, events, j, io, k);
      }
      LaunchOutcome(now, e);
      LeastFreeIsReused(panes, view, p);
    } else {
      NotReadyLaunchesNothing(now, e);
    }
  }

  /** The pane reused is the least free one, and only that. */
  lemma LeastFreeIsReused(panes: seq<PaneSnapshot>, view: LaneView, p: PaneId)
    ensures ReusableWorkerPane(panes, view) == Some(p) <==>
            && (exists k: nat :: FreeAt(panes, k, view) && panes[k].paneId == p)
            && forall k: nat {:trigger FreeAt(panes, k, view)} :: FreeAt(panes, k, view) ==> Leq(p, panes[k].paneId)
    ensures ReusableWorkerPane(panes, view).None? <==> forall k: nat :: !FreeAt(panes, k, view)
  {
    var r := ReusableWorkerPane(panes, view);
    if k: nat :| FreeAt(panes, k, view) && panes[k].paneId == p {
      LeqTotal(p, r.value);
    }
  }

  /** A scan settles a pane exactly when it does not list it, or some title of it names a running item that no later
    * pane's title names. */
  lemma SettlesIff(panes: seq<PaneSnapshot>, items: seq<WorkItem>, p: PaneId)
    ensures Settles(panes, Doing(items), p) <==>
      || (forall k: nat {:trigger panes[k]} :: k < |panes| ==> panes[k].paneId != p)
      || exists k: nat, id :: TitledLast(panes, k, id) && panes[k].paneId == p && Running(items, id)
  {
    forall k: nat, id ensures Names(panes, k, id) <==> k < |panes| && TitleNames(panes[k], id) {
      if k < |panes| { TaskOfIff(panes[k], id); }
    }
    forall k: nat, id ensures LastNaming(panes, k, id) <==> TitledLast(panes, k, id) {
      assert forall j: nat :: k < j < |panes| ==> (Names(panes, j, id) <==> TitleNames(panes[j], id));
    }
  }

  ghost predicate TitledLast(panes: seq<PaneSnapshot>, k: nat, id: string) {
    && k < |panes| && TitleNames(panes[k], id)
    && forall j: nat {:trigger panes[j]} :: k < j < |panes| ==> !TitleNames(panes[j], id)
  }

  /** A pane listed once whose title names `id`, as a reused pane's still does until its new worker writes another,
    * is settled by a scan exactly when `id` is running and no later pane names it. */
  lemma TitledPaneSettlesIff(panes: seq<PaneSnapshot>, doing: set<string>, k: nat, id: string)
    requires Names(panes, k, id)
    requires forall j: nat {:trigger panes[j]} :: j < |panes| && panes[j].paneId == panes[k].paneId ==> j == k
    ensures Settles(panes, doing, panes[k].paneId) <==> id in doing && LastNaming(panes, k, id)
  {
    var p := panes[k].paneId;
    assert Listed(panes, p);
    if RunsItem(panes, doing, p) {
      var j: nat, other :| LastNaming(panes, j, other) && panes[j].paneId == p && other in doing;
      assert Names(panes, j, other) && j == k;
    }
  }

  /** So with the title it was reused under, the pane is settled before its worker wrote another exactly by the scans
    * that find that old item running and named by no later pane. */
  lemma OldTitleSettlesIff(s: Lane, events: seq<Event>, m: nat, k: nat, id: string)
    requires m < |events| && events[m].Scan? && Names(events[m].panes, k, id)
    requires forall j: nat {:trigger events[m].panes[j]} ::
               j < |events[m].panes| && events[m].panes[j].paneId == events[m].panes[k].paneId ==> j == k
    ensures SettledAt(s, events, m, events[m].panes[k].paneId) <==>
            id in Doing(At(s, events, m).items) && LastNaming(events[m].panes, k, id)
  {
    TitledPaneSettlesIff(events[m].panes, Doing(At(s, events, m).items), k, id);
  }

  // ---------- the auto-discover pane and the admin panes ----------

  ghost predicate DiscoverIsPending(s: Lane) {
    s.pendingDiscover.Some? ==> s.pendingDiscover.value in s.pendingWorker
  }

  /** In every run the auto-discover pane is one of the pending worker panes. */
  lemma {:induction false} DiscoverStaysPending(s: Lane, events: seq<Event>, k: nat)
    requires k <= |events| && DiscoverIsPending(s)
    ensures DiscoverIsPending(At(s, events, k))
  {
    if k > 0 {
      DiscoverStaysPending(s, events, k - 1);
    }
  }

  lemma StepDiscoverIff(s: Lane, e: Event, p: PaneId)
    requires DiscoverIsPending(s)
    ensures Step(s, e).pendingDiscover == Some(p) <==>
      || (e.AutoDiscover? && LaunchedPane(s, e) == Some(p))
      || (s.pendingDiscover == Some(p) && !(e.Scan? && Settles(e.panes, Doing(s.items), p)))
  {
  }

  /** In every run the auto-discover pane is `p` exactly when an auto-discover launch into `p` has not been settled. */
  lemma {:induction false} DiscoverHeldIff(s: Lane, events: seq<Event>, j: nat, p: PaneId)
    requires Starts(s) && j <= |events|
    ensures At(s, events, j).pendingDiscover == Some(p) <==>
            exists i: nat ::
              i < j && events[i].AutoDiscover? && LaunchedAt(s, events, i, p) && !SettledBetween(s, events, i, j, p)
  {
    if At(s, events, j).pendingDiscover == Some(p) {
      var e := events[j - 1];
      DiscoverStaysPending(s, events, j - 1);
      StepDiscoverIff(At(s, events, j - 1), e, p);
      if e.AutoDiscover? && LaunchedPane(At(s, events, j - 1), e) == Some(p) {
        assert LaunchedAt(s, events, j - 1, p) && !SettledBetween(s, events, j - 1, j, p);
      } else {
        DiscoverHeldIff(s, events, j - 1, p);
        var i: nat :| i < j - 1 && events[i].AutoDiscover? && LaunchedAt(s, events, i, p)
                      && !SettledBetween(s, events, i, j - 1, p);
        UnsettledOneMore(s, events, i, j - 1, p);
      }
    }
    if i: nat :| i < j && events[i].AutoDiscover? && LaunchedAt(s, events, i, p)
                 && !SettledBetween(s, events, i, j, p) {
      DiscoverHeld(s, events, i, j, p);
    }
  }

  lemma UnsettledOneMore(s: Lane, events: seq<Event>, i: nat, j: nat, p: PaneId)
    requires i < j < |events| && !SettledBetween(s, events, i, j, p) && !SettledAt(s, events, j, p)
    ensures !SettledBetween(s, events, i, j + 1, p)
  {
    forall k: nat | i < k < j + 1 ensures !SettledAt(s, events, k, p) {
    }
  }

  /** An auto-discover launch happens exactly when it is switched on, no discovery item is running, none is awaited,
    * an unblocked one is to be done, and a worker launch succeeds. */
  lemma DiscoverLaunchIff(s: Lane, io: LaunchIo)
    ensures LaunchedPane(s, AutoDiscover(io)).Some? <==>
      && s.settings.autoDiscover && s.pendingDiscover.None? && LaunchPane(s.items, s.pendingWorker, io, true).Some?
      && (forall k: nat {:trigger s.items[k]} :: k < |s.items| && s.items[k].status == "doing" ==>
            s.items[k].stage != "clarify" && s.items[k].stage != "discovery" && s.items[k].stage != "exploring")
      && exists k: nat :: k < |s.items| && s.items[k].status == "todo" && s.items[k].blockedBy == []
           && (s.items[k].stage == "clarify" || s.items[k].stage == "discovery" || s.items[k].stage == "exploring")
  {
  }

  /** So no launch takes that pane for reuse. */
  lemma DiscoverPaneIsNotReused(s: Lane, events: seq<Event>, k: nat, p: PaneId)
    requires Starts(s) && LaunchedAt(s, events, k, p) && At(s, events, k).pendingDiscover == Some(p)
    ensures SplitsAt(s, events, k) && IoOf(events[k]).value.split == Some(p)
  {
    DiscoverStaysPending(s, events, k);
    LaunchTakesFreePane(At(s, events, k), events[k]);
  }

  lemma {:induction false} DiscoverHeld(s: Lane, events: seq<Event>, i: nat, j: nat, p: PaneId)
    requires i < j <= |events| && DiscoverIsPending(s)
    requires events[i].AutoDiscover? && LaunchedAt(s, events, i, p)
    requires !SettledBetween(s, events, i, j, p)
    ensures At(s, events, j).pendingDiscover == Some(p)
  {
    if j > i + 1 {
      assert forall k: nat :: i < k < j - 1 && SettledAt(s, events, k, p) ==> SettledBetween(s, events, i, j, p);
      DiscoverHeld(s, events, i, j - 1, p);
      DiscoverStaysPending(s, events, j - 1);
      assert !SettledAt(s, events, j - 1, p);
      StepKeepsDiscover(At(s, events, j - 1), events[j - 1], p);
    }
  }

  lemma StepKeepsDiscover(s: Lane, e: Event, p: PaneId)
    requires DiscoverIsPending(s) && s.pendingDiscover == Some(p)
    requires !(e.Scan? && Settles(e.panes, Doing(s.items), p))
    ensures Step(s, e).pendingDiscover == Some(p)
  {
  }

  /** Two auto-discover launches are separated by a scan that settled the first one's pane. */
  lemma DiscoverLaunchesAreSeparated(s: Lane, events: seq<Event>, i: nat, j: nat, p: PaneId, q: PaneId)
    requires Starts(s) && i < j < |events| && events[i].AutoDiscover? && events[j].AutoDiscover?
    requires LaunchedAt(s, events, i, p) && LaunchedAt(s, events, j, q)
    ensures SettledBetween(s, events, i, j, p)
  {
    if !SettledBetween(s, events, i, j, p) {
      DiscoverHeld(s, events, i, j, p);
    }
  }

  ghost predicate AdminAt(s: Lane, events: seq<Event>, k: nat, lane: AdminLane, p: PaneId) {
    k < |events| && events[k].AutoAdmin? && AdminPane(At(s, events, k), events[k].admin, lane) == Some(p)
  }

  ghost predicate GoneBetween(events: seq<Event>, i: nat, j: nat, p: PaneId) {
    exists k: nat :: i < k < j && GoneAt(events, k, p)
  }

  ghost predicate GoneAt(events: seq<Event>, k: nat, p: PaneId) {
    k < |events| && events[k].Scan? && !Listed(events[k].panes, p)
  }

  lemma StepKeepsAdmin(s: Lane, e: Event, lane: AdminLane, p: PaneId)
    requires PendingOf(s, lane) == Some(p) && !(e.Scan? && !Listed(e.panes, p))
    ensures PendingOf(Step(s, e), lane) == Some(p)
  {
  }

  lemma {:induction false} AdminHeld(s: Lane, events: seq<Event>, i: nat, j: nat, lane: AdminLane, p: PaneId)
    requires i < j <= |events| && AdminAt(s, events, i, lane, p) && !GoneBetween(events, i, j, p)
    ensures PendingOf(At(s, events, j), lane) == Some(p)
  {
    if j > i + 1 {
      assert forall k: nat :: i < k < j - 1 && GoneAt(events, k, p) ==> GoneBetween(events, i, j, p);
      AdminHeld(s, events, i, j - 1, lane, p);
      assert !GoneAt(events, j - 1, p);
      StepKeepsAdmin(At(s, events, j - 1), events[j - 1], lane, p);
    }
  }

  lemma StepAdminIff(s: Lane, e: Event, lane: AdminLane, p: PaneId)
    ensures PendingOf(Step(s, e), lane) == Some(p) <==>
      || (e.AutoAdmin? && AdminPane(s, e.admin, lane) == Some(p))
      || (PendingOf(s, lane) == Some(p) && !(e.Scan? && !Listed(e.panes, p)))
  {
  }

  /** In every run an admin lane holds pane `p` exactly when it was launched into it and every scan since listed it. */
  lemma {:induction false} AdminHeldIff(s: Lane, events: seq<Event>, j: nat, lane: AdminLane, p: PaneId)
    requires Starts(s) && j <= |events|
    ensures PendingOf(At(s, events, j), lane) == Some(p) <==>
            exists i: nat :: i < j && AdminAt(s, events, i, lane, p) && !GoneBetween(events, i, j, p)
  {
    if PendingOf(At(s, events, j), lane) == Some(p) {
      var e := events[j - 1];
      StepAdminIff(At(s, events, j - 1), e, lane, p);
      if e.AutoAdmin? && AdminPane(At(s, events, j - 1), e.admin, lane) == Some(p) {
        assert AdminAt(s, events, j - 1, lane, p) && !GoneBetween(events, j - 1, j, p);
      } else {
        AdminHeldIff(s, events, j - 1, lane, p);
        var i: nat :| i < j - 1 && AdminAt(s, events, i, lane, p) && !GoneBetween(events, i, j - 1, p);
        NotGoneOneMore(events, i, j - 1, p);
      }
    }
    if i: nat :| i < j && AdminAt(s, events, i, lane, p) && !GoneBetween(events, i, j, p) {
      AdminHeld(s, events, i, j, lane, p);
    }
  }

  lemma NotGoneOneMore(events: seq<Event>, i: nat, j: nat, p: PaneId)
    requires !GoneBetween(events, i, j, p) && !GoneAt(events, j, p)
    ensures !GoneBetween(events, i, j + 1, p)
  {
    forall k: nat | i < k < j + 1 ensures !GoneAt(events, k, p) {
    }
  }

  predicate SomeStatus(items: seq<WorkItem>, status: string) {
    exists k: nat :: k < |items| && items[k].status == status
  }

  /** Each admin lane is launched into its own fixed pane exactly when that is known, the lane is switched on, nothing
    * of it is awaited, some item waits for it, and the command was spawned. */
  lemma AdminLaunchIff(s: Lane, io: AdminIo)
    ensures var panes, on := s.operationPanes, io.settings;
      && AdminPane(s, io, Merge) ==
         (if panes.Some? && on.autoMerge && s.pendingMerge.None? && SomeStatus(s.items, "awaiting-approval")
             && io.mergeSpawned then Some(panes.value.merge) else None)
      && AdminPane(s, io, Retro) ==
         (if panes.Some? && on.autoRetro && s.pendingRetro.None? && SomeStatus(s.items, "retrospective")
             && io.retroSpawned then Some(panes.value.retro) else None)
      && AdminPane(s, io, Cleanup) ==
         (if panes.Some? && on.autoCleanup && s.pendingCleanup.None? && SomeStatus(s.items, "cleanup")
             && io.cleanupSpawned then Some(panes.value.cleanup) else None)
  {
  }

  /** Two launches of one admin lane are separated by a scan that no longer lists the first one's pane. */
  lemma AdminLaunchesAreSeparated(s: Lane, events: seq<Event>, i: nat, j: nat, lane: AdminLane, p: PaneId, q: PaneId)
    requires i < j < |events| && AdminAt(s, events, i, lane, p) && AdminAt(s, events, j, lane, q)
    ensures GoneBetween(events, i, j, p)
  {
    if !GoneBetween(events, i, j, p) {
      AdminHeld(s, events, i, j, lane, p);
    }
  }

  // ---------- the two lanes never share a pane ----------

  /** A tab listing names each tab once. */
  ghost predicate TabsOnce(tabs: seq<WorkerTabs.TabRow>) {
    forall j, k :: 0 <= j < k < |tabs| ==> tabs[j].tabId != tabs[k].tabId
  }

  /** The operation tab is never a worker tab, so the worker lane neither reuses a pane in it nor
    * places a new pane there. */
  lemma WorkerLaneSkipsOperationTab(tabs: seq<WorkerTabs.TabRow>, t: nat, panes: seq<PaneSnapshot>, view: LaneView)
    requires TabsOnce(tabs) && t < |tabs| && tabs[t].title == Some(WorkerTabs.OPERATION_TAB)
    requires view.workerTabs == WorkerTabIds(tabs)
    ensures forall k: nat {:trigger FreeAt(panes, k, view)} :: FreeAt(panes, k, view) ==>
            panes[k].tabId != tabs[t].tabId
    ensures var placed := WorkerTabs.DecideWorkersTabPlacement(WorkerTabs.SortedWorkerTabs(tabs));
      placed.ExistingTabWithRoom? ==> placed.tab != tabs[t]
  {
    OperationTabIsNoWorkerTab(tabs, t);
    WorkerTabs.PlacesInWorkerTab(tabs);
  }

  lemma OperationTabIsNoWorkerTab(tabs: seq<WorkerTabs.TabRow>, t: nat)
    requires TabsOnce(tabs) && t < |tabs| && tabs[t].title == Some(WorkerTabs.OPERATION_TAB)
    ensures WorkerTabs.IndexOf(tabs[t]).None? && tabs[t].tabId !in WorkerTabIds(tabs)
  {
    WorkerTabs.OperationTabHasNoIndex();
    assert WorkerTabs.IndexOf(tabs[t]).None?;
  }

  // ---------- what the trace property does not give ----------

  /** A pane reused for a new worker still carries its old title until the worker writes its own.
    * If that old item is claimed elsewhere meanwhile, a scan settles the pane, and once the item
    * is done again the pane takes a second worker. */
  lemma StaleTitleLetsSecondWorkerIn(s: Lane, title: string, id: string, p: PaneId, tab: WorkerTabs.TabRow,
                                     other: string)
    requires Starts(s) && s.items == []
    requires WorkItemId.ExtractTaskId(title) == Some(id) && WorkItemId.IsValidId(other)
    requires WorkerTabs.IndexOf(tab).Some?
    ensures
      var panes := [PaneSnapshot(p, tab.tabId, Some(title), false)];
      var launch := Launch(other, LaunchIo(None, true, Some(panes), Some([tab]), None, true));
      var events := [launch, Refresh([WorkItem(id, "", "doing", "", [])]), Scan(panes), Refresh([]), launch];
      LaunchedAt(s, events, 0, p) && LaunchedAt(s, events, 4, p)
  {
    var pane := PaneSnapshot(p, tab.tabId, Some(title), false);
    var panes := [pane];
    var io := LaunchIo(None, true, Some(panes), Some([tab]), None, true);
    var launch := Launch(other, io);
    var running := [WorkItem(id, "", "doing", "", [])];
    var events := [launch, Refresh(running), Scan(panes), Refresh([]), launch];
    OnlyPaneIsReused(pane, tab, other);
    var s1 := Step(s, launch);
    assert At(s, events, 1) == s1 && s1 == s.(pendingWorker := {p});
    assert At(s, events, 2) == s1.(items := running);
    var s3 := At(s, events, 3);
    assert running[0].status == "doing" && id in Doing(running);
    assert Names(panes, 0, id) && LastNaming(panes, 0, id);
    assert Settles(panes, Doing(running), p);
    assert s3 == Retired(At(s, events, 2), panes);
    assert s3.pendingWorker == {};
    assert At(s, events, 4).items == [] && At(s, events, 4).pendingWorker == {};
  }

  lemma OnlyPaneIsReused(pane: PaneSnapshot, tab: WorkerTabs.TabRow, other: string)
    requires pane.tabId == tab.tabId && !pane.focused && TaskOf(pane).Some?
    requires WorkItemId.IsValidId(other) && WorkerTabs.IndexOf(tab).Some?
    ensures LaunchPane([], {}, LaunchIo(None, true, Some([pane]), Some([tab]), None, true), true) == Some(pane.paneId)
  {
    var tabs := [tab];
    assert tabs[0].tabId in WorkerTabIds(tabs);
    assert Doing([]) == {};
    assert FreeAt([pane], 0, LaneView(WorkerTabIds(tabs), Doing([]), {}));
  }
}
