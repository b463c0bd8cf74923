/** The dashboard's cursor, tabs, filter and detail dialog (herdr-dashboard/src/app.rs, ui.rs and
  * the event loop of main.rs). */
module Cockpit {
  import opened Wrappers
  import WorkerLane

  type WorkItem = WorkerLane.WorkItem
  type InProcessTask = WorkerLane.InProcessTask

  datatype WorkTab = Backlog | Todo | Doing | Review | Done {
    predicate Matches(status: string) {
      match this
      case Backlog => status == "backlog"
      case Todo => status == "todo"
      case Doing => status == "doing" || status == "blocked" || status == "awaiting-human"
      case Review => status == "awaiting-approval"
      case Done =>
        || status == "delivered" || status == "retrospective" || status == "cleanup" || status == "done"
        || status == "wontfix"
    }

    function Next(): WorkTab {
      match this case Backlog => Todo case Todo => Doing case Doing => Review case Review => Done case Done => Backlog
    }

    function Prev(): WorkTab {
      match this case Backlog => Done case Todo => Backlog case Doing => Todo case Review => Doing case Done => Review
    }
  }

  datatype Panel = WorkItems | InProcess | NeedAnswer | MergeList | AfterDeliver {
    function Next(): Panel {
      match this
      case WorkItems => InProcess case InProcess => NeedAnswer case NeedAnswer => MergeList
      case MergeList => AfterDeliver case AfterDeliver => WorkItems
    }

    function Prev(): Panel {
      match this
      case WorkItems => AfterDeliver case InProcess => WorkItems case NeedAnswer => InProcess
      case MergeList => NeedAnswer case AfterDeliver => MergeList
    }
  }

  /** `lower` is the lower-casing of the platform's strings. */
  datatype Screen = Screen(items: seq<WorkItem>, inProcess: seq<InProcessTask>,
                           selected: Option<nat>, inProcessSelected: Option<nat>, focused: Panel,
                           modalOpen: bool, tab: WorkTab, filterActive: bool, query: string,
                           lower: string -> string)

  // ---------- the rows on view ----------

  predicate Contains(s: string, part: string) {
    exists k :: 0 <= k <= |s| && part <= s[k..]
  }

  predicate Shown(item: WorkItem, tab: WorkTab, query: string, lower: string -> string) {
    && tab.Matches(item.status)
    && (lower(query) == "" || Contains(lower(item.id), lower(query)) || Contains(lower(item.title), lower(query)))
  }

  function Filtered(items: seq<WorkItem>, tab: WorkTab, query: string, lower: string -> string): (r: seq<WorkItem>) {
    if items == [] then []
    else (if Shown(items[0], tab, query, lower) then [items[0]] else []) + Filtered(items[1..], tab, query, lower)
  }

  function Visible(s: Screen): seq<WorkItem> { Filtered(s.items, s.tab, s.query, s.lower) }

  lemma {:induction false} FilteredIsShown(items: seq<WorkItem>, tab: WorkTab, query: string, lower: string -> string,
                                           item: WorkItem)
    ensures item in Filtered(items, tab, query, lower) <==> item in items && Shown(item, tab, query, lower)
  {
    if items != [] {
      assert items == [items[0]] + items[1..];
      FilteredIsShown(items[1..], tab, query, lower, item);
    }
  }

  // ---------- the cursor ----------

  /** There is a cursor exactly when there are rows, and it is on one of them. */
  predicate Fits(cursor: Option<nat>, rows: nat) {
    if rows == 0 then cursor.None? else cursor.Some? && cursor.value < rows
  }

  function NextRow(cursor: Option<nat>, rows: nat): Option<nat> {
    if rows == 0 then cursor
    else match cursor case Some(i) => Some((i + 1) % rows) case None => Some(0)
  }

  function PreviousRow(cursor: Option<nat>, rows: nat): Option<nat> {
    if rows == 0 then cursor
    else if cursor == Some(0) || cursor == None then Some(rows - 1)
    else Some(cursor.value - 1)
  }

  function Moved(cursor: Option<nat>, rows: nat, down: bool): Option<nat> {
    if down then NextRow(cursor, rows) else PreviousRow(cursor, rows)
  }

  function Clamped(cursor: Option<nat>, rows: nat): Option<nat> {
    if rows == 0 then None
    else match cursor
      case Some(i) => if i >= rows then Some(rows - 1) else cursor
      case None => Some(0)
  }

  function SelectedItem(s: Screen): Option<WorkItem> {
    if s.selected.Some? && s.selected.value < |Visible(s)| then Some(Visible(s)[s.selected.value]) else None
  }

  function SelectedPane(s: Screen): Option<string> {
    if s.inProcessSelected.Some? && s.inProcessSelected.value < |s.inProcess| then
      var pane := s.inProcess[s.inProcessSelected.value].pane;
      if pane.Some? then Some(pane.value.paneId) else None
    else None
  }

  // ---------- events ----------

  datatype UiEvent =
    | Up | Down | Pick | SwitchPanel | SwitchPanelPrev | Discover | NextTab | PrevTab
    | ActivateFilter | FilterChar(c: char) | FilterBackspace | FilterSubmit | FilterCancel
    | ClickFocus(panel: Panel) | ClickSelectRow(panel: Panel, index: nat) | Quit

  datatype ButtonRect = ButtonRect(x: nat, y: nat, width: nat, height: nat)

  /** Whether a recorded rectangle contains the click. */
  predicate Hit(rect: Option<ButtonRect>, col: nat, row: nat) {
    rect.Some? && rect.value.x <= col < rect.value.x + rect.value.width &&
        rect.value.y <= row < rect.value.y + rect.value.height
  }

  datatype Rects = Rects(pick: Option<ButtonRect>, discover: Option<ButtonRect>,
                         workItems: Option<ButtonRect>, inProcess: Option<ButtonRect>,
                         needAnswer: Option<ButtonRect>, mergeList: Option<ButtonRect>,
                             afterDeliver: Option<ButtonRect>)

  datatype Key = Esc | Enter | Backspace | Tab | BackTab | DownArrow | UpArrow | Char(c: char) | OtherKey

  datatype Input = Press(key: Key) | CtrlC | Click(col: nat, row: nat)

  function RowClickEvent(panel: Panel, rect: ButtonRect, row: nat, rows: nat): UiEvent {
    if row < rect.y + 2 then ClickFocus(panel)
    else if row - (rect.y + 2) < rows then ClickSelectRow(panel, row - (rect.y + 2))
    else ClickFocus(panel)
  }

  function ClickTarget(s: Screen, rects: Rects, col: nat, row: nat): Option<UiEvent> {
    if Hit(rects.workItems, col, row) then Some(RowClickEvent(WorkItems, rects.workItems.value, row, |Visible(s)|))
    else if Hit(rects.inProcess, col, row) then
      Some(RowClickEvent(InProcess, rects.inProcess.value, row, |s.inProcess|))
    else if Hit(rects.needAnswer, col, row) then Some(ClickFocus(NeedAnswer))
    else if Hit(rects.mergeList, col, row) then Some(ClickFocus(MergeList))
    else if Hit(rects.afterDeliver, col, row) then Some(ClickFocus(AfterDeliver))
    else None
  }

  function FilterKey(key: Key): Option<UiEvent> {
    match key
    case Esc => Some(FilterCancel)
    case Enter => Some(FilterSubmit)
    case Backspace => Some(FilterBackspace)
    case Char(c) => Some(FilterChar(c))
    case _ => None
  }

  function PlainKey(key: Key): Option<UiEvent> {
    match key
    case Esc => Some(Quit)
    case DownArrow => Some(Down)
    case UpArrow => Some(Up)
    case Enter => Some(Pick)
    case Tab => Some(SwitchPanel)
    case BackTab => Some(SwitchPanelPrev)
    case Char(c) =>
      if c == 'q' then Some(Quit) else if c == 'j' then Some(Down) else if c == 'k' then Some(Up)
      else if c == 'd' then Some(Discover) else if c == ']' then Some(NextTab) else if c == '[' then Some(PrevTab)
      else if c == '/' then Some(ActivateFilter) else None
    case _ => None
  }

  function PollEvent(s: Screen, rects: Rects, input: Input): Option<UiEvent> {
    match input
    case Click(col, row) =>
      if s.modalOpen then
        if Hit(rects.pick, col, row) then Some(Pick) else if Hit(rects.discover, col, row) then Some(Discover) else None
      else ClickTarget(s, rects, col, row)
    case CtrlC => Some(Quit)
    case Press(key) => if s.filterActive then FilterKey(key) else PlainKey(key)
  }

  /** The events that can occur on this screen, whatever the user does. */
  predicate Possible(s: Screen, e: UiEvent) {
    match e
    case Quit => true
    case ClickFocus(_) => !s.modalOpen
    case ClickSelectRow(panel, index) =>
      !s.modalOpen && ((panel.WorkItems? && index < |Visible(s)|) || (panel.InProcess? && index < |s.inProcess|))
    case FilterChar(_) => s.filterActive
    case FilterBackspace => s.filterActive
    case FilterSubmit => s.filterActive
    case FilterCancel => s.filterActive
    case Pick => !s.filterActive || s.modalOpen
    case Discover => !s.filterActive || s.modalOpen
    case _ => !s.filterActive
  }

  lemma PolledIsPossible(s: Screen, rects: Rects, input: Input)
    ensures var e := PollEvent(s, rects, input); e.Some? ==> Possible(s, e.value)
  {
  }

  // ---------- what the event loop does ----------

  datatype Action = NoAction | Leave | LaunchPick(id: string) | LaunchDiscover(id: string) | FocusPane(paneId: string)

  function Reclamp(s: Screen): Screen { s.(selected := Clamped(s.selected, |Visible(s)|)) }

  function WithView(s: Screen, tab: WorkTab, query: string): Screen {
    Reclamp(s.(tab := tab, query := query, selected := None))
  }

  function MoveCursor(s: Screen, down: bool): Screen {
    match s.focused
    case WorkItems => s.(selected := Moved(s.selected, |Visible(s)|, down))
    case InProcess => s.(inProcessSelected := Moved(s.inProcessSelected, |s.inProcess|, down))
    case _ => s
  }

  /** The screen after an event. */
  function Handled(s: Screen, e: UiEvent): Screen {
    match e
    case Quit => s.(modalOpen := false)
    case Pick =>
      if s.modalOpen then s.(modalOpen := false)
      else if s.focused.WorkItems? && SelectedItem(s).Some? then s.(modalOpen := true) else s
    case Discover =>
      if s.modalOpen && SelectedItem(s).Some? && SelectedItem(s).value.DiscoverEligible() then s.(modalOpen := false)
          else s
    case FilterChar(c) => WithView(s, s.tab, s.query + [c])
    case FilterBackspace => WithView(s, s.tab, if s.query == "" then "" else s.query[..|s.query| - 1])
    case FilterSubmit => s.(filterActive := false)
    case FilterCancel => WithView(s.(filterActive := false), s.tab, "")
    case ClickFocus(panel) => s.(focused := panel)
    case ClickSelectRow(panel, index) =>
      (match panel
       case WorkItems => s.(focused := panel, selected := Some(index))
       case InProcess => s.(focused := panel, inProcessSelected := Some(index))
       case _ => s.(focused := panel))
    case _ => if s.modalOpen then s else Browsed(s, e)
  }

  /** The events that do nothing while the dialog is open. */
  function Browsed(s: Screen, e: UiEvent): Screen {
    match e
    case SwitchPanel => s.(focused := s.focused.Next())
    case SwitchPanelPrev => s.(focused := s.focused.Prev())
    case Down => MoveCursor(s, true)
    case Up => MoveCursor(s, false)
    case NextTab => WithView(s, s.tab.Next(), s.query)
    case PrevTab => WithView(s, s.tab.Prev(), s.query)
    case ActivateFilter => s.(filterActive := true)
    case _ => s
  }

  /** What the loop does besides changing the screen. */
  function ActionOf(s: Screen, e: UiEvent): Action {
    match e
    case Quit => if s.modalOpen then NoAction else Leave
    case Pick =>
      if s.modalOpen then (if SelectedItem(s).Some? then LaunchPick(SelectedItem(s).value.id) else NoAction)
      else if s.focused.InProcess? && SelectedPane(s).Some? then FocusPane(SelectedPane(s).value) else NoAction
    case Discover =>
      if s.modalOpen && SelectedItem(s).Some? && SelectedItem(s).value.DiscoverEligible() then
        LaunchDiscover(SelectedItem(s).value.id)
      else NoAction
    case _ => NoAction
  }

  /** A poll tick; a source that failed leaves its rows alone. */
  function Refreshed(s: Screen, items: Option<seq<WorkItem>>, doing: Option<seq<InProcessTask>>): Screen {
    var s1 := if items.Some? then Reclamp(s.(items := items.value)) else s;
    if doing.None? then s1
    else s1.(inProcess := doing.value, inProcessSelected := Clamped(s1.inProcessSelected, |doing.value|))
  }

  /** A pane scan: each task shows the pane found for it. */
  function Paned(tasks: seq<InProcessTask>, panes: map<string, WorkerLane.PaneIdentity>): (r: seq<InProcessTask>)
    ensures |r| == |tasks|
    ensures forall k :: 0 <= k < |r| ==> r[k].id == tasks[k].id
  {
    if tasks == [] then []
    else [tasks[0].(pane := if tasks[0].id in panes then Some(panes[tasks[0].id]) else None)] + Paned(tasks[1..], panes)
  }

  class App {
    var items: seq<WorkItem>
    var inProcess: seq<InProcessTask>
    var selected: Option<nat>
    var inProcessSelected: Option<nat>
    var focused: Panel
    var modalOpen: bool
    var activeTab: WorkTab
    var filterActive: bool
    var query: string
    const lower: string -> string

    function State(): Screen
      reads this
    {
      Screen(items, inProcess, selected, inProcessSelected, focused, modalOpen, activeTab, filterActive, query, lower)
    }

    constructor (lower: string -> string)
      ensures State() == Screen([], [], None, None, WorkItems, false, Todo, false, "", lower)
      ensures Consistent(State())
    {
      items, inProcess, selected, inProcessSelected, focused := [], [], None, None, WorkItems;
      modalOpen, activeTab, filterActive, query, this.lower := false, Todo, false, "", lower;
    }

    method VisibleWorkItems() returns (r: seq<WorkItem>)
      ensures r == Visible(State())
    {
      r := [];
      for i := 0 to |items|
        invariant Filtered(items, activeTab, query, lower) == r + Filtered(items[i..], activeTab, query, lower)
      {
        assert items[i..][0] == items[i] && items[i..][1..] == items[i + 1..];
        if Shown(items[i], activeTab, query, lower) {
          r := r + [items[i]];
        }
      }
    }

    method SelectNext()
      modifies this`selected
      ensures State() == old(State()).(selected := NextRow(old(selected), |Visible(old(State()))|))
    {
      var visible := VisibleWorkItems();
      if |visible| == 0 { return; }
      selected := match selected case Some(i) => Some((i + 1) % |visible|) case None => Some(0);
    }

    method SelectPrevious()
      modifies this`selected
      ensures State() == old(State()).(selected := PreviousRow(old(selected), |Visible(old(State()))|))
    {
      var visible := VisibleWorkItems();
      if |visible| == 0 { return; }
      selected := if selected.None? || selected.value == 0 then Some(|visible| - 1) else Some(selected.value - 1);
    }

    method ClampSelection()
      modifies this`selected
      ensures State() == Reclamp(old(State()))
    {
      var visible := VisibleWorkItems();
      if |visible| == 0 {
        selected := None;
      } else if selected.None? {
        selected := Some(0);
      } else if selected.value >= |visible| {
        selected := Some(|visible| - 1);
      }
    }

    method SwitchTab(forward: bool)
      modifies this`activeTab, this`selected
      ensures State() == WithView(old(State()), if forward then old(activeTab).Next() else old(activeTab).Prev(), query)
    {
      activeTab := if forward then activeTab.Next() else activeTab.Prev();
      selected := None;
      ClampSelection();
    }

    method SetQuery(text: string)
      modifies this`query, this`selected
      ensures State() == WithView(old(State()), activeTab, text)
    {
      query := text;
      selected := None;
      ClampSelection();
    }

    method MoveInProcess(down: bool)
      modifies this`inProcessSelected
      ensures inProcessSelected == Moved(old(inProcessSelected), |inProcess|, down)
    {
      if |inProcess| == 0 { return; }
      if down {
        inProcessSelected := match inProcessSelected case Some(i) => Some((i + 1) % |inProcess|) case None => Some(0);
      } else {
        inProcessSelected := if inProcessSelected.None? || inProcessSelected.value == 0 then Some(|inProcess| - 1)
            else Some(inProcessSelected.value - 1);
      }
    }

    method Move(down: bool)
      modifies this`selected, this`inProcessSelected
      ensures State() == MoveCursor(old(State()), down)
    {
      match focused {
        case WorkItems => if down { SelectNext(); } else { SelectPrevious(); }
        case InProcess => MoveInProcess(down);
        case _ =>
      }
    }

    /** One event of the loop. */
    method Handle(e: UiEvent) returns (action: Action)
      modifies this
      ensures State() == Handled(old(State()), e)
      ensures action == ActionOf(old(State()), e)
    {
      action := NoAction;
      match e {
        case Quit =>
          if modalOpen { modalOpen := false; } else { action := Leave; }
        case Pick => action := HandlePick();
        case Discover => action := HandleDiscover();
        case FilterChar(_) => HandleFilter(e);
        case FilterBackspace => HandleFilter(e);
        case FilterSubmit => HandleFilter(e);
        case FilterCancel => HandleFilter(e);
        case ClickFocus(_) => HandleClick(e);
        case ClickSelectRow(_, _) => HandleClick(e);
        case _ => if !modalOpen { Browse(e); }
      }
    }

    method HandleFilter(e: UiEvent)
      requires e.FilterChar? || e.FilterBackspace? || e.FilterSubmit? || e.FilterCancel?
      modifies this
      ensures State() == Handled(old(State()), e)
    {
      match e {
        case FilterChar(c) => SetQuery(query + [c]);
        case FilterBackspace => SetQuery(if query == "" then "" else query[..|query| - 1]);
        case FilterSubmit => filterActive := false;
        case FilterCancel =>
          filterActive := false;
          SetQuery("");
      }
    }

    method HandleClick(e: UiEvent)
      requires e.ClickFocus? || e.ClickSelectRow?
      modifies this
      ensures State() == Handled(old(State()), e)
    {
      focused := e.panel;
      if e.ClickSelectRow? {
        if e.panel == WorkItems { selected := Some(e.index); }
        if e.panel == InProcess { inProcessSelected := Some(e.index); }
      }
    }

    method Browse(e: UiEvent)
      modifies this
      ensures State() == Browsed(old(State()), e)
    {
      match e {
        case SwitchPanel => focused := focused.Next();
        case SwitchPanelPrev => focused := focused.Prev();
        case Down => Move(true);
        case Up => Move(false);
        case NextTab => SwitchTab(true);
        case PrevTab => SwitchTab(false);
        case ActivateFilter => filterActive := true;
        case _ =>
      }
    }

    method HandlePick() returns (action: Action)
      modifies this`modalOpen
      ensures State() == Handled(old(State()), Pick)
      ensures action == ActionOf(old(State()), Pick)
    {
      action := NoAction;
      var visible := VisibleWorkItems();
      var onRow := selected.Some? && selected.value < |visible|;
      if modalOpen {
        if onRow { action := LaunchPick(visible[selected.value].id); }
        modalOpen := false;
      } else if focused == WorkItems {
        if onRow { modalOpen := true; }
      } else if focused == InProcess && inProcessSelected.Some? && inProcessSelected.value < |inProcess| {
        var pane := inProcess[inProcessSelected.value].pane;
        if pane.Some? { action := FocusPane(pane.value.paneId); }
      }
    }

    method HandleDiscover() returns (action: Action)
      modifies this`modalOpen
      ensures State() == Handled(old(State()), Discover)
      ensures action == ActionOf(old(State()), Discover)
    {
      action := NoAction;
      var visible := VisibleWorkItems();
      if modalOpen && selected.Some? && selected.value < |visible| && visible[selected.value].DiscoverEligible() {
        action := LaunchDiscover(visible[selected.value].id);
        modalOpen := false;
      }
    }

    method RefreshFromFgos(fetched: Option<seq<WorkItem>>, doing: Option<seq<InProcessTask>>)
      modifies this
      ensures State() == Refreshed(old(State()), fetched, doing)
    {
      if fetched.Some? {
        items := fetched.value;
        ClampSelection();
      }
      if doing.Some? {
        inProcess := doing.value;
        if |inProcess| == 0 {
          inProcessSelected := None;
        } else if inProcessSelected.None? {
          inProcessSelected := Some(0);
        } else if inProcessSelected.value >= |inProcess| {
          inProcessSelected := Some(|inProcess| - 1);
        }
      }
    }

    /** One round of the loop. */
    method Take(t: Turn) returns (action: Action)
      modifies this
      ensures State() == Turned(old(State()), t) && action == ActionOfTurn(old(State()), t)
      ensures old(Consistent(State())) ==> Consistent(State())
    {
      ghost var before := State();
      action := NoAction;
      match t {
        case Ui(rects, input) =>
          var e := PollEvent(State(), rects, input);
          if e.Some? { action := Handle(e.value); }
        case Fetch(fetched, doing) => RefreshFromFgos(fetched, doing);
        case PaneScan(panes) => inProcess := Paned(inProcess, panes);
      }
      if Consistent(before) { TurnKeepsConsistent(before, t); }
    }

    method TakeNext(ghost start: Screen, turns: seq<Turn>, k: nat) returns (left: bool)
      requires k < |turns| && State() == After(start, turns, k)
      modifies this
      ensures State() == After(start, turns, k + 1)
      ensures left == Leaves(start, turns, k)
    {
      var action := Take(turns[k]);
      left := action == Leave;
    }

    method RunFrom(ghost start: Screen, turns: seq<Turn>) returns (used: nat)
      requires State() == start
      modifies this
      ensures used <= |turns| && State() == After(start, turns, used)
      ensures used < |turns| ==> used > 0 && Leaves(start, turns, used - 1)
      ensures forall k :: 0 <= k < used - 1 ==> !Leaves(start, turns, k)
    {
      used := 0;
      while used < |turns|
        invariant used <= |turns| && State() == After(start, turns, used)
        invariant forall k :: 0 <= k < used ==> !Leaves(start, turns, k)
      {
        var left := TakeNext(start, turns, used);
        used := used + 1;
        if left { return; }
      }
    }

    /** The loop, until the user leaves. */
    method Run(turns: seq<Turn>) returns (used: nat)
      requires Consistent(State())
      modifies this
      ensures used <= |turns| && State() == After(old(State()), turns, used) && Consistent(State())
      ensures used < |turns| ==> used > 0 && Leaves(old(State()), turns, used - 1)
      ensures forall k :: 0 <= k < used - 1 ==> !Leaves(old(State()), turns, k)
    {
      ghost var start := State();
      used := RunFrom(start, turns);
      RunKeepsConsistent(start, turns, used);
    }
  }

  // ---------- every reachable screen ----------

  predicate Consistent(s: Screen) {
    && Fits(s.selected, |Visible(s)|)
    && Fits(s.inProcessSelected, |s.inProcess|)
    && !(s.modalOpen && s.filterActive)
    && (s.modalOpen ==> s.focused.WorkItems?)
  }

  /** One round of the loop: an input under some drawn rectangles, or part of a poll tick. */
  datatype Turn =
    | Ui(rects: Rects, input: Input)
    | Fetch(items: Option<seq<WorkItem>>, doing: Option<seq<InProcessTask>>)
    | PaneScan(panes: map<string, WorkerLane.PaneIdentity>)

  function Turned(s: Screen, t: Turn): Screen {
    match t
    case Ui(rects, input) => var e := PollEvent(s, rects, input); if e.Some? then Handled(s, e.value) else s
    case Fetch(items, doing) => Refreshed(s, items, doing)
    case PaneScan(panes) => s.(inProcess := Paned(s.inProcess, panes))
  }

  function ActionOfTurn(s: Screen, t: Turn): Action {
    match t
    case Ui(rects, input) => var e := PollEvent(s, rects, input); if e.Some? then ActionOf(s, e.value) else NoAction
    case _ => NoAction
  }

  lemma TurnKeepsConsistent(s: Screen, t: Turn)
    requires Consistent(s)
    ensures Consistent(Turned(s, t))
  {
    match t
    case Ui(rects, input) =>
      PolledIsPossible(s, rects, input);
      if PollEvent(s, rects, input).Some? { HandlingKeepsConsistent(s, PollEvent(s, rects, input).value); }
    case Fetch(items, doing) => RefreshKeepsConsistent(s, items, doing);
    case PaneScan(panes) => assert Visible(Turned(s, t)) == Visible(s);
  }

  /** Every event that can occur keeps the screen consistent. */
  lemma HandlingKeepsConsistent(s: Screen, e: UiEvent)
    requires Consistent(s) && Possible(s, e)
    ensures Consistent(Handled(s, e))
  {
  }

  lemma RefreshKeepsConsistent(s: Screen, items: Option<seq<WorkItem>>, doing: Option<seq<InProcessTask>>)
    requires Consistent(s)
    ensures Consistent(Refreshed(s, items, doing))
  {
  }

  /** The screen after `k` of the turns. */
  function After(s: Screen, turns: seq<Turn>, k: nat): Screen
    requires k <= |turns|
  {
    if k == 0 then s else Turned(After(s, turns, k - 1), turns[k - 1])
  }

  predicate Leaves(s: Screen, turns: seq<Turn>, k: nat) {
    k < |turns| && ActionOfTurn(After(s, turns, k), turns[k]).Leave?
  }

  /** In every reachable screen the cursors fit their rows and the dialog and the filter are never both active. */
  lemma {:induction false} RunKeepsConsistent(s: Screen, turns: seq<Turn>, k: nat)
    requires Consistent(s) && k <= |turns|
    ensures Consistent(After(s, turns, k))
  {
    if k > 0 {
      RunKeepsConsistent(s, turns, k - 1);
      TurnKeepsConsistent(After(s, turns, k - 1), turns[k - 1]);
    }
  }

  // ---------- what the user's hand does ----------

  /** The rows on view stand in the order of the items. */
  lemma {:induction false} FilteredInOrder(a: seq<WorkItem>, b: seq<WorkItem>, tab: WorkTab, query: string,
                                           lower: string -> string)
    ensures Filtered(a + b, tab, query, lower) == Filtered(a, tab, query, lower) + Filtered(b, tab, query, lower)
  {
    if a == [] {
      assert a + b == b;
    } else {
      FilteredInOrder(a[1..], b, tab, query, lower);
      FilteredFirst(a[0], a[1..] + b, tab, query, lower);
      FilteredFirst(a[0], a[1..], tab, query, lower);
      assert a + b == [a[0]] + (a[1..] + b) && a == [a[0]] + a[1..];
    }
  }

  lemma FilteredFirst(item: WorkItem, rest: seq<WorkItem>, tab: WorkTab, query: string, lower: string -> string)
    ensures Filtered([item] + rest, tab, query, lower) ==
            (if Shown(item, tab, query, lower) then [item] else []) + Filtered(rest, tab, query, lower)
  {
    assert ([item] + rest)[1..] == rest;
  }

  predicate Browsing(s: Screen) { Consistent(s) && !s.modalOpen && !s.filterActive }

  /** Moving the cursor up undoes moving it down, and the other way round. */
  lemma UpUndoesDown(s: Screen)
    requires Browsing(s)
    ensures Handled(Handled(s, Down), Up) == s && Handled(Handled(s, Up), Down) == s
  {
    MovesUndo(s.selected, |Visible(s)|);
    MovesUndo(s.inProcessSelected, |s.inProcess|);
    SameRows(s, NextRow(s.selected, |Visible(s)|));
    SameRows(s, PreviousRow(s.selected, |Visible(s)|));
  }

  lemma SameRows(s: Screen, cursor: Option<nat>)
    ensures Visible(s.(selected := cursor)) == Visible(s)
  {
  }

  lemma MovesUndo(cursor: Option<nat>, rows: nat)
    requires Fits(cursor, rows)
    ensures PreviousRow(NextRow(cursor, rows), rows) == cursor && NextRow(PreviousRow(cursor, rows), rows) == cursor
    ensures cursor.Some? && cursor.value + 1 < rows ==> NextRow(cursor, rows) == Some(cursor.value + 1)
  {
    if cursor.Some? {
      Wraps(cursor.value, rows);
      if cursor.value > 0 { Wraps(cursor.value - 1, rows); }
    }
    if rows > 0 { Wraps(rows - 1, rows); }
  }

  lemma Wraps(i: nat, rows: nat)
    requires i < rows
    ensures (i + 1) % rows == if i + 1 < rows then i + 1 else 0
  {
  }

  /** A click on a row of either list, below its border and its heading, puts the cursor there and the focus on
    * the list. */
  lemma ClickedRowIsSelected(s: Screen, rects: Rects, col: nat, row: nat)
    requires !s.modalOpen
    ensures Hit(rects.workItems, col, row) && 2 <= row - rects.workItems.value.y < |Visible(s)| + 2 ==>
              var e := PollEvent(s, rects, Click(col, row));
              e.Some? && Handled(s, e.value) ==
                  s.(focused := WorkItems, selected := Some(row - rects.workItems.value.y - 2))
    ensures !Hit(rects.workItems, col, row) && Hit(rects.inProcess, col, row)
            && 2 <= row - rects.inProcess.value.y < |s.inProcess| + 2 ==>
              var e := PollEvent(s, rects, Click(col, row));
              e.Some? && Handled(s, e.value) ==
                         s.(focused := InProcess, inProcessSelected := Some(row - rects.inProcess.value.y - 2))
  {
  }

  /** The cursor of these rows is on the first one, if there is any. */
  predicate AtFirst(cursor: Option<nat>, rows: nat) { cursor == if rows == 0 then None else Some(0) }

  /** What is typed into the filter is the query, a backspace takes the last character back, and leaving the filter
    * clears it; the cursor goes to the first of the rows then on view. */
  lemma TypingIsQuery(s: Screen, c: char)
    requires s.filterActive
    ensures var typed := Handled(s, FilterChar(c)); AtFirst(typed.selected, |Visible(typed)|)
    ensures var left := Handled(s, FilterCancel); AtFirst(left.selected, |Visible(left)|)
    ensures Handled(s, FilterChar(c)).query == s.query + [c]
    ensures Handled(Handled(s, FilterChar(c)), FilterBackspace).query == s.query
    ensures Handled(s, FilterCancel).query == "" && !Handled(s, FilterCancel).filterActive
    ensures Handled(s, FilterSubmit).query == s.query && !Handled(s, FilterSubmit).filterActive
  {
    assert (s.query + [c])[..|s.query|] == s.query;
  }

  /** After a poll tick the cursor is where it was, or on the last row when there are fewer, or on the first when there
    * was no cursor. */
  lemma RefreshKeepsCursor(s: Screen, items: seq<WorkItem>, doing: seq<InProcessTask>)
    ensures var after := Refreshed(s, Some(items), Some(doing));
      && after.items == items && after.inProcess == doing
      && KeptOn(s.selected, after.selected, |Visible(after)|)
      && KeptOn(s.inProcessSelected, after.inProcessSelected, |doing|)
  {
  }

  predicate KeptOn(before: Option<nat>, after: Option<nat>, rows: nat) {
    && (rows == 0 <==> after.None?)
    && (rows > 0 ==> (before.Some? && before.value < rows ==> after == before)
                     && (before.Some? && before.value >= rows ==> after.value + 1 == rows)
                     && (before.None? ==> after.value == 0))
  }

  // ---------- what is launched ----------

  /** Row `i` of the work items is under the cursor. */
  predicate OnRow(s: Screen, i: nat) { s.selected == Some(i) && i < |Visible(s)| }

  /** Exactly when an event launches, focuses a pane, or leaves. */
  lemma ActionIff(s: Screen, e: UiEvent, id: string)
    ensures ActionOf(s, e) == LaunchPick(id) <==>
            e.Pick? && s.modalOpen && exists i: nat :: OnRow(s, i) && Visible(s)[i].id == id
    ensures ActionOf(s, e) == LaunchDiscover(id) <==>
      && e.Discover? && s.modalOpen
      && exists i: nat :: OnRow(s, i) && Visible(s)[i].id == id && Visible(s)[i].blockedBy == []
           && (Visible(s)[i].stage == "clarify" || Visible(s)[i].stage == "discovery"
               || Visible(s)[i].stage == "exploring")
    ensures ActionOf(s, e) == FocusPane(id) <==>
      && e.Pick? && !s.modalOpen && s.focused == InProcess
      && s.inProcessSelected.Some? && s.inProcessSelected.value < |s.inProcess|
      && s.inProcess[s.inProcessSelected.value].pane.Some?
      && s.inProcess[s.inProcessSelected.value].pane.value.paneId == id
    ensures ActionOf(s, e) == Leave <==> e.Quit? && !s.modalOpen
  {
  }

  /** `id` is on view, and eligible where that is asked for. */
  ghost predicate OnView(s: Screen, id: string, eligible: bool) {
    exists item :: item in s.items && item.id == id && Shown(item, s.tab, s.query, s.lower) &&
        (eligible ==> item.DiscoverEligible())
  }

  /** A launch is for an item on view, from the open dialog, which it closes; discovery only for an eligible one. */
  lemma LaunchesShownItem(s: Screen, e: UiEvent)
    ensures var a := ActionOf(s, e);
      a.LaunchPick? || a.LaunchDiscover? ==>
          s.modalOpen && !Handled(s, e).modalOpen && OnView(s, a.id, a.LaunchDiscover?)
  {
    if SelectedItem(s).Some? {
      FilteredIsShown(s.items, s.tab, s.query, s.lower, SelectedItem(s).value);
    }
  }

  /** So in every run: what any turn launches is on view in that turn's screen, and its dialog was open with the
    * work items focused and no filter being typed. */
  lemma RunsLaunchShownItems(s: Screen, turns: seq<Turn>, k: nat)
    requires Consistent(s) && k < |turns|
    ensures var now := After(s, turns, k);
      var a := ActionOfTurn(now, turns[k]);
      a.LaunchPick? || a.LaunchDiscover? ==>
        now.modalOpen && now.focused.WorkItems? && !now.filterActive && OnView(now, a.id, a.LaunchDiscover?)
  {
    RunKeepsConsistent(s, turns, k);
    var now := After(s, turns, k);
    if turns[k].Ui? && PollEvent(now, turns[k].rects, turns[k].input).Some? {
      LaunchesShownItem(now, PollEvent(now, turns[k].rects, turns[k].input).value);
    }
  }
}
