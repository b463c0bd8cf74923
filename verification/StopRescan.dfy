/** Stop, rescan and kill a whole process tree while it keeps forking (tools/platform-probe/src/unix.rs).
  *
  * Other processes run between any two actions of the scan, between the reads of any two table entries, and
  * between any two actions of the stop loop. What is assumed of them:
  * a stopped process does nothing, a pid is not handed out again while the loop runs, and a process with
  * living children does not exit (its children would be handed to another parent and leave the tree).
  */
module StopRescan {
  import opened Wrappers

  type Pid = p: nat | p < 0x1_0000_0000

  /** `parent` records who started every process so far; the living ones among them are `alive`. */
  datatype Sys = Sys(parent: map<Pid, Pid>, alive: set<Pid>, stopped: set<Pid>)

  datatype Event = Fork(starter: Pid, child: Pid) | Exit(proc: Pid)

  ghost predicate ValidSys(s: Sys) {
    && (forall p :: p in s.alive ==> p in s.parent)
    && (forall p {:trigger ParentRecorded(s, p)} :: p in s.parent ==> ParentRecorded(s, p))
  }

  ghost predicate ParentRecorded(s: Sys, p: Pid)
    requires p in s.parent
  {
    s.parent[p] in s.parent
  }

  /** What the operating system lists as the children of `p`. */
  function Children(s: Sys, p: Pid): set<Pid> {
    if p in s.alive then set c | c in s.alive && c in s.parent && s.parent[c] == p else {}
  }

  /** A step that is not possible changes nothing. */
  function Apply(s: Sys, e: Event): Sys {
    match e
    case Fork(starter, child) =>
      if starter in s.alive && starter !in s.stopped && child !in s.parent then
        s.(parent := s.parent[child := starter], alive := s.alive + {child})
      else s
    case Exit(proc) =>
      if Children(s, proc) == {} then s.(alive := s.alive - {proc}) else s
  }

  function RunAll(s: Sys, events: seq<Event>): Sys
    decreases |events|
  {
    if events == [] then s else RunAll(Apply(s, events[0]), events[1..])
  }

  // ---------- descendants ----------

  /** `c` was started by `root` or by one of `pids`. */
  ghost predicate StartedBy(s: Sys, root: Pid, pids: set<Pid>, c: Pid) {
    c in s.parent && (s.parent[c] == root || s.parent[c] in pids)
  }

  ghost predicate Closed(s: Sys, root: Pid, pids: set<Pid>) {
    forall c {:trigger StartedBy(s, root, pids, c)} :: StartedBy(s, root, pids, c) ==> c in pids
  }

  ghost predicate InEveryClosed(s: Sys, root: Pid, p: Pid) {
    forall pids: set<Pid> :: Closed(s, root, pids) ==> p in pids
  }

  /** Every process ever started below `root`. */
  ghost function Descendants(s: Sys, root: Pid): set<Pid> {
    set p | p in s.parent && InEveryClosed(s, root, p)
  }

  /** The parent of every living descendant is alive: nothing has left the tree. */
  ghost predicate Rooted(s: Sys, root: Pid) {
    forall c :: c in s.alive && c in Descendants(s, root) ==> s.parent[c] in s.alive
  }

  lemma ChildOfTreeIsBelow(s: Sys, root: Pid, c: Pid)
    requires StartedBy(s, root, Descendants(s, root), c)
    ensures c in Descendants(s, root)
  {
    forall pids: set<Pid> | Closed(s, root, pids) ensures c in pids {
      assert StartedBy(s, root, pids, c);
    }
  }

  lemma BelowHasParentInTree(s: Sys, root: Pid, p: Pid)
    requires p in Descendants(s, root)
    ensures s.parent[p] == root || s.parent[p] in Descendants(s, root)
  {
    var below := Descendants(s, root);
    var stepped := set q | q in below && StartedBy(s, root, below, q);
    forall c | StartedBy(s, root, stepped, c) ensures c in stepped {
      ChildOfTreeIsBelow(s, root, c);
    }
    assert Closed(s, root, stepped);
  }

  /** Forks and exits leave the recorded past as it is. */
  ghost predicate Extends(a: Sys, b: Sys) {
    && a.stopped == b.stopped
    && (forall p :: p in a.parent ==> p in b.parent && b.parent[p] == a.parent[p])
    && (forall p :: p in b.alive ==> p in a.alive || p !in a.parent)
    && (forall p {:trigger b.parent[p]} :: p in b.parent && p !in a.parent ==> b.parent[p] !in a.stopped)
  }

  /** The record only grows, and nothing comes back to life. */
  ghost predicate Aged(a: Sys, b: Sys) {
    && (forall p :: p in a.parent ==> p in b.parent && b.parent[p] == a.parent[p])
    && (forall p :: p in b.alive ==> p in a.alive || p !in a.parent)
  }

  lemma AgedThrough(a: Sys, b: Sys, c: Sys)
    requires Aged(a, b) && Aged(b, c)
    ensures Aged(a, c) && (c.parent == a.parent ==> b.parent == a.parent)
  {
  }

  /** A process already recorded stays below the root, or stays out of its tree. */
  lemma ExtendedDescendants(a: Sys, b: Sys, root: Pid)
    requires ValidSys(a) && Extends(a, b)
    ensures forall p :: p in a.parent ==> (p in Descendants(b, root) <==> p in Descendants(a, root))
  {
    var below := Descendants(a, root);
    var later := below + (b.parent.Keys - a.parent.Keys);
    forall c | StartedBy(b, root, later, c) ensures c in later {
      if c in a.parent {
        assert ParentRecorded(a, c);
        assert StartedBy(a, root, below, c);
        ChildOfTreeIsBelow(a, root, c);
      }
    }
    assert Closed(b, root, later);
    forall p | p in below ensures InEveryClosed(b, root, p) {
      forall pids: set<Pid> | Closed(b, root, pids) ensures p in pids {
        forall c | StartedBy(a, root, pids * a.parent.Keys, c) ensures c in pids * a.parent.Keys {
          assert StartedBy(b, root, pids, c);
        }
        assert Closed(a, root, pids * a.parent.Keys);
      }
    }
  }

  lemma ApplyExtends(s: Sys, e: Event)
    requires ValidSys(s)
    ensures ValidSys(Apply(s, e)) && Extends(s, Apply(s, e))
  {
    forall p | p in Apply(s, e).parent ensures ParentRecorded(Apply(s, e), p) {
      assert p in s.parent ==> ParentRecorded(s, p);
    }
  }

  lemma ApplyKeepsRooted(s: Sys, e: Event, root: Pid)
    requires ValidSys(s) && Rooted(s, root)
    ensures Rooted(Apply(s, e), root)
  {
    var after := Apply(s, e);
    ApplyExtends(s, e);
    ExtendedDescendants(s, after, root);
    forall c | c in after.alive && c in Descendants(after, root) ensures after.parent[c] in after.alive {
      if c in s.parent && e.Exit? && after != s {
        assert c !in Children(s, e.proc);
      }
    }
  }

  lemma {:induction false} RunExtends(s: Sys, events: seq<Event>, root: Pid)
    requires ValidSys(s)
    ensures ValidSys(RunAll(s, events)) && Extends(s, RunAll(s, events))
    ensures Rooted(s, root) ==> Rooted(RunAll(s, events), root)
    decreases |events|
  {
    if events != [] {
      ApplyExtends(s, events[0]);
      if Rooted(s, root) {
        ApplyKeepsRooted(s, events[0], root);
      }
      RunExtends(Apply(s, events[0]), events[1..], root);
    }
  }

  /** No living process of the tree can act. */
  ghost predicate Frozen(s: Sys, root: Pid) {
    forall p :: p in s.alive && (p == root || p in Descendants(s, root)) ==> p in s.stopped
  }

  lemma ApplyKeepsFrozen(s: Sys, e: Event, root: Pid)
    requires ValidSys(s) && root in s.parent && Frozen(s, root)
    ensures Frozen(Apply(s, e), root)
    ensures forall p :: p in Apply(s, e).alive && p in Descendants(Apply(s, e), root) ==>
            p in s.alive && p in Descendants(s, root)
  {
    var after := Apply(s, e);
    ApplyExtends(s, e);
    ExtendedDescendants(s, after, root);
    if e.Fork? && after != s && e.child in Descendants(after, root) {
      BelowHasParentInTree(after, root, e.child);
    }
  }

  /** A frozen tree stays frozen and gains no living process, whatever else runs. */
  lemma {:induction false} RunKeepsFrozen(s: Sys, events: seq<Event>, root: Pid)
    requires ValidSys(s) && root in s.parent && Frozen(s, root)
    ensures Frozen(RunAll(s, events), root)
    ensures forall p :: p in RunAll(s, events).alive && p in Descendants(RunAll(s, events), root)
                        ==> p in s.alive && p in Descendants(s, root)
    decreases |events|
  {
    if events != [] {
      ApplyKeepsFrozen(s, events[0], root);
      ApplyExtends(s, events[0]);
      RunKeepsFrozen(Apply(s, events[0]), events[1..], root);
    }
  }

  // ---------- the scan ----------

  /** `c` is listed as a living child of `root` or of one of `pids`. */
  ghost predicate Listed(s: Sys, root: Pid, pids: set<Pid>, c: Pid) {
    c in s.alive && c in s.parent && s.parent[c] in s.alive && (s.parent[c] == root || s.parent[c] in pids)
  }

  ghost predicate ListClosed(s: Sys, root: Pid, pids: set<Pid>) {
    forall c {:trigger Listed(s, root, pids, c)} :: Listed(s, root, pids, c) ==> c in pids
  }

  /** The transitive closure of the child relation as the operating system lists it. */
  ghost function ListedDescendants(s: Sys, root: Pid): set<Pid> {
    set p | p in s.alive && forall pids: set<Pid> :: ListClosed(s, root, pids) ==> p in pids
  }

  /** While nothing has left the tree, what is listed is exactly what is alive below the root. */
  lemma ListedIsLivingTree(s: Sys, root: Pid)
    requires ValidSys(s) && Rooted(s, root)
    ensures ListedDescendants(s, root) == Descendants(s, root) * s.alive
  {
    var below := Descendants(s, root);
    forall c | Listed(s, root, below * s.alive, c) ensures c in below * s.alive {
      assert StartedBy(s, root, below, c);
      ChildOfTreeIsBelow(s, root, c);
    }
    assert ListClosed(s, root, below * s.alive);
    forall p, pids: set<Pid> | p in below * s.alive && ListClosed(s, root, pids) ensures p in pids {
      var rest := set q | q in s.parent && (q !in s.alive || q !in below);
      forall c | StartedBy(s, root, pids + rest, c) ensures c in pids + rest {
        if c in s.alive && c in below {
          BelowHasParentInTree(s, root, c);
          assert Listed(s, root, pids, c);
        }
      }
      assert Closed(s, root, pids + rest);
      assert InEveryClosed(s, root, p);
    }
  }

  ghost predicate Reaches(a: Sys, b: Sys) {
    exists events: seq<Event> :: RunAll(a, events) == b
  }

  lemma {:induction false} RunConcat(s: Sys, first: seq<Event>, second: seq<Event>)
    ensures RunAll(s, first + second) == RunAll(RunAll(s, first), second)
    decreases |first|
  {
    if first == [] {
      assert first + second == second;
    } else {
      assert (first + second)[1..] == first[1..] + second;
      RunConcat(Apply(s, first[0]), first[1..], second);
    }
  }

  lemma ReachesIsTransitive(a: Sys, b: Sys, c: Sys)
    requires Reaches(a, b) && Reaches(b, c)
    ensures Reaches(a, c)
  {
    var first: seq<Event> :| RunAll(a, first) == b;
    var second: seq<Event> :| RunAll(b, second) == c;
    RunConcat(a, first, second);
  }

  lemma ReachesBy(a: Sys, events: seq<Event>)
    ensures Reaches(a, RunAll(a, events))
  {
  }

  lemma ReachesItself(a: Sys)
    ensures Reaches(a, a)
  {
    ReachesBy(a, []);
  }

  lemma ReachedExtends(a: Sys, b: Sys, root: Pid)
    requires ValidSys(a) && Reaches(a, b)
    ensures ValidSys(b) && Extends(a, b) && (Rooted(a, root) ==> Rooted(b, root))
  {
    var events: seq<Event> :| RunAll(a, events) == b;
    RunExtends(a, events, root);
  }

  class Kernel {
    var sys: Sys

    constructor (sys: Sys)
      ensures this.sys == sys
    {
      this.sys := sys;
    }

    /** Any number of steps of other processes. */
    method Elapse()
      modifies this
      ensures Reaches(old(sys), sys)
    {
      var events: seq<Event> := *;
      ReachesBy(sys, events);
      sys := RunAll(sys, events);
    }

    method Stop(p: Pid)
      modifies this
      ensures sys == old(sys).(stopped := old(sys).stopped + if p in old(sys).alive then {p} else {})
    {
      if p in sys.alive {
        sys := sys.(stopped := sys.stopped + {p});
      }
    }

    method Kill(p: Pid)
      modifies this
      ensures sys == old(sys).(alive := old(sys).alive - {p})
    {
      sys := sys.(alive := sys.alive - {p});
    }
  }

  // ---------- reading children while others fork ----------

  /** `c` is a living child of `p` both when the scan starts and now. */
  ghost predicate Stays(start: Sys, now: Sys, p: Pid, c: Pid) {
    c in start.alive && c in now.alive && c in now.parent && now.parent[c] == p && p in now.alive
  }

  ghost predicate StayersIn(start: Sys, now: Sys, p: Pid, pids: set<Pid>) {
    forall c {:trigger Stays(start, now, p, c)} :: Stays(start, now, p, c) ==> c in pids
  }

  /** Who stays until later has stayed until now. */
  lemma StayersInLater(start: Sys, before: Sys, now: Sys, p: Pid, pids: set<Pid>)
    requires ValidSys(start) && Extends(start, before) && Extends(before, now) && StayersIn(start, before, p, pids)
    ensures StayersIn(start, now, p, pids)
  {
    forall c | Stays(start, now, p, c) ensures c in pids {
      assert ParentRecorded(start, c);
      assert Stays(start, before, p, c);
    }
  }

  /** One table row per process: its parent. */
  type Table = map<Pid, Pid>

  function TableChildren(table: Table, p: Pid): set<Pid> {
    set c | c in table && table[c] == p
  }

  /** The entry of process `p`, if it is there to be read. */
  function EntryOf(s: Sys, p: Pid): Option<Pid> {
    if p in s.alive && p in s.parent && s.parent[p] in s.alive then Some(s.parent[p]) else None
  }

  /** A row tells the true parent, and both processes were alive at the start or came later. */
  ghost predicate TrueRow(start: Sys, now: Sys, c: Pid, p: Pid) {
    && c in now.parent && now.parent[c] == p
    && (c in start.alive || c !in start.parent) && (p in start.alive || p !in start.parent)
  }

  ghost predicate TrueRows(start: Sys, now: Sys, table: Table) {
    forall c {:trigger table[c]} :: c in table ==> TrueRow(start, now, c, table[c])
  }

  /** Every process of `pids` with a living parent, both alive from the start until now, has a row. */
  ghost predicate RowsOf(start: Sys, now: Sys, table: Table, pids: set<Pid>) {
    forall c {:trigger c in table} ::
      c in pids && c in start.alive && c in now.alive && c in now.parent && now.parent[c] in now.alive ==> c in table
  }

  /** What a table read between `start` and `now` is sure to tell, although its entries were read one after
    * the other while processes forked and exited. */
  ghost predicate TableFits(start: Sys, now: Sys, table: Table) {
    TrueRows(start, now, table) && forall p :: StayersIn(start, now, p, TableChildren(table, p))
  }

  predicate IsPid(p: nat) {
    p < 0x1_0000_0000
  }

  /** Reads the entries of all processes, in any order; others run in between. */
  method ReadTable(k: Kernel) returns (table: Table)
    requires ValidSys(k.sys)
    modifies k
    ensures ValidSys(k.sys) && Reaches(old(k.sys), k.sys) && Extends(old(k.sys), k.sys)
    ensures TableFits(old(k.sys), k.sys, table)
  {
    table := map[];
    ghost var start := k.sys;
    var todo: set<Pid> := set p: nat | p < 0x1_0000_0000 && IsPid(p);
    ghost var pids: set<Pid> := {};
    ReachesItself(start);
    while todo != {}
      invariant ValidSys(k.sys) && Reaches(start, k.sys) && Extends(start, k.sys)
      invariant TrueRows(start, k.sys, table) && RowsOf(start, k.sys, table, pids)
      invariant forall p: nat :: IsPid(p) ==> p in todo || p in pids
      decreases todo
    {
      var p :| p in todo;
      todo := todo - {p};
      ghost var before, table0 := k.sys, table;
      k.Elapse();
      ReachedExtends(before, k.sys, p);
      ReachesIsTransitive(start, before, k.sys);
      var entry := EntryOf(k.sys, p);
      if entry.Some? {
        table := table[p := entry.value];
      }
      OneMoreEntry(start, before, k.sys, table0, table, pids, p);
      pids := pids + {p};
    }
    AllRowsFit(start, k.sys, table, pids);
  }

  lemma OneMoreEntry(start: Sys, before: Sys, now: Sys, table: Table, table': Table, pids: set<Pid>, p: Pid)
    requires ValidSys(start) && Extends(start, before) && Extends(before, now)
    requires TrueRows(start, before, table) && RowsOf(start, before, table, pids)
    requires table' == if EntryOf(now, p).Some? then table[p := EntryOf(now, p).value] else table
    ensures TrueRows(start, now, table') && RowsOf(start, now, table', pids + {p})
  {
    forall c | c in table' ensures TrueRow(start, now, c, table'[c]) {
      assert c in table ==> TrueRow(start, before, c, table[c]);
    }
    forall c | c in pids + {p} && c in start.alive && c in now.alive && c in now.parent && now.parent[c] in now.alive
        ensures c in table' {
      assert ParentRecorded(start, c);
    }
  }

  lemma AllRowsFit(start: Sys, now: Sys, table: Table, pids: set<Pid>)
    requires TrueRows(start, now, table) && RowsOf(start, now, table, pids) && forall p: nat :: IsPid(p) ==> p in pids
    ensures TableFits(start, now, table)
  {
    forall p: Pid, c: Pid | Stays(start, now, p, c) ensures c in TableChildren(table, p) {
      assert IsPid(c);
      assert c in table;
      assert TrueRow(start, now, c, table[c]);
    }
  }

  lemma TableFitsLater(start: Sys, before: Sys, now: Sys, table: Table)
    requires ValidSys(start) && Extends(start, before) && Extends(before, now) && TableFits(start, before, table)
    ensures TableFits(start, now, table)
  {
    forall c | c in table ensures TrueRow(start, now, c, table[c]) {
      assert TrueRow(start, before, c, table[c]);
    }
    forall p ensures StayersIn(start, now, p, TableChildren(table, p)) {
      StayersInLater(start, before, now, p, TableChildren(table, p));
    }
  }

  /** The table of one instant. */
  ghost function TableOf(s: Sys): Table {
    map c | c in s.alive && EntryOf(s, c).Some? :: EntryOf(s, c).value
  }

  /** When nothing happens while it is read, the table is exact. */
  lemma QuietTableIsExact(s: Sys, table: Table)
    requires ValidSys(s) && TableFits(s, s, table)
    ensures table == TableOf(s)
  {
    forall c ensures c in table <==> c in TableOf(s) {
      if c in table {
        assert TrueRow(s, s, c, table[c]) && ParentRecorded(s, c);
      }
      if c in TableOf(s) {
        assert Stays(s, s, s.parent[c], c);
        assert StayersIn(s, s, s.parent[c], TableChildren(table, s.parent[c]));
      }
    }
    forall c | c in table ensures table[c] == TableOf(s)[c] {
      assert TrueRow(s, s, c, table[c]);
    }
  }

  ghost predicate TableClosed(table: Table, root: Pid, pids: set<Pid>) {
    forall c {:trigger table[c]} :: c in table && (table[c] == root || table[c] in pids) ==> c in pids
  }

  /** The transitive closure of the rows. */
  ghost function TableClosure(table: Table, root: Pid): set<Pid> {
    set c | c in table && forall pids: set<Pid> :: TableClosed(table, root, pids) ==> c in pids
  }

  /** On the table of one instant the closure of the rows is the closure of the child relation. */
  lemma InstantClosure(s: Sys, root: Pid)
    requires ValidSys(s)
    ensures TableClosure(TableOf(s), root) == ListedDescendants(s, root)
  {
    var table := TableOf(s);
    forall pids: set<Pid> ensures TableClosed(table, root, pids) <==> ListClosed(s, root, pids) {
      assert forall c :: Listed(s, root, pids, c) <==> c in table && (table[c] == root || table[c] in pids);
    }
    forall c | c in ListedDescendants(s, root) ensures c in table {
      assert ListClosed(s, root, table.Keys);
    }
  }

  /** The children of `p`, out of the table read on the first call, or as they are listed now. */
  method NativeChildren(k: Kernel, p: Pid, cache: Option<Table>, caches: bool, ghost start: Sys)
      returns (children: set<Pid>, cache': Option<Table>)
    requires ValidSys(start) && ValidSys(k.sys) && Extends(start, k.sys)
    requires cache.Some? ==> TableFits(start, k.sys, cache.value)
    modifies k
    ensures ValidSys(k.sys) && Reaches(old(k.sys), k.sys) && Extends(old(k.sys), k.sys)
    ensures cache'.Some? <==> cache.Some? || caches
    ensures cache'.Some? ==> TableFits(start, k.sys, cache'.value) && children == TableChildren(cache'.value, p)
    ensures cache.Some? ==> cache' == cache
    ensures StayersIn(start, k.sys, p, children)
    ensures forall c :: c in children ==> TrueRow(start, k.sys, c, p)
  {
    ghost var before := k.sys;
    cache' := cache;
    if cache.None? && caches {
      var table := ReadTable(k);
      cache' := Some(table);
      FitsFromEarlier(start, before, k.sys, table);
    } else {
      k.Elapse();
      ReachedExtends(before, k.sys, p);
    }
    if cache'.Some? {
      children := TableChildren(cache'.value, p);
      if cache.Some? { TableFitsLater(start, before, k.sys, cache.value); }
      forall c | c in children ensures TrueRow(start, k.sys, c, p) {
        assert cache'.value[c] == p;
      }
    } else {
      children := Children(k.sys, p);
      ListedNow(start, before, k.sys, p);
    }
  }

  /** A table read from a later state on is one read from the earlier state on. */
  lemma FitsFromEarlier(start: Sys, before: Sys, now: Sys, table: Table)
    requires ValidSys(start) && ValidSys(before) && Extends(start, before) && Extends(before, now) &&
             TableFits(before, now, table)
    ensures TableFits(start, now, table)
  {
    forall c | c in table ensures TrueRow(start, now, c, table[c]) {
      assert TrueRow(before, now, c, table[c]);
    }
    forall p, c | Stays(start, now, p, c) ensures c in TableChildren(table, p) {
      assert ParentRecorded(start, c);
      assert Stays(before, now, p, c);
      assert StayersIn(before, now, p, TableChildren(table, p));
    }
  }

  lemma ListedNow(start: Sys, before: Sys, now: Sys, p: Pid)
    requires ValidSys(start) && ValidSys(now) && Extends(start, before) && Extends(before, now)
    ensures StayersIn(start, now, p, Children(now, p))
    ensures forall c :: c in Children(now, p) ==> TrueRow(start, now, c, p)
  {
  }

  /** Each of `pids` was alive at the start or came later. */
  ghost predicate LivedThrough(start: Sys, pids: set<Pid>) {
    forall c :: c in pids ==> c in start.alive || c !in start.parent
  }

  /** What holds between two iterations of the scan: the children of `done` were taken, those of `q` are still to be. */
  ghost predicate Scanning(start: Sys, now: Sys, root: Pid, cache: Option<Table>, done: set<Pid>, seen: set<Pid>,
                           q: seq<Pid>) {
    && ValidSys(now) && Extends(start, now)
    && seen <= Descendants(now, root) && (done == {} ==> seen == {}) && LivedThrough(start, seen)
    && (forall p :: p in done ==> StayersIn(start, now, p, seen))
    && (forall p :: p in q || p in done <==> p in seen || p == root)
    && (cache.Some? ==> TableFits(start, now, cache.value) && TableScanned(cache.value, root, done, seen))
  }

  ghost predicate TableScanned(table: Table, root: Pid, done: set<Pid>, seen: set<Pid>) {
    seen <= TableClosure(table, root) && forall c {:trigger table[c]} :: c in table && table[c] in done ==> c in seen
  }

  lemma DescendantsLater(before: Sys, now: Sys, root: Pid, seen: set<Pid>)
    requires ValidSys(before) && Extends(before, now) && seen <= Descendants(before, root)
    ensures seen <= Descendants(now, root)
  {
    ExtendedDescendants(before, now, root);
  }

  /** Children of the tree are of the tree. */
  lemma ChildrenAreBelow(start: Sys, now: Sys, root: Pid, seen: set<Pid>, p: Pid, children: set<Pid>)
    requires seen <= Descendants(now, root) && (p == root || p in seen)
    requires forall c :: c in children ==> TrueRow(start, now, c, p)
    ensures seen + children <= Descendants(now, root)
  {
    forall c | c in children ensures c in Descendants(now, root) {
      assert TrueRow(start, now, c, p);
      assert StartedBy(now, root, Descendants(now, root), c);
      ChildOfTreeIsBelow(now, root, c);
    }
  }

  lemma TableScannedOnce(table: Table, root: Pid, done: set<Pid>, seen: set<Pid>, p: Pid)
    requires TableScanned(table, root, done, seen) && (p == root || p in seen)
    ensures TableScanned(table, root, done + {p}, seen + TableChildren(table, p))
  {
    forall c, pids: set<Pid> | c in TableChildren(table, p) && TableClosed(table, root, pids) ensures c in pids {
      assert table[c] == p;
    }
  }

  lemma DoneStaysCovered(start: Sys, before: Sys, now: Sys, done: set<Pid>, seen: set<Pid>, p: Pid, children: set<Pid>)
    requires ValidSys(start) && Extends(start, before) && Extends(before, now)
    requires (forall d :: d in done ==> StayersIn(start, before, d, seen)) && StayersIn(start, now, p, children)
    ensures forall d :: d in done + {p} ==> StayersIn(start, now, d, seen + children)
  {
    forall d | d in done ensures StayersIn(start, now, d, seen) {
      StayersInLater(start, before, now, d, seen);
    }
  }

  /** Taking the children of the last listed process keeps the scan going. */
  lemma ScanStep(start: Sys, before: Sys, now: Sys, root: Pid, cache: Option<Table>, cache': Option<Table>,
                 done: set<Pid>, seen: set<Pid>, q: seq<Pid>, children: set<Pid>, q': seq<Pid>)
    requires ValidSys(start) && q != [] && Scanning(start, before, root, cache, done, seen, q)
    requires ValidSys(now) && Extends(before, now)
    requires cache.Some? ==> cache' == cache
    requires cache'.Some? ==> cache.Some? || done == {}
    requires cache'.Some? ==> TableFits(start, now, cache'.value) && children == TableChildren(cache'.value, q[|q| - 1])
    requires StayersIn(start, now, q[|q| - 1], children)
    requires forall c :: c in children ==> TrueRow(start, now, c, q[|q| - 1])
    requires forall p :: p in q' <==> p in q[..|q| - 1] || (p in children && p !in seen)
    ensures Scanning(start, now, root, cache', done + {q[|q| - 1]}, seen + children, q')
  {
    assert forall c :: c in children ==> TrueRow(start, now, c, q[|q| - 1]);
    var p := q[|q| - 1];
    assert q == q[..|q| - 1] + [p];
    DescendantsLater(before, now, root, seen);
    ChildrenAreBelow(start, now, root, seen, p, children);
    DoneStaysCovered(start, before, now, done, seen, p, children);
    if cache'.Some? {
      TableScannedOnce(cache'.value, root, done, seen, p);
    }
  }

  /** The worklist scan. On Linux the table of all processes is read first (`caches`), entry by entry; on macOS
    * the children of each process are read when it is taken from the list. Whatever forks and exits meanwhile,
    * it finds only descendants, and every child that stays alive of what it finds; out of a table it finds
    * exactly the closure of the rows. */
  method DescendantsNative(k: Kernel, root: Pid, caches: bool) returns (seen: set<Pid>, ghost table: Table)
    requires ValidSys(k.sys)
    modifies k
    ensures ValidSys(k.sys) && Reaches(old(k.sys), k.sys) && Extends(old(k.sys), k.sys)
    ensures seen <= Descendants(k.sys, root)
    ensures forall p :: p in seen + {root} ==> StayersIn(old(k.sys), k.sys, p, seen)
    ensures caches ==> TableFits(old(k.sys), k.sys, table) && seen == TableClosure(table, root)
    ensures LivedThrough(old(k.sys), seen)
    ensures old(Rooted(k.sys, root)) && k.sys == old(k.sys) ==> seen == ListedDescendants(k.sys, root)
  {
    var cache: Option<Table> := None;
    ghost var start := k.sys;
    ghost var done: set<Pid> := {};
    seen := {};
    var q := [root];
    ReachesItself(start);
    while q != []
      invariant Reaches(start, k.sys) && Scanning(start, k.sys, root, cache, done, seen, q)
      invariant cache.Some? <==> caches && done != {}
      decreases (set p: nat | p < 0x1_0000_0000 && IsPid(p)) - seen, |q|
    {
      var p := q[|q| - 1];
      ghost var before, q0, seen0, cache0 := k.sys, q, seen, cache;
      q := q[..|q| - 1];
      var children;
      children, cache := NativeChildren(k, p, cache, caches, start);
      seen, q := Enlist(seen, q, children);
      ScanStep(start, before, k.sys, root, cache0, cache, done, seen0, q0, children, q);
      ReachesIsTransitive(start, before, k.sys);
      done := done + {p};
    }
    assert root in done;
    table := if cache.Some? then cache.value else map[];
    if caches {
      assert TableClosed(table, root, seen);
    }
    if Rooted(start, root) && k.sys == start {
      QuietScanIsExact(start, root, seen);
    }
  }

  /** A scan during which nothing happened finds exactly the closure of the child relation, on either platform. */
  lemma QuietScanIsExact(s: Sys, root: Pid, seen: set<Pid>)
    requires ValidSys(s) && Rooted(s, root) && seen <= Descendants(s, root) && LivedThrough(s, seen)
    requires forall p :: p in seen + {root} ==> StayersIn(s, s, p, seen)
    ensures seen == ListedDescendants(s, root)
  {
    ListedIsLivingTree(s, root);
    forall c | Listed(s, root, seen, c) ensures c in seen {
      assert StayersIn(s, s, s.parent[c], seen) && Stays(s, s, s.parent[c], c);
    }
    assert ListClosed(s, root, seen);
  }

  /** Out of a table it does so also when processes have left the tree. */
  lemma QuietTableScanIsExact(s: Sys, root: Pid, table: Table)
    requires ValidSys(s) && TableFits(s, s, table)
    ensures TableClosure(table, root) == ListedDescendants(s, root)
  {
    QuietTableIsExact(s, table);
    InstantClosure(s, root);
  }

  /** Adds the children not seen before to both. */
  method Enlist(seen: set<Pid>, q: seq<Pid>, children: set<Pid>) returns (seen': set<Pid>, q': seq<Pid>)
    ensures seen' == seen + children
    ensures forall p :: p in q' <==> p in q || (p in children && p !in seen)
    ensures children <= seen ==> q' == q
  {
    seen', q' := seen, q;
    var todo := children;
    while todo != {}
      invariant todo <= children && seen' == seen + (children - todo)
      invariant forall p :: p in q' <==> p in q || (p in children && p !in seen && p !in todo)
      invariant children <= seen ==> q' == q
      decreases todo
    {
      var c :| c in todo;
      todo := todo - {c};
      if c !in seen' {
        seen', q' := seen' + {c}, q' + [c];
      }
    }
  }

  // ---------- stop, rescan, kill ----------

  /** Every process on the stop list was recorded, and is stopped unless it is dead. */
  ghost predicate StopListed(s: Sys, stopped: set<Pid>) {
    forall p :: p in stopped ==> p in s.parent && (p in s.alive ==> p in s.stopped)
  }

  lemma StopListLater(a: Sys, b: Sys, stopped: set<Pid>)
    requires Extends(a, b) && StopListed(a, stopped)
    ensures StopListed(b, stopped)
  {
  }

  /** Everything alive below the root is among `pids`. */
  ghost predicate TreeWithin(s: Sys, root: Pid, pids: set<Pid>) {
    forall c :: c in s.alive && c in Descendants(s, root) ==> c in pids
  }

  /** Every living child of a found process was alive when the scan started. */
  ghost predicate ChildrenWereThere(start: Sys, end: Sys, root: Pid, seen: set<Pid>) {
    forall c :: c in end.alive && c in end.parent && end.parent[c] in seen + {root} && end.parent[c] in end.alive
      ==> c in start.alive
  }

  lemma StayersCoverTree(start: Sys, end: Sys, root: Pid, seen: set<Pid>)
    requires Rooted(end, root) && ChildrenWereThere(start, end, root, seen)
    requires forall p :: p in seen + {root} ==> StayersIn(start, end, p, seen)
    ensures TreeWithin(end, root, seen)
  {
    var rest := set q | q in end.parent && (q !in end.alive || q !in Descendants(end, root));
    forall c | StartedBy(end, root, seen + rest, c) ensures c in seen + rest {
      if c in end.alive && c in Descendants(end, root) {
        var p := end.parent[c];
        BelowHasParentInTree(end, root, c);
        assert p in end.alive && p in seen + {root};
        assert StayersIn(start, end, p, seen) && Stays(start, end, p, c);
      }
    }
    assert Closed(end, root, seen + rest);
    forall c | c in end.alive && c in Descendants(end, root) ensures c in seen {
      assert InEveryClosed(end, root, c);
    }
  }

  /** A scan that found nothing outside the stop list has found the whole living tree, and all of it is
    * stopped, although other processes kept forking while the scan ran. */
  lemma QuietScanFreezes(start: Sys, end: Sys, root: Pid, stopped: set<Pid>, seen: set<Pid>)
    requires ValidSys(start) && Rooted(start, root) && Reaches(start, end)
    requires root in stopped && seen <= stopped && StopListed(start, stopped)
    requires forall p :: p in seen + {root} ==> StayersIn(start, end, p, seen)
    ensures TreeWithin(end, root, seen) && Frozen(end, root)
  {
    ReachedExtends(start, end, root);
    StayersCoverTree(start, end, root, seen);
  }

  lemma StopKeeps(before: Sys, after: Sys, p: Pid, root: Pid, stopped: set<Pid>)
    requires ValidSys(before) && Rooted(before, root) && StopListed(before, stopped) && p in before.parent
    requires after == before.(stopped := before.stopped + if p in before.alive then {p} else {})
    ensures ValidSys(after) && Rooted(after, root) && StopListed(after, stopped + {p})
  {
    forall q | q in after.parent ensures ParentRecorded(after, q) {
      assert ParentRecorded(before, q);
    }
    forall pids ensures Closed(before, root, pids) <==> Closed(after, root, pids) {
      assert forall c :: StartedBy(before, root, pids, c) <==> StartedBy(after, root, pids, c);
    }
    assert forall q :: InEveryClosed(before, root, q) <==> InEveryClosed(after, root, q);
    assert Descendants(before, root) == Descendants(after, root);
  }

  /** Everything on the stop list belongs to the tree. */
  ghost predicate InTree(s: Sys, root: Pid, stopped: set<Pid>) {
    root in s.parent && stopped <= Descendants(s, root) + {root}
  }

  lemma InTreeLater(a: Sys, b: Sys, root: Pid, stopped: set<Pid>)
    requires ValidSys(a) && Extends(a, b) && InTree(a, root, stopped)
    ensures InTree(b, root, stopped)
  {
    ExtendedDescendants(a, b, root);
  }

  lemma SameParentSameTree(a: Sys, b: Sys, root: Pid)
    requires a.parent == b.parent
    ensures Descendants(a, root) == Descendants(b, root)
  {
    forall s ensures Closed(a, root, s) <==> Closed(b, root, s) {
      assert forall c :: StartedBy(a, root, s, c) <==> StartedBy(b, root, s, c);
    }
    assert forall q :: InEveryClosed(a, root, q) <==> InEveryClosed(b, root, q);
  }

  /** While no process is started the living tree only shrinks. */
  lemma TreeShrinks(a: Sys, b: Sys, root: Pid, pids: set<Pid>)
    requires ValidSys(b) && Aged(a, b) && a.parent == b.parent && TreeWithin(a, root, pids)
    ensures TreeWithin(b, root, pids)
  {
    SameParentSameTree(a, b, root);
  }

  /** While no process is started a scan finds the whole living tree. */
  lemma ScanFindsTree(start: Sys, end: Sys, root: Pid, seen: set<Pid>)
    requires ValidSys(start) && Rooted(start, root) && Reaches(start, end) && start.parent == end.parent
    requires forall p :: p in seen + {root} ==> StayersIn(start, end, p, seen)
    ensures TreeWithin(end, root, seen)
  {
    ReachedExtends(start, end, root);
    StayersCoverTree(start, end, root, seen);
  }

  /** A scan that starts with the whole living tree on the list finds nothing new while no process is started. */
  lemma ScanFindsNothingNew(start: Sys, end: Sys, root: Pid, seen: set<Pid>, stopped: set<Pid>)
    requires start.parent == end.parent && TreeWithin(start, root, stopped)
    requires ValidSys(end) && seen <= Descendants(end, root) && LivedThrough(start, seen)
    ensures seen <= stopped
  {
    SameParentSameTree(start, end, root);
    forall c | c in seen ensures c in stopped {
      assert c in end.parent;
    }
  }

  lemma StopKeepsTree(before: Sys, after: Sys, root: Pid, pids: set<Pid>)
    requires after.parent == before.parent && InTree(before, root, pids)
    ensures InTree(after, root, pids)
  {
    SameParentSameTree(before, after, root);
  }

  lemma StopOne(start: Sys, before: Sys, running: Sys, now: Sys, root: Pid, p: Pid, stopped: set<Pid>, tree: set<Pid>)
    requires ValidSys(before) && Rooted(before, root) && StopListed(before, stopped) && InTree(before, root, tree)
    requires p in tree && Aged(start, before) && Reaches(before, running)
    requires now == running.(stopped := running.stopped + if p in running.alive then {p} else {})
    ensures ValidSys(now) && Rooted(now, root) && StopListed(now, stopped + {p}) && InTree(now, root, tree)
    ensures Aged(start, now)
  {
    ReachedExtends(before, running, root);
    StopListLater(before, running, stopped);
    InTreeLater(before, running, root, tree);
    StopKeeps(running, now, p, root, stopped);
    StopKeepsTree(running, now, root, tree);
    AgedThrough(start, before, running);
    AgedThrough(start, running, now);
  }

  /** What holds while the processes of `tree` are being stopped, of which `stopped` are. */
  ghost predicate Stopping(start: Sys, now: Sys, root: Pid, stopped: set<Pid>, tree: set<Pid>) {
    && ValidSys(now) && Rooted(now, root) && Aged(start, now)
    && StopListed(now, stopped) && InTree(now, root, tree)
  }

  method StopNext(k: Kernel, root: Pid, p: Pid, ghost start: Sys, ghost stopped: set<Pid>, ghost tree: set<Pid>)
    requires Stopping(start, k.sys, root, stopped, tree) && p in tree
    modifies k
    ensures Stopping(start, k.sys, root, stopped + {p}, tree)
  {
    ghost var before := k.sys;
    k.Elapse();
    ghost var running := k.sys;
    k.Stop(p);
    StopOne(start, before, running, k.sys, root, p, stopped, tree);
  }

  /** Stops every unstopped process, one after the other. */
  method StopFresh(k: Kernel, root: Pid, unstopped: set<Pid>, stopped: set<Pid>) returns (stopped': set<Pid>)
    requires ValidSys(k.sys) && Rooted(k.sys, root) && StopListed(k.sys, stopped) &&
             InTree(k.sys, root, stopped + unstopped)
    modifies k
    ensures ValidSys(k.sys) && Rooted(k.sys, root) && StopListed(k.sys, stopped') && stopped' == stopped + unstopped
    ensures InTree(k.sys, root, stopped') && Aged(old(k.sys), k.sys)
  {
    stopped' := stopped;
    ghost var start := k.sys;
    var todo := unstopped;
    while todo != {}
      invariant todo <= unstopped && stopped' == stopped + (unstopped - todo)
      invariant Stopping(start, k.sys, root, stopped', stopped + unstopped)
      decreases todo
    {
      var p :| p in todo;
      todo := todo - {p};
      StopNext(k, root, p, start, stopped', stopped + unstopped);
      stopped' := stopped' + {p};
    }
  }

  /** After so many rounds the loop gives up and kills what it has. */
  const MAX_ROUNDS := 10

  /** Stops everything found, rescanning until nothing new appears; true when it ended that way. It gives up only
    * when each of eleven scans found a process that was not on the list, and while no process is started it never
    * does. */
  method StopTree(k: Kernel, root: Pid, caches: bool) returns (stopped: set<Pid>, quiet: bool, rounds: nat)
    requires ValidSys(k.sys) && Rooted(k.sys, root) && root in k.sys.parent
    modifies k
    ensures ValidSys(k.sys) && root in stopped && InTree(k.sys, root, stopped) && StopListed(k.sys, stopped)
    ensures quiet ==> Frozen(k.sys, root) && TreeWithin(k.sys, root, stopped)
    ensures 1 <= rounds <= 11 && |stopped| >= rounds
    ensures !quiet ==> rounds == 11
    ensures Aged(old(k.sys), k.sys) && (k.sys.parent == old(k.sys.parent) ==> quiet && rounds <= 2)
  {
    stopped := {root};
    ghost var before := k.sys;
    k.Stop(root);
    StopKeeps(before, k.sys, root, root, {});
    rounds := 0;
    while true
      invariant ValidSys(k.sys) && Rooted(k.sys, root) && root in stopped && InTree(k.sys, root, stopped)
      invariant StopListed(k.sys, stopped) && Aged(before, k.sys)
      invariant rounds <= MAX_ROUNDS && |stopped| >= rounds + 1
      invariant k.sys.parent == before.parent && rounds > 0 ==> rounds == 1 && TreeWithin(k.sys, root, stopped)
      decreases MAX_ROUNDS - rounds
    {
      rounds := rounds + 1;
      ghost var start := k.sys;
      ghost var table;
      var found;
      found, table := DescendantsNative(k, root, caches);
      ReachedExtends(start, k.sys, root);
      InTreeLater(start, k.sys, root, stopped);
      StopListLater(start, k.sys, stopped);
      AgedThrough(before, start, k.sys);
      var unstopped := found - stopped;
      if k.sys.parent == before.parent {
        ScanFindsTree(start, k.sys, root, found);
        if rounds > 1 { ScanFindsNothingNew(start, k.sys, root, found, stopped); }
      }
      if unstopped == {} || rounds > MAX_ROUNDS {
        quiet := unstopped == {};
        if quiet {
          assert found <= stopped + unstopped;
          QuietScanFreezes(start, k.sys, root, stopped, found);
        }
        return;
      }
      ghost var scanned, listed := k.sys, stopped;
      stopped := StopFresh(k, root, unstopped, stopped);
      AgedThrough(before, scanned, k.sys);
      Bigger(listed, unstopped);
      if k.sys.parent == before.parent { TreeShrinks(scanned, k.sys, root, stopped); }
    }
  }

  lemma Bigger(a: set<Pid>, b: set<Pid>)
    requires b != {} && a !! b
    ensures |a + b| >= |a| + 1
  {
    var x :| x in b;
    assert a + {x} <= a + b && |a + {x}| == |a| + 1;
    SubsetSize(a + {x}, a + b);
  }

  lemma SubsetSize(a: set<Pid>, b: set<Pid>)
    requires a <= b
    ensures |a| <= |b|
  {
    assert b == a + (b - a);
  }

  lemma KillKeeps(before: Sys, after: Sys, root: Pid, p: Pid)
    requires ValidSys(before) && Frozen(before, root) && after == before.(alive := before.alive - {p})
    ensures ValidSys(after) && Frozen(after, root) && Descendants(after, root) == Descendants(before, root)
  {
    forall q | q in after.parent ensures ParentRecorded(after, q) {
      assert ParentRecorded(before, q);
    }
    forall pids ensures Closed(before, root, pids) <==> Closed(after, root, pids) {
      assert forall c :: StartedBy(before, root, pids, c) <==> StartedBy(after, root, pids, c);
    }
    assert forall q :: InEveryClosed(before, root, q) <==> InEveryClosed(after, root, q);
  }

  /** Nothing of a frozen tree lives outside `pids`. */
  ghost predicate LivesWithin(s: Sys, root: Pid, pids: set<Pid>) {
    forall p :: p in s.alive && (p == root || p in Descendants(s, root)) ==> p in pids
  }

  /** The kill pass leaves nothing on its list alive, and nothing of a frozen tree, in any order and whatever else
    * runs. */
  method KillPass(k: Kernel, root: Pid, stopped: set<Pid>)
    requires ValidSys(k.sys) && InTree(k.sys, root, stopped)
    modifies k
    ensures ValidSys(k.sys) && InTree(k.sys, root, stopped) && Aged(old(k.sys), k.sys)
    ensures forall p :: p in stopped ==> p !in k.sys.alive
    ensures old(Frozen(k.sys, root) && LivesWithin(k.sys, root, stopped)) ==> LivesWithin(k.sys, root, {})
  {
    ghost var start := k.sys;
    ghost var frozen := Frozen(k.sys, root) && LivesWithin(k.sys, root, stopped);
    var todo := stopped;
    while todo != {}
      invariant todo <= stopped && ValidSys(k.sys) && InTree(k.sys, root, stopped) && Aged(start, k.sys)
      invariant forall p :: p in stopped - todo ==> p !in k.sys.alive
      invariant frozen ==> Frozen(k.sys, root) && LivesWithin(k.sys, root, todo)
      decreases todo
    {
      var p :| p in todo;
      todo := todo - {p};
      ghost var before := k.sys;
      k.Elapse();
      ReachedExtends(before, k.sys, root);
      InTreeLater(before, k.sys, root, stopped);
      ghost var running := k.sys;
      k.Kill(p);
      KillKeepsValid(running, k.sys, p);
      StopKeepsTree(running, k.sys, root, stopped);
      AgedThrough(start, before, running);
      AgedThrough(start, running, k.sys);
      if frozen {
        FrozenLivesWithin(before, running, root, todo + {p});
        KillKeeps(running, k.sys, root, p);
      }
    }
  }

  lemma KillKeepsValid(before: Sys, after: Sys, p: Pid)
    requires ValidSys(before) && after == before.(alive := before.alive - {p})
    ensures ValidSys(after)
  {
    forall q | q in after.parent ensures ParentRecorded(after, q) {
      assert ParentRecorded(before, q);
    }
  }

  lemma FrozenLivesWithin(before: Sys, after: Sys, root: Pid, pids: set<Pid>)
    requires ValidSys(before) && root in before.parent && Frozen(before, root) && Reaches(before, after)
    requires LivesWithin(before, root, pids)
    ensures ValidSys(after) && root in after.parent && Frozen(after, root) && LivesWithin(after, root, pids)
  {
    ReachedExtends(before, after, root);
    var events: seq<Event> :| RunAll(before, events) == after;
    RunKeepsFrozen(before, events, root);
  }

  /** Stop everything, rescan until nothing new appears, then kill: only processes of the tree are killed, all that
    * were stopped are dead, and when the loop ended because nothing was new, neither the root nor any process it ever
    * started, directly or not, is alive at the end. When no process is started meanwhile, it ends that way. */
  method KillAll(k: Kernel, root: Pid, caches: bool) returns (killed: set<Pid>, quiet: bool, rounds: nat)
    requires ValidSys(k.sys) && Rooted(k.sys, root) && root in k.sys.parent
    modifies k
    ensures InTree(k.sys, root, killed) && root in killed && forall p :: p in killed ==> p !in k.sys.alive
    ensures quiet ==> forall p :: p in Descendants(k.sys, root) ==> p !in k.sys.alive
    ensures !quiet ==> rounds == 11 && |killed| >= 11
    ensures k.sys.parent == old(k.sys.parent) ==> quiet
  {
    ghost var start := k.sys;
    killed, quiet, rounds := StopTree(k, root, caches);
    ghost var stopped := k.sys;
    KillPass(k, root, killed);
    AgedThrough(start, stopped, k.sys);
  }
}
