/** The previous holder's process domain as the next lock holder sees it (tools/platform-probe/src/windows.rs).
  *
  * Membership is the union of three sources, read again on every query; each process named is tracked
  * through a handle opened the first time it was named.
  */
module JobDomain {
  import opened Wrappers
  import opened ProcessChain

  /** The process a handle refers to, whatever its pid is later used for. */
  type Handle = nat

  datatype Holder = Holder(pid: Pid, created: Stamp)

  /** Which of the three sources named a process. */
  datatype Sources = Sources(list: bool, scan: bool, tree: bool) {
    function Or(other: Sources): Sources {
      Sources(list || other.list, scan || other.scan, tree || other.tree)
    }
  }

  const NO_SOURCES := Sources(false, false, false)

  /** What one query reads, at one instant: the job's id list, the process snapshot, which process each pid
    * would open, the job's count of active processes (None when that query fails) and the processes
    * that are not signaled. */
  datatype Reading = Reading(
    list: seq<Pid>, procs: seq<ProcInfo>, opens: map<Pid, Handle>, active: Option<nat>, running: set<Handle>)

  datatype Member = Member(pid: Pid, handle: Handle, open: Sources, ever: Sources)

  // ---------- what a reading names ----------

  ghost function TreeOf(r: Reading, holder: Option<Holder>): set<Pid> {
    if holder.None? then {} else ChainResult(r.procs, holder.value.pid, holder.value.created)
  }

  ghost function SourcesOf(r: Reading, holder: Option<Holder>, pid: Pid): Sources {
    Sources(pid in r.list, exists p :: p in r.procs && p.inJob && p.pid == pid, pid in TreeOf(r, holder))
  }

  ghost predicate Named(r: Reading, holder: Option<Holder>, pid: Pid) {
    SourcesOf(r, holder, pid) != NO_SOURCES
  }

  /** The handle `pid` is tracked by after these readings: the one opened when it was first named and opened. */
  ghost function TrackedBy(readings: seq<Reading>, holder: Option<Holder>, pid: Pid): Option<Handle> {
    if readings == [] then None
    else
      var last := readings[|readings| - 1];
      var before := TrackedBy(readings[..|readings| - 1], holder, pid);
      if before.None? && Named(last, holder, pid) && pid in last.opens then Some(last.opens[pid]) else before
  }

  /** The union empty rule after the last of these readings: the job counts nothing, and every process
    * ever named and opened is signaled. */
  ghost predicate EmptyAfter(readings: seq<Reading>, holder: Option<Holder>) {
    && readings != []
    && var last := readings[|readings| - 1];
    && last.active == Some(0)
    && forall pid :: TrackedBy(readings, holder, pid).Some? ==> TrackedBy(readings, holder, pid).value !in last.running
  }

  // ---------- the rule on the readings themselves ----------

  /** Reading `k` names the process by some source, and its pid opens. */
  ghost predicate OpensAt(readings: seq<Reading>, holder: Option<Holder>, pid: Pid, k: nat) {
    && k < |readings| && pid in readings[k].opens
    && (pid in readings[k].list
        || (exists p :: p in readings[k].procs && p.inJob && p.pid == pid)
        || (holder.Some? && pid in ChainResult(readings[k].procs, holder.value.pid, holder.value.created)))
  }

  ghost predicate FirstOpensAt(readings: seq<Reading>, holder: Option<Holder>, pid: Pid, k: nat) {
    && OpensAt(readings, holder, pid, k)
    && forall j: nat {:trigger OpensAt(readings, holder, pid, j)} :: j < k ==> !OpensAt(readings, holder, pid, j)
  }

  /** A process is tracked by the handle that the first reading naming and opening it gave. */
  lemma {:induction false} TrackedByIff(readings: seq<Reading>, holder: Option<Holder>, pid: Pid, h: Handle)
    ensures TrackedBy(readings, holder, pid) == Some(h) <==>
            exists k: nat :: FirstOpensAt(readings, holder, pid, k) && readings[k].opens[pid] == h
    ensures TrackedBy(readings, holder, pid).None? <==> forall k: nat :: !OpensAt(readings, holder, pid, k)
  {
    if readings != [] {
      var n := |readings| - 1;
      var front := readings[..n];
      TrackedByIff(front, holder, pid, h);
      assert OpensAt(readings, holder, pid, n) <==>
             pid in readings[n].opens && Named(readings[n], holder, pid);
      forall k: nat | k < n
        ensures OpensAt(readings, holder, pid, k) <==> OpensAt(front, holder, pid, k)
      {
      }
      OpensOneMore(readings, holder, pid, h);
    }
  }

  lemma OpensOneMore(readings: seq<Reading>, holder: Option<Holder>, pid: Pid, h: Handle)
    requires readings != []
    ensures var n := |readings| - 1;
      (exists k: nat :: FirstOpensAt(readings, holder, pid, k) && readings[k].opens[pid] == h) <==>
        || (exists k: nat :: FirstOpensAt(readings[..n], holder, pid, k) && readings[k].opens[pid] == h)
        || ((forall k: nat :: !OpensAt(readings[..n], holder, pid, k))
            && OpensAt(readings, holder, pid, n) && readings[n].opens[pid] == h)
  {
    var n := |readings| - 1;
    var front := readings[..n];
    forall k: nat ensures OpensAt(front, holder, pid, k) <==> k < n && OpensAt(readings, holder, pid, k) {
    }
    forall k: nat | k < n
      ensures FirstOpensAt(front, holder, pid, k) <==> FirstOpensAt(readings, holder, pid, k)
    {
    }
    if k: nat :| FirstOpensAt(front, holder, pid, k) && readings[k].opens[pid] == h {
      assert FirstOpensAt(readings, holder, pid, k);
    }
    if (forall k: nat :: !OpensAt(front, holder, pid, k)) && OpensAt(readings, holder, pid, n) {
      assert FirstOpensAt(readings, holder, pid, n);
    }
  }

  /** The domain is empty exactly when the job counts nothing and no handle that a first naming opened is running. */
  lemma EmptyAfterIff(readings: seq<Reading>, holder: Option<Holder>)
    ensures EmptyAfter(readings, holder) <==>
      && readings != [] && readings[|readings| - 1].active == Some(0)
      && forall pid, k: nat :: FirstOpensAt(readings, holder, pid, k) ==>
           readings[k].opens[pid] !in readings[|readings| - 1].running
  {
    forall pid: Pid, h: Handle ensures TrackedBy(readings, holder, pid) == Some(h) <==>
        exists k: nat :: FirstOpensAt(readings, holder, pid, k) && readings[k].opens[pid] == h {
      TrackedByIff(readings, holder, pid, h);
    }
    forall pid, k: nat | FirstOpensAt(readings, holder, pid, k)
      ensures TrackedBy(readings, holder, pid) == Some(readings[k].opens[pid])
    {
    }
  }

  // ---------- the tracked members ----------

  ghost predicate OnePerPid(members: seq<Member>) {
    forall i, j :: 0 <= i < j < |members| ==> members[i].pid != members[j].pid
  }

  function Position(members: seq<Member>, pid: Pid): (at: Option<nat>)
    ensures at.None? <==> forall m :: m in members ==> m.pid != pid
    ensures at.Some? ==> at.value < |members| && members[at.value].pid == pid
  {
    if members == [] then None
    else if members[|members| - 1].pid == pid then Some(|members| - 1)
    else Position(members[..|members| - 1], pid)
  }

  function Lookup(members: seq<Member>, pid: Pid): Option<Member> {
    var at := Position(members, pid);
    if at.None? then None else Some(members[at.value])
  }

  /** The entry of a pid that was just named: opened when it is new, its sources added up. */
  function Noted(entry: Option<Member>, opens: map<Pid, Handle>, pid: Pid, named: Sources,
                 atOpen: bool): Option<Member> {
    if entry.None? && pid !in opens then None
    else
      var m := if entry.Some? then entry.value else Member(pid, opens[pid], NO_SOURCES, NO_SOURCES);
      Some(m.(ever := m.ever.Or(named), open := if atOpen then named else m.open))
  }

  /** What one reading does to the entry of one pid. */
  ghost function Updated(entry: Option<Member>, r: Reading, holder: Option<Holder>, pid: Pid,
                         atOpen: bool): Option<Member> {
    if Named(r, holder, pid) then Noted(entry, r.opens, pid, SourcesOf(r, holder, pid), atOpen) else entry
  }

  /** The number of tracked processes that are still running. */
  function Pending(members: seq<Member>, running: set<Handle>): (n: nat)
    ensures n == 0 <==> forall m :: m in members ==> m.handle !in running
  {
    if members == [] then 0
    else
      var last := members[|members| - 1];
      assert members == members[..|members| - 1] + [last];
      Pending(members[..|members| - 1], running) + if last.handle in running then 1 else 0
  }

  lemma LookupAfterPut(members: seq<Member>, m: Member)
    requires OnePerPid(members)
    ensures var at := Position(members, m.pid);
            var after := if at.Some? then members[at.value := m] else members + [m];
            && OnePerPid(after)
            && forall pid :: Lookup(after, pid) == if pid == m.pid then Some(m) else Lookup(members, pid)
  {
    var at := Position(members, m.pid);
    var after := if at.Some? then members[at.value := m] else members + [m];
    forall i, j | 0 <= i < j < |after| ensures after[i].pid != after[j].pid {
      if at.None? && j == |members| {
        assert members[i] in members;
      }
    }
    forall pid ensures Lookup(after, pid) == if pid == m.pid then Some(m) else Lookup(members, pid) {
      if at.Some? {
        assert after[at.value] in after;
      } else {
        assert after[|members|] in after;
      }
      var was, now := Position(members, pid), Position(after, pid);
      if pid != m.pid && was.Some? {
        assert after[was.value] in after;
      }
      if pid != m.pid && now.Some? {
        assert members[now.value] in members;
      }
    }
  }

  /** The entries of a domain agree with the readings taken. */
  ghost predicate Agrees(members: seq<Member>, seen: seq<Reading>, holder: Option<Holder>) {
    forall pid {:trigger Lookup(members, pid)} {:trigger TrackedBy(seen, holder, pid)} ::
      match Lookup(members, pid)
      case None => TrackedBy(seen, holder, pid).None?
      case Some(m) => TrackedBy(seen, holder, pid) == Some(m.handle)
  }

  // ---------- who named a process ----------

  /** The process is tracked after reading `k`. */
  ghost predicate TrackedAfter(seen: seq<Reading>, holder: Option<Holder>, pid: Pid, k: nat) {
    k < |seen| && TrackedBy(seen[..k + 1], holder, pid).Some?
  }

  /** Reading `k` named the tracked process through the job's list. */
  ghost predicate ListedIn(seen: seq<Reading>, holder: Option<Holder>, pid: Pid, k: nat) {
    TrackedAfter(seen, holder, pid, k) && pid in seen[k].list
  }

  ghost predicate ScannedIn(seen: seq<Reading>, holder: Option<Holder>, pid: Pid, k: nat) {
    TrackedAfter(seen, holder, pid, k) && exists p :: p in seen[k].procs && p.inJob && p.pid == pid
  }

  ghost predicate WalkedIn(seen: seq<Reading>, holder: Option<Holder>, pid: Pid, k: nat) {
    && TrackedAfter(seen, holder, pid, k)
    && holder.Some? && pid in ChainResult(seen[k].procs, holder.value.pid, holder.value.created)
  }

  /** The sources that named the process in some reading since it is tracked. */
  ghost function EverOf(seen: seq<Reading>, holder: Option<Holder>, pid: Pid): Sources {
    Sources(exists k: nat :: ListedIn(seen, holder, pid, k),
            exists k: nat :: ScannedIn(seen, holder, pid, k),
            exists k: nat :: WalkedIn(seen, holder, pid, k))
  }

  lemma {:induction false} UntrackedBefore(seen: seq<Reading>, holder: Option<Holder>, pid: Pid, k: nat)
    requires k <= |seen| && TrackedBy(seen, holder, pid).None?
    ensures TrackedBy(seen[..k], holder, pid).None?
  {
    if k == |seen| {
      assert seen[..k] == seen;
    } else {
      UntrackedBefore(seen[..|seen| - 1], holder, pid, k);
      assert seen[..|seen| - 1][..k] == seen[..k];
    }
  }

  lemma EverUntracked(seen: seq<Reading>, holder: Option<Holder>, pid: Pid)
    requires TrackedBy(seen, holder, pid).None?
    ensures EverOf(seen, holder, pid) == NO_SOURCES
  {
    forall k: nat ensures !TrackedAfter(seen, holder, pid, k) {
      if k < |seen| { UntrackedBefore(seen, holder, pid, k + 1); }
    }
  }

  /** One more reading adds the sources it names the process by, if it is tracked then. */
  lemma EverOneMore(seen: seq<Reading>, r: Reading, holder: Option<Holder>, pid: Pid)
    ensures EverOf(seen + [r], holder, pid) ==
            if TrackedBy(seen + [r], holder, pid).Some? then EverOf(seen, holder, pid).Or(SourcesOf(r, holder, pid))
            else EverOf(seen, holder, pid)
  {
    var more, n := seen + [r], |seen|;
    assert more[..n + 1] == more;
    forall k: nat | k < n
      ensures ListedIn(more, holder, pid, k) <==> ListedIn(seen, holder, pid, k)
      ensures ScannedIn(more, holder, pid, k) <==> ScannedIn(seen, holder, pid, k)
      ensures WalkedIn(more, holder, pid, k) <==> WalkedIn(seen, holder, pid, k)
    {
      assert more[..k + 1] == seen[..k + 1];
    }
    var tracked := TrackedBy(more, holder, pid).Some?;
    assert ListedIn(more, holder, pid, n) <==> tracked && pid in r.list;
    assert ScannedIn(more, holder, pid, n) <==> tracked && exists p :: p in r.procs && p.inJob && p.pid == pid;
    assert WalkedIn(more, holder, pid, n) <==> tracked && pid in TreeOf(r, holder);
  }

  ghost predicate EverAgrees(members: seq<Member>, seen: seq<Reading>, holder: Option<Holder>) {
    forall pid {:trigger Lookup(members, pid)} ::
      Lookup(members, pid).Some? ==> Lookup(members, pid).value.ever == EverOf(seen, holder, pid)
  }

  lemma EverAfter(before: seq<Member>, after: seq<Member>, seen: seq<Reading>, r: Reading, holder: Option<Holder>,
                  atOpen: bool)
    requires Agrees(before, seen, holder) && EverAgrees(before, seen, holder) && Agrees(after, seen + [r], holder)
    requires forall pid :: Lookup(after, pid) == Updated(Lookup(before, pid), r, holder, pid, atOpen)
    ensures EverAgrees(after, seen + [r], holder)
  {
    forall pid | Lookup(after, pid).Some? ensures Lookup(after, pid).value.ever == EverOf(seen + [r], holder, pid) {
      EverOneMore(seen, r, holder, pid);
      if Lookup(before, pid).None? { EverUntracked(seen, holder, pid); }
    }
  }

  /** What the opening read named a process by is kept beside what later reads add. */
  lemma OpenSources(entry: Option<Member>, r: Reading, holder: Option<Holder>, pid: Pid, atOpen: bool)
    ensures var after := Updated(entry, r, holder, pid, atOpen);
      && (after.Some? <==> entry.Some? || (Named(r, holder, pid) && pid in r.opens))
      && (after.Some? ==>
            after.value.open == if atOpen && Named(r, holder, pid) then SourcesOf(r, holder, pid)
                                else if entry.Some? then entry.value.open else NO_SOURCES)
  {
  }

  lemma LookupAt(members: seq<Member>, i: nat)
    requires OnePerPid(members) && i < |members|
    ensures Lookup(members, members[i].pid) == Some(members[i])
  {
  }

  lemma AgreesAfter(before: seq<Member>, after: seq<Member>, seen: seq<Reading>, r: Reading, holder: Option<Holder>,
                    atOpen: bool)
    requires Agrees(before, seen, holder)
    requires forall pid :: Lookup(after, pid) == Updated(Lookup(before, pid), r, holder, pid, atOpen)
    ensures Agrees(after, seen + [r], holder)
  {
  }

  /** The union of the three sources, with who named each process. */
  method NameAll(r: Reading, holder: Option<Holder>) returns (named: map<Pid, Sources>)
    requires UniquePids(r.procs)
    ensures forall pid :: pid in named <==> Named(r, holder, pid)
    ensures forall pid :: pid in named ==> named[pid] == SourcesOf(r, holder, pid)
  {
    var listed := set p | p in r.list;
    var scanned := set p | p in r.procs && p.inJob :: p.pid;
    var tree: seq<Pid> := [];
    if holder.Some? {
      tree := ChainFrom(r.procs, holder.value.pid, holder.value.created);
      assert forall pid :: pid in tree <==> pid in (set p | p in tree);
    }
    assert forall pid: Pid :: pid in tree <==> pid in TreeOf(r, holder);
    var inTree := set p | p in tree;
    named := map pid | pid in listed + scanned + inTree :: Sources(pid in listed, pid in scanned, pid in inTree);
  }

  class Dom {
    const holder: Option<Holder>
    var members: seq<Member>
    /** Every reading taken so far. */
    ghost var seen: seq<Reading>

    ghost predicate Valid()
      reads this
    {
      OnePerPid(members) && Agrees(members, seen, holder) && EverAgrees(members, seen, holder)
    }

    constructor (holder: Option<Holder>)
      ensures Valid() && this.holder == holder && members == [] && seen == []
    {
      this.holder := holder;
      members, seen := [], [];
    }

    method Put(m: Member)
      requires OnePerPid(members)
      modifies `members
      ensures OnePerPid(members)
      ensures forall pid :: Lookup(members, pid) == if pid == m.pid then Some(m) else old(Lookup(members, pid))
    {
      LookupAfterPut(members, m);
      var at := Position(members, m.pid);
      members := if at.Some? then members[at.value := m] else members + [m];
    }

    /** Re-reads the union and tracks every process named for the first time. */
    method Refresh(r: Reading, atOpen: bool)
      requires Valid() && UniquePids(r.procs)
      modifies this
      ensures Valid() && seen == old(seen) + [r]
      ensures forall pid :: Lookup(members, pid) == Updated(old(Lookup(members, pid)), r, holder, pid, atOpen)
    {
      ghost var before := members;
      var named := NameAll(r, holder);
      var todo := named.Keys;
      while todo != {}
        invariant OnePerPid(members) && seen == old(seen) && todo <= named.Keys
        invariant forall pid :: Lookup(members, pid) ==
                                if pid in todo then Lookup(before, pid)
                                else Updated(Lookup(before, pid), r, holder, pid, atOpen)
        decreases todo
      {
        var pid :| pid in todo;
        todo := todo - {pid};
        var noted := Noted(Lookup(members, pid), r.opens, pid, named[pid], atOpen);
        if noted.Some? {
          Put(noted.value);
        }
      }
      AgreesAfter(before, members, seen, r, holder, atOpen);
      EverAfter(before, members, seen, r, holder, atOpen);
      seen := seen + [r];
    }

    /** The number of members still alive, or None when the job could not be asked. */
    method Active(r: Reading) returns (n: Option<nat>)
      requires Valid() && UniquePids(r.procs)
      modifies this
      ensures Valid() && seen == old(seen) + [r]
      ensures n == if r.active.None? then None
                   else Some(if r.active.value < Pending(members, r.running) then Pending(members, r.running)
                       else r.active.value)
      ensures n == Some(0) <==> EmptyAfter(seen, holder)
    {
      Refresh(r, false);
      PendingIsUnsignaled(members, seen, holder, r.running);
      if r.active.None? {
        return None;
      }
      var pending := Pending(members, r.running);
      n := Some(if r.active.value < pending then pending else r.active.value);
    }
  }

  /** Counting the entries still running answers whether any tracked process is. */
  lemma PendingIsUnsignaled(members: seq<Member>, seen: seq<Reading>, holder: Option<Holder>, running: set<Handle>)
    requires OnePerPid(members) && Agrees(members, seen, holder)
    ensures Pending(members, running) == 0 <==>
            forall pid :: TrackedBy(seen, holder, pid).Some? ==> TrackedBy(seen, holder, pid).value !in running
  {
    if Pending(members, running) == 0 {
      forall pid | TrackedBy(seen, holder, pid).Some? ensures TrackedBy(seen, holder, pid).value !in running {
        assert Lookup(members, pid).value in members;
      }
    } else {
      var m :| m in members && m.handle in running;
      var i :| 0 <= i < |members| && members[i] == m;
      LookupAt(members, i);
      assert Lookup(members, m.pid) == Some(m);
      assert TrackedBy(seen, holder, m.pid) == Some(m.handle);
    }
  }
}
