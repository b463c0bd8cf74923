/** Which processes of one snapshot descend from a recorded holder (tools/platform-probe/src/windows.rs).
  *
  * A snapshot row names its parent by pid only, and pids are reused. The walk therefore also compares
  * creation times. This module states the walk as a least fixed point and compares it with the true
  * parent relation of an arbitrary operating-system history.
  */
module ProcessChain {
  import opened Wrappers

  type Pid = nat
  type Stamp = nat

  /** One row of a process snapshot; `created` is None when the process could not be opened. */
  datatype ProcInfo = ProcInfo(pid: Pid, ppid: Pid, created: Option<Stamp>, inJob: bool)

  /** Snapshot rows come out of a map keyed by pid. */
  ghost predicate UniquePids(procs: seq<ProcInfo>) {
    forall i, j :: 0 <= i < j < |procs| ==> procs[i].pid != procs[j].pid
  }

  ghost predicate NoDuplicates<T>(s: seq<T>) {
    forall i, j :: 0 <= i < j < |s| ==> s[i] != s[j]
  }

  /** A row for the holder's pid that belongs to another process. */
  predicate TakesOverHolderPid(p: ProcInfo, holder: Pid, holderCreated: Stamp) {
    p.pid == holder && p.created.Some? && p.created.value != holderCreated
  }

  /** When the process now listed under the holder's pid started, if that is not the holder. */
  function ReusedSince(procs: seq<ProcInfo>, holder: Pid, holderCreated: Stamp): (since: Option<Stamp>)
    ensures since.None? <==> forall p :: p in procs ==> !TakesOverHolderPid(p, holder, holderCreated)
    ensures since.Some? ==>
              exists p :: p in procs && TakesOverHolderPid(p, holder, holderCreated) && p.created == since
  {
    if procs == [] then None
    else if TakesOverHolderPid(procs[0], holder, holderCreated) then procs[0].created
    else ReusedSince(procs[1..], holder, holderCreated)
  }

  predicate BornBefore(created: Stamp, since: Option<Stamp>) {
    since.None? || created < since.value
  }

  // ---------- the walk as a least fixed point ----------

  /** Row `p` is linked as soon as all pids in `linked` are. */
  ghost predicate Links(procs: seq<ProcInfo>, holder: Pid, holderCreated: Stamp, linked: set<Pid>, p: ProcInfo) {
    && p in procs && p.created.Some? && p.pid != holder
    && if p.ppid == holder then
         holderCreated <= p.created.value && BornBefore(p.created.value, ReusedSince(procs, holder, holderCreated))
       else
         && p.ppid in linked
         && exists q :: q in procs && q.pid == p.ppid && q.created.Some? && q.created.value <= p.created.value
  }

  ghost predicate Closed(procs: seq<ProcInfo>, holder: Pid, holderCreated: Stamp, linked: set<Pid>) {
    forall p :: Links(procs, holder, holderCreated, linked, p) ==> p.pid in linked
  }

  ghost predicate InEveryClosed(procs: seq<ProcInfo>, holder: Pid, holderCreated: Stamp, pid: Pid) {
    forall s: set<Pid> :: Closed(procs, holder, holderCreated, s) ==> pid in s
  }

  /** The intersection of all closed sets: the pids linked below the holder. */
  ghost function Chain(procs: seq<ProcInfo>, holder: Pid, holderCreated: Stamp): set<Pid> {
    set p | p in procs && InEveryClosed(procs, holder, holderCreated, p.pid) :: p.pid
  }

  ghost predicate HolderListed(procs: seq<ProcInfo>, holder: Pid, holderCreated: Stamp) {
    exists p :: p in procs && p.pid == holder && p.created == Some(holderCreated)
  }

  /** Everything the walk reports: the linked pids, and the holder when it is still listed. */
  ghost function ChainResult(procs: seq<ProcInfo>, holder: Pid, holderCreated: Stamp): set<Pid> {
    Chain(procs, holder, holderCreated) + if HolderListed(procs, holder, holderCreated) then {holder} else {}
  }

  lemma ChainIsClosed(procs: seq<ProcInfo>, holder: Pid, holderCreated: Stamp)
    ensures Closed(procs, holder, holderCreated, Chain(procs, holder, holderCreated))
  {
  }

  /** The chain is a fixed point, it is below every closed set, and nothing else is both closed and least. */
  lemma ChainIsLeastFixedPoint(procs: seq<ProcInfo>, holder: Pid, holderCreated: Stamp)
    ensures var chain := Chain(procs, holder, holderCreated);
            && (forall pid :: pid in chain <==>
                              exists p: ProcInfo :: p.pid == pid && Links(procs, holder, holderCreated, chain, p))
            && (forall s :: Closed(procs, holder, holderCreated, s) ==> chain <= s)
            && holder !in chain
  {
    var chain := Chain(procs, holder, holderCreated);
    ChainIsClosed(procs, holder, holderCreated);
    var stepped := set p | p in procs && Links(procs, holder, holderCreated, chain, p) :: p.pid;
    assert Closed(procs, holder, holderCreated, stepped) by {
      forall p | Links(procs, holder, holderCreated, stepped, p) ensures p.pid in stepped {
        assert Links(procs, holder, holderCreated, chain, p);
      }
    }
    assert chain <= stepped;
  }

  lemma ReusedSinceIgnoresOrder(a: seq<ProcInfo>, b: seq<ProcInfo>, holder: Pid, holderCreated: Stamp)
    requires UniquePids(a) && UniquePids(b) && forall p :: p in a <==> p in b
    ensures ReusedSince(a, holder, holderCreated) == ReusedSince(b, holder, holderCreated)
  {
  }

  /** Two snapshots with the same rows in any order have the same chain. */
  lemma ChainIgnoresOrder(a: seq<ProcInfo>, b: seq<ProcInfo>, holder: Pid, holderCreated: Stamp)
    requires UniquePids(a) && UniquePids(b) && forall p :: p in a <==> p in b
    ensures ChainResult(a, holder, holderCreated) == ChainResult(b, holder, holderCreated)
  {
    ReusedSinceIgnoresOrder(a, b, holder, holderCreated);
    assert forall s, p :: Links(a, holder, holderCreated, s, p) <==> Links(b, holder, holderCreated, s, p);
    assert forall s :: Closed(a, holder, holderCreated, s) <==> Closed(b, holder, holderCreated, s);
    assert forall pid :: InEveryClosed(a, holder, holderCreated, pid) <==> InEveryClosed(b, holder, holderCreated, pid);
  }

  // ---------- the walk ----------

  /** `known` is what the passes over the snapshot have linked so far. */
  ghost predicate KnownFrom(procs: seq<ProcInfo>, holder: Pid, holderCreated: Stamp, known: map<Pid, Stamp>) {
    && holder in known && known[holder] == holderCreated
    && (forall pid :: pid in known && pid != holder ==> ProcInfoNamed(procs, pid, known[pid]))
    && (forall s :: Closed(procs, holder, holderCreated, s) ==> known.Keys - {holder} <= s)
  }

  ghost predicate ProcInfoNamed(procs: seq<ProcInfo>, pid: Pid, created: Stamp) {
    exists q :: q in procs && q.pid == pid && q.created == Some(created)
  }

  predicate Extends(p: ProcInfo, known: map<Pid, Stamp>, holder: Pid, reusedSince: Option<Stamp>) {
    && p.created.Some? && p.pid !in known && p.ppid in known
    && known[p.ppid] <= p.created.value
    && (p.ppid != holder || BornBefore(p.created.value, reusedSince))
  }

  lemma ExtendsIsLinked(procs: seq<ProcInfo>, holder: Pid, holderCreated: Stamp, known: map<Pid, Stamp>, p: ProcInfo)
    requires KnownFrom(procs, holder, holderCreated, known) && p in procs
    requires Extends(p, known, holder, ReusedSince(procs, holder, holderCreated))
    ensures KnownFrom(procs, holder, holderCreated, known[p.pid := p.created.value])
  {
  }

  /** A pass that finds nothing to extend has reached the fixed point. */
  lemma QuietPassIsComplete(procs: seq<ProcInfo>, holder: Pid, holderCreated: Stamp, known: map<Pid, Stamp>)
    requires UniquePids(procs) && KnownFrom(procs, holder, holderCreated, known)
    requires forall p :: p in procs ==> !Extends(p, known, holder, ReusedSince(procs, holder, holderCreated))
    ensures known.Keys - {holder} == Chain(procs, holder, holderCreated)
  {
  }

  method ChainFrom(procs: seq<ProcInfo>, holder: Pid, holderCreated: Stamp) returns (out: seq<Pid>)
    ensures NoDuplicates(out)
    ensures forall pid :: pid in out ==> exists p :: p in procs && p.pid == pid
    ensures UniquePids(procs) ==> (set pid | pid in out) == ChainResult(procs, holder, holderCreated)
  {
    var known: map<Pid, Stamp> := map[holder := holderCreated];
    var reusedSince := ReusedSince(procs, holder, holderCreated);
    out := [];
    while true
      invariant KnownFrom(procs, holder, holderCreated, known)
      invariant NoDuplicates(out) && forall pid :: pid in out <==> pid in known && pid != holder
      decreases (set p | p in procs :: p.pid) - known.Keys
    {
      ghost var before := known;
      var grew := false;
      for k := 0 to |procs|
        invariant KnownFrom(procs, holder, holderCreated, known) && before.Keys <= known.Keys
        invariant NoDuplicates(out) && forall pid :: pid in out <==> pid in known && pid != holder
        invariant grew ==> exists p :: p in procs && p.pid in known && p.pid !in before
        invariant !grew ==> known == before && forall j :: 0 <= j < k ==> !Extends(procs[j], known, holder, reusedSince)
      {
        var p := procs[k];
        if Extends(p, known, holder, reusedSince) {
          ExtendsIsLinked(procs, holder, holderCreated, known, p);
          known := known[p.pid := p.created.value];
          out := out + [p.pid];
          grew := true;
        }
      }
      if !grew {
        break;
      }
    }
    assert forall p :: p in procs ==> !Extends(p, known, holder, reusedSince);
    if UniquePids(procs) {
      QuietPassIsComplete(procs, holder, holderCreated, known);
    }
    forall pid | pid in out ensures exists p :: p in procs && p.pid == pid {
      assert ProcInfoNamed(procs, pid, known[pid]);
    }
    if exists p :: p in procs && p.pid == holder && p.created == Some(holderCreated) {
      out := out + [holder];
    }
  }
}
