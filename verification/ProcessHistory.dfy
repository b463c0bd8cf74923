/** What the holder walk finds, judged against an arbitrary history of processes.
  *
  * A history lists every process ever started, oldest first; its index is its identity. Parents die,
  * pids are handed out again, and a snapshot may fail to read a creation time.
  */
module ProcessHistory {
  import opened Wrappers
  import opened ProcessChain

  datatype Proc = Proc(pid: Pid, parent: nat, ppid: Pid, born: Stamp, died: Option<Stamp>)

  type History = seq<Proc>

  /** Process 0 is the boot process. A parent is alive when it starts a child, and a pid is handed out
    * again only after its owner died. */
  ghost predicate ValidHistory(h: History) {
    && h != []
    && (forall i {:trigger ValidBirth(h, i)} :: 0 <= i < |h| ==> ValidBirth(h, i))
    && (forall i, j {:trigger OwnersApart(h, i, j)} :: 0 <= i < j < |h| ==> OwnersApart(h, i, j))
  }

  ghost predicate ValidBirth(h: History, i: nat)
    requires i < |h|
  {
    && (if i == 0 then h[i].parent == 0 else h[i].parent < i)
    && var parent := h[h[i].parent];
    && h[i].ppid == parent.pid
    && parent.born <= h[i].born
    && (parent.died.Some? ==> h[i].born <= parent.died.value)
    && (h[i].died.Some? ==> h[i].born <= h[i].died.value)
  }

  ghost predicate OwnersApart(h: History, i: nat, j: nat)
    requires i < j < |h|
  {
    h[i].pid == h[j].pid ==> h[i].died.Some? && h[i].died.value < h[j].born
  }

  /** One pid never has two live owners, nor two owners that started at the same time. */
  lemma OneOwner(h: History, i: nat, j: nat)
    requires ValidHistory(h) && i < |h| && j < |h| && h[i].pid == h[j].pid
    requires (h[i].died.None? && h[j].died.None?) || h[i].born == h[j].born
    ensures i == j
  {
    assert ValidBirth(h, i) && ValidBirth(h, j);
    assert i < j ==> OwnersApart(h, i, j);
    assert j < i ==> OwnersApart(h, j, i);
  }

  /** Every row describes a process that is still alive. */
  ghost predicate IsSnapshot(h: History, procs: seq<ProcInfo>) {
    UniquePids(procs) && forall p :: p in procs ==> exists i :: 0 <= i < |h| && IsRowOf(p, h[i])
  }

  ghost predicate IsRowOf(p: ProcInfo, proc: Proc) {
    proc.died.None? && p.pid == proc.pid && p.ppid == proc.ppid && (p.created.Some? ==> p.created.value == proc.born)
  }

  /** Process `i` has a row with its creation time. */
  ghost predicate Seen(h: History, procs: seq<ProcInfo>, i: nat)
    requires i < |h|
  {
    exists p :: p in procs && p.pid == h[i].pid && p.created == Some(h[i].born)
  }

  ghost predicate Descends(h: History, d: nat, g: nat)
    requires ValidHistory(h) && d < |h|
    decreases d
  {
    d == g || (d > 0 && assert ValidBirth(h, d); Descends(h, h[d].parent, g))
  }

  /** `d` and every process between it and its ancestor `g` are seen. */
  ghost predicate PathSeen(h: History, procs: seq<ProcInfo>, d: nat, g: nat)
    requires ValidHistory(h) && d < |h|
    decreases d
  {
    d == g || (d > 0 && Seen(h, procs, d) && assert ValidBirth(h, d); PathSeen(h, procs, h[d].parent, g))
  }

  /** `d`, or a process between it and its ancestor `g`, was handed the pid `g` had. */
  ghost predicate PathReusesPid(h: History, d: nat, g: nat)
    requires ValidHistory(h) && d < |h| && g < |h|
    decreases d
  {
    d != g && d > 0 && (h[d].pid == h[g].pid || (assert ValidBirth(h, d); PathReusesPid(h, h[d].parent, g)))
  }

  lemma SeenRow(h: History, procs: seq<ProcInfo>, i: nat, p: ProcInfo)
    requires ValidHistory(h) && IsSnapshot(h, procs) && i < |h|
    requires p in procs && p.pid == h[i].pid && p.created == Some(h[i].born)
    ensures IsRowOf(p, h[i])
  {
    var k :| 0 <= k < |h| && IsRowOf(p, h[k]);
    OneOwner(h, i, k);
  }

  /** The process that listed row `q` owns the parent pid of `p` and is old enough, so it is the parent. */
  lemma OwnerIsParent(h: History, i: nat, k: nat)
    requires ValidHistory(h) && 0 < i < |h| && k < |h|
    requires h[i].died.None? && h[k].died.None? && h[k].pid == h[i].ppid && h[k].born <= h[i].born
    ensures h[i].parent == k
  {
    assert ValidBirth(h, i) && ValidBirth(h, k);
    var m := h[i].parent;
    assert m < k ==> OwnersApart(h, m, k);
    assert k < m ==> OwnersApart(h, k, m);
  }

  /** A live process other than the holder under the holder's pid is what stops the walk at that pid. */
  lemma SeenOwnerSetsReuse(h: History, procs: seq<ProcInfo>, m: nat, g: nat)
    requires ValidHistory(h) && IsSnapshot(h, procs) && m < |h| && g < |h|
    requires Seen(h, procs, m) && m != g && h[m].pid == h[g].pid
    ensures ReusedSince(procs, h[g].pid, h[g].born) == Some(h[m].born)
  {
    var p :| p in procs && p.pid == h[m].pid && p.created == Some(h[m].born);
    if h[m].born == h[g].born {
      OneOwner(h, m, g);
    }
    assert TakesOverHolderPid(p, h[g].pid, h[g].born);
  }

  // ---------- completeness ----------

  /** A child of the holder started before anyone else was handed the holder's pid. */
  lemma ChildPrecedesReuse(h: History, procs: seq<ProcInfo>, d: nat, g: nat)
    requires ValidHistory(h) && IsSnapshot(h, procs) && 0 < d < |h| && g < |h| && h[d].parent == g
    ensures BornBefore(h[d].born, ReusedSince(procs, h[g].pid, h[g].born))
  {
    assert ValidBirth(h, d) && ValidBirth(h, g);
    var since := ReusedSince(procs, h[g].pid, h[g].born);
    if since.Some? {
      var r :| r in procs && TakesOverHolderPid(r, h[g].pid, h[g].born) && r.created == since;
      var k :| 0 <= k < |h| && IsRowOf(r, h[k]);
      assert k < g ==> OwnersApart(h, k, g);
      assert g < k ==> OwnersApart(h, g, k);
    }
  }

  lemma {:induction false} CleanPathIsLinked(h: History, procs: seq<ProcInfo>, d: nat, g: nat, s: set<Pid>)
    requires ValidHistory(h) && IsSnapshot(h, procs) && d < |h| && g < |h| && d != g
    requires Descends(h, d, g) && PathSeen(h, procs, d, g) && !PathReusesPid(h, d, g)
    requires Closed(procs, h[g].pid, h[g].born, s)
    ensures h[d].pid in s
    decreases d
  {
    assert ValidBirth(h, d);
    var m := h[d].parent;
    var p :| p in procs && p.pid == h[d].pid && p.created == Some(h[d].born);
    SeenRow(h, procs, d, p);
    if m == g {
      ChildPrecedesReuse(h, procs, d, g);
    } else {
      CleanPathIsLinked(h, procs, m, g, s);
      var q :| q in procs && q.pid == h[m].pid && q.created == Some(h[m].born);
    }
    assert Links(procs, h[g].pid, h[g].born, s, p);
  }

  /** The pids that remain when every seen path through a reuse of the holder's pid is cut off. */
  ghost function WithoutReused(h: History, procs: seq<ProcInfo>, g: nat): set<Pid>
    requires ValidHistory(h) && g < |h|
  {
    set p | p in procs && !Cut(h, procs, g, p.pid) :: p.pid
  }

  ghost predicate Cut(h: History, procs: seq<ProcInfo>, g: nat, pid: Pid)
    requires ValidHistory(h) && g < |h|
  {
    exists d :: 0 <= d < |h| && h[d].pid == pid && Descends(h, d, g) && PathSeen(h, procs, d, g) &&
        PathReusesPid(h, d, g)
  }

  /** A process on such a path is never linked: either its parent is on the path too, or the walk stops there. */
  lemma CutIsNotLinked(h: History, procs: seq<ProcInfo>, g: nat, d: nat, p: ProcInfo)
    requires ValidHistory(h) && IsSnapshot(h, procs) && d < |h| && g < |h|
    requires Descends(h, d, g) && PathSeen(h, procs, d, g) && PathReusesPid(h, d, g)
    requires p in procs && p.pid == h[d].pid
    ensures !Links(procs, h[g].pid, h[g].born, WithoutReused(h, procs, g), p)
  {
    var row :| row in procs && row.pid == h[d].pid && row.created == Some(h[d].born);
    SeenRow(h, procs, d, row);
    assert p == row;
    assert ValidBirth(h, d);
    var m := h[d].parent;
    if p.pid != h[g].pid {
      assert m != g && PathSeen(h, procs, m, g) && Seen(h, procs, m);
      if p.ppid == h[g].pid {
        SeenOwnerSetsReuse(h, procs, m, g);
      } else {
        assert Cut(h, procs, g, h[m].pid);
      }
    }
  }

  lemma WithoutReusedIsClosed(h: History, procs: seq<ProcInfo>, g: nat)
    requires ValidHistory(h) && IsSnapshot(h, procs) && g < |h|
    ensures Closed(procs, h[g].pid, h[g].born, WithoutReused(h, procs, g))
  {
    var s := WithoutReused(h, procs, g);
    forall p | Links(procs, h[g].pid, h[g].born, s, p) ensures !Cut(h, procs, g, p.pid) {
      if Cut(h, procs, g, p.pid) {
        var d :| 0 <= d < |h| && h[d].pid == p.pid && Descends(h, d, g) && PathSeen(h, procs, d, g) &&
            PathReusesPid(h, d, g);
        CutIsNotLinked(h, procs, g, d, p);
      }
    }
  }

  /** The walk reports a descendant whose path is seen exactly when no process on that path was handed
    * the holder's old pid. */
  lemma ChainFindsDescendant(h: History, procs: seq<ProcInfo>, d: nat, g: nat)
    requires ValidHistory(h) && IsSnapshot(h, procs) && d < |h| && g < |h| && d != g
    requires Descends(h, d, g) && PathSeen(h, procs, d, g)
    ensures h[d].pid in ChainResult(procs, h[g].pid, h[g].born) <==> !PathReusesPid(h, d, g)
  {
    var p :| p in procs && p.pid == h[d].pid && p.created == Some(h[d].born);
    if h[d].pid == h[g].pid && h[d].born == h[g].born {
      OneOwner(h, d, g);
    }
    if PathReusesPid(h, d, g) {
      WithoutReusedIsClosed(h, procs, g);
      ChainIsLeastFixedPoint(procs, h[g].pid, h[g].born);
      assert Cut(h, procs, g, h[d].pid);
      assert ValidBirth(h, d);
    } else {
      forall s | Closed(procs, h[g].pid, h[g].born, s) ensures h[d].pid in s {
        CleanPathIsLinked(h, procs, d, g, s);
      }
    }
  }

  /** No descendant is missed, unless the process now listed under the holder's pid is itself one. */
  lemma ChainMissesNothing(h: History, procs: seq<ProcInfo>, g: nat)
    requires ValidHistory(h) && IsSnapshot(h, procs) && g < |h|
    ensures (forall d :: 0 <= d < |h| && d != g && Descends(h, d, g) && PathSeen(h, procs, d, g)
                         ==> h[d].pid in ChainResult(procs, h[g].pid, h[g].born))
            <==>
            (forall d :: 0 <= d < |h| && d != g && Descends(h, d, g) && PathSeen(h, procs, d, g)
                         ==> h[d].pid != h[g].pid)
  {
    forall d | 0 <= d < |h| && d != g && Descends(h, d, g) && PathSeen(h, procs, d, g)
      ensures h[d].pid in ChainResult(procs, h[g].pid, h[g].born) <==> !PathReusesPid(h, d, g)
      ensures PathReusesPid(h, d, g) ==>
                exists m :: 0 <= m < |h| && m != g && Descends(h, m, g) && PathSeen(h, procs, m, g) &&
                    h[m].pid == h[g].pid
    {
      ChainFindsDescendant(h, procs, d, g);
      if PathReusesPid(h, d, g) {
        var m := ReuseOnPath(h, procs, d, g);
      }
    }
  }

  lemma {:induction false} ReuseOnPath(h: History, procs: seq<ProcInfo>, d: nat, g: nat) returns (m: nat)
    requires ValidHistory(h) && d < |h| && g < |h|
    requires Descends(h, d, g) && PathSeen(h, procs, d, g) && PathReusesPid(h, d, g)
    ensures m < |h| && m != g && Descends(h, m, g) && PathSeen(h, procs, m, g) && h[m].pid == h[g].pid
    decreases d
  {
    assert ValidBirth(h, d);
    if h[d].pid == h[g].pid {
      m := d;
    } else {
      m := ReuseOnPath(h, procs, h[d].parent, g);
    }
  }

  /** The holder (pid 5) died, its child (pid 7) lives, and a grandchild was handed pid 5: the walk misses it. */
  lemma GrandchildUnderHolderPidIsMissed()
    ensures exists h: History, procs: seq<ProcInfo>, g: nat, d: nat ::
              && ValidHistory(h) && IsSnapshot(h, procs) && g < |h| && d < |h| && d != g
              && Descends(h, d, g) && PathSeen(h, procs, d, g)
              && h[d].pid !in ChainResult(procs, h[g].pid, h[g].born)
  {
    var h: History := [Proc(0, 0, 0, 0, None), Proc(5, 0, 0, 1, Some(3)), Proc(7, 1, 5, 2, None),
        Proc(5, 2, 7, 4, None)];
    var procs := [ProcInfo(7, 5, Some(2), false), ProcInfo(5, 7, Some(4), false)];
    GrandchildTookPid(h, procs);
    ChainFindsDescendant(h, procs, 3, 1);
  }

  lemma GrandchildTookPid(h: History, procs: seq<ProcInfo>)
    requires h == [Proc(0, 0, 0, 0, None), Proc(5, 0, 0, 1, Some(3)), Proc(7, 1, 5, 2, None), Proc(5, 2, 7, 4, None)]
    requires procs == [ProcInfo(7, 5, Some(2), false), ProcInfo(5, 7, Some(4), false)]
    ensures ValidHistory(h) && IsSnapshot(h, procs)
    ensures Descends(h, 3, 1) && PathSeen(h, procs, 3, 1) && PathReusesPid(h, 3, 1)
  {
    assert ValidHistory(h);
    assert IsRowOf(procs[0], h[2]) && IsRowOf(procs[1], h[3]);
    assert procs[0] in procs && procs[1] in procs;
    assert Seen(h, procs, 2) && Seen(h, procs, 3);
    assert Descends(h, 2, 1) && PathSeen(h, procs, 2, 1);
  }

  // ---------- soundness ----------

  /** A seen process whose parent was handed the holder's old pid, is no descendant of the holder, and
    * started it before the process now listed under that pid (if one is listed with its creation time). */
  ghost predicate Foreign(h: History, procs: seq<ProcInfo>, c: nat, g: nat)
    requires ValidHistory(h) && c < |h| && g < |h|
  {
    && c > 0 && Seen(h, procs, c) && h[c].pid != h[g].pid
    && h[c].ppid == h[g].pid && (assert ValidBirth(h, c); !Descends(h, h[c].parent, g))
    && h[g].born <= h[c].born && BornBefore(h[c].born, ReusedSince(procs, h[g].pid, h[g].born))
  }

  ghost predicate IsDescendantPid(h: History, pid: Pid, g: nat)
    requires ValidHistory(h)
  {
    exists d :: 0 <= d < |h| && h[d].pid == pid && h[d].died.None? && Descends(h, d, g)
  }

  ghost function DescendantPids(h: History, procs: seq<ProcInfo>, g: nat): set<Pid>
    requires ValidHistory(h)
  {
    set p | p in procs && IsDescendantPid(h, p.pid, g) :: p.pid
  }

  lemma LinkedRowDescends(h: History, procs: seq<ProcInfo>, g: nat, p: ProcInfo, i: nat)
    requires ValidHistory(h) && IsSnapshot(h, procs) && g < |h| && i < |h| && IsRowOf(p, h[i])
    requires !Foreign(h, procs, i, g)
    requires Links(procs, h[g].pid, h[g].born, DescendantPids(h, procs, g), p)
    ensures Descends(h, i, g)
  {
    assert Seen(h, procs, i) && ValidBirth(h, i);
    if p.ppid != h[g].pid {
      var q :| q in procs && q.pid == p.ppid && q.created.Some? && q.created.value <= p.created.value;
      var k :| 0 <= k < |h| && h[k].pid == p.ppid && h[k].died.None? && Descends(h, k, g);
      var l :| 0 <= l < |h| && IsRowOf(q, h[l]);
      OneOwner(h, l, k);
      if i == 0 {
        OneOwner(h, i, k);
      } else {
        OwnerIsParent(h, i, k);
      }
    }
  }

  lemma DescendantsAreClosed(h: History, procs: seq<ProcInfo>, g: nat)
    requires ValidHistory(h) && IsSnapshot(h, procs) && g < |h|
    requires forall c :: 0 <= c < |h| ==> !Foreign(h, procs, c, g)
    ensures Closed(procs, h[g].pid, h[g].born, DescendantPids(h, procs, g))
  {
    forall p | Links(procs, h[g].pid, h[g].born, DescendantPids(h, procs, g), p) ensures IsDescendantPid(h, p.pid, g) {
      var i :| 0 <= i < |h| && IsRowOf(p, h[i]);
      LinkedRowDescends(h, procs, g, p, i);
    }
  }

  /** Everything the walk reports is the holder or a live descendant of it exactly when no foreign
    * process is listed. A reused pid in between never links a stranger. */
  lemma ChainIsSound(h: History, procs: seq<ProcInfo>, g: nat)
    requires ValidHistory(h) && IsSnapshot(h, procs) && g < |h|
    ensures (forall pid :: pid in ChainResult(procs, h[g].pid, h[g].born) ==> IsDescendantPid(h, pid, g))
            <==>
            (forall c :: 0 <= c < |h| ==> !Foreign(h, procs, c, g))
  {
    ChainIsLeastFixedPoint(procs, h[g].pid, h[g].born);
    if forall c :: 0 <= c < |h| ==> !Foreign(h, procs, c, g) {
      DescendantsAreClosed(h, procs, g);
      if HolderListed(procs, h[g].pid, h[g].born) {
        assert Seen(h, procs, g);
        assert Descends(h, g, g);
        var p :| p in procs && p.pid == h[g].pid && p.created == Some(h[g].born);
        SeenRow(h, procs, g, p);
      }
    } else {
      var c :| 0 <= c < |h| && Foreign(h, procs, c, g);
      ForeignIsReported(h, procs, c, g);
    }
  }

  lemma ForeignIsReported(h: History, procs: seq<ProcInfo>, c: nat, g: nat)
    requires ValidHistory(h) && IsSnapshot(h, procs) && c < |h| && g < |h| && Foreign(h, procs, c, g)
    ensures h[c].pid in ChainResult(procs, h[g].pid, h[g].born) && !IsDescendantPid(h, h[c].pid, g)
  {
    var p :| p in procs && p.pid == h[c].pid && p.created == Some(h[c].born);
    SeenRow(h, procs, c, p);
    assert !IsDescendantPid(h, h[c].pid, g) by {
      ForeignIsNoDescendant(h, procs, c, g);
    }
    forall s: set<Pid> | Closed(procs, h[g].pid, h[g].born, s) ensures p.pid in s {
      assert Links(procs, h[g].pid, h[g].born, s, p);
    }
  }

  lemma ForeignIsNoDescendant(h: History, procs: seq<ProcInfo>, c: nat, g: nat)
    requires ValidHistory(h) && c < |h| && g < |h| && Foreign(h, procs, c, g) && h[c].died.None?
    ensures !IsDescendantPid(h, h[c].pid, g)
  {
    assert ValidBirth(h, c);
    forall d | 0 <= d < |h| && h[d].pid == h[c].pid && h[d].died.None? ensures !Descends(h, d, g) {
      OneOwner(h, c, d);
    }
  }

  /** When only the holder and a process listed with its creation time ever owned the holder's pid,
    * no stranger is reported. */
  lemma TwoOwnersAreSound(h: History, procs: seq<ProcInfo>, g: nat)
    requires ValidHistory(h) && IsSnapshot(h, procs) && g < |h|
    requires forall i :: 0 <= i < |h| && h[i].pid == h[g].pid ==> i == g || Seen(h, procs, i)
    ensures forall pid :: pid in ChainResult(procs, h[g].pid, h[g].born) ==> IsDescendantPid(h, pid, g)
  {
    forall c | 0 <= c < |h| ensures !Foreign(h, procs, c, g) {
      if Foreign(h, procs, c, g) {
        assert ValidBirth(h, c);
        SeenOwnerSetsReuse(h, procs, h[c].parent, g);
      }
    }
    ChainIsSound(h, procs, g);
  }

  /** Pid 5 went from the dead holder to a live process whose creation time could not be read: the
    * child (pid 9) of that process is reported although it is a stranger. */
  lemma UnreadableOwnerLetsStrangerIn()
    ensures exists h: History, procs: seq<ProcInfo>, g: nat ::
              && ValidHistory(h) && IsSnapshot(h, procs) && g < |h|
              && (forall i :: 0 <= i < |h| && h[i].pid == h[g].pid ==> i == g || h[i].died.None?)
              && 9 in ChainResult(procs, h[g].pid, h[g].born) && !IsDescendantPid(h, 9, g)
  {
    var h: History := [Proc(0, 0, 0, 0, None), Proc(5, 0, 0, 1, Some(2)), Proc(5, 0, 0, 3, None),
        Proc(9, 2, 5, 4, None)];
    var procs := [ProcInfo(5, 0, None, false), ProcInfo(9, 5, Some(4), false)];
    StrangerIsForeign(h, procs);
    ForeignIsReported(h, procs, 3, 1);
  }

  lemma StrangerIsForeign(h: History, procs: seq<ProcInfo>)
    requires h == [Proc(0, 0, 0, 0, None), Proc(5, 0, 0, 1, Some(2)), Proc(5, 0, 0, 3, None), Proc(9, 2, 5, 4, None)]
    requires procs == [ProcInfo(5, 0, None, false), ProcInfo(9, 5, Some(4), false)]
    ensures ValidHistory(h) && IsSnapshot(h, procs) && Foreign(h, procs, 3, 1)
  {
    assert ValidHistory(h);
    assert IsRowOf(procs[0], h[2]) && IsRowOf(procs[1], h[3]);
    assert procs[1] in procs && Seen(h, procs, 3);
    assert !Descends(h, 0, 1) && !Descends(h, 2, 1);
    assert ReusedSince(procs, 5, 1).None?;
  }

  // ---------- the holder itself ----------

  /** The walk reports the holder's own pid exactly when the holder is listed with its creation time. */
  lemma HolderIsReported(h: History, procs: seq<ProcInfo>, g: nat)
    requires ValidHistory(h) && IsSnapshot(h, procs) && g < |h|
    ensures h[g].pid in ChainResult(procs, h[g].pid, h[g].born) <==> Seen(h, procs, g)
  {
    ChainIsLeastFixedPoint(procs, h[g].pid, h[g].born);
  }

  /** So a holder that is still listed is among the processes reported, and it is alive. */
  lemma ListedHolderLives(h: History, procs: seq<ProcInfo>, g: nat)
    requires ValidHistory(h) && IsSnapshot(h, procs) && g < |h| && Seen(h, procs, g)
    ensures h[g].died.None? && h[g].pid in ChainResult(procs, h[g].pid, h[g].born)
  {
    var p :| p in procs && p.pid == h[g].pid && p.created == Some(h[g].born);
    SeenRow(h, procs, g, p);
    HolderIsReported(h, procs, g);
  }
}
