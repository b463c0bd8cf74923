/** The operating system around a job, and why an empty poll means no member ever runs again.
  *
  * A member first stops being counted by its job and is signaled later; in between it still runs. What
  * the operating system guarantees is written into the steps: a member the job no longer counts starts
  * no process, children of members are members (no breakaway), and a pid is not handed out again while
  * its process runs or a handle to it is open.
  */
module JobRun {
  import opened Wrappers
  import opened ProcessChain
  import opened JobDomain

  datatype Phase = Counted | Leaving | Signaled

  datatype OsProc = OsProc(pid: Pid, inJob: bool, phase: Phase)

  /** `pinned` are the processes the contender holds handles to; a process is its index. */
  datatype Os = Os(procs: seq<OsProc>, pinned: set<Handle>)

  datatype Event = Spawn(parent: nat, pid: Pid) | Leave(proc: nat) | Signal(proc: nat)

  predicate CanSpawn(p: OsProc) {
    p.phase == Counted || (p.phase == Leaving && !p.inJob)
  }

  predicate PidFree(os: Os, pid: Pid) {
    forall i :: 0 <= i < |os.procs| && os.procs[i].pid == pid ==> os.procs[i].phase == Signaled && i !in os.pinned
  }

  /** A step that is not possible changes nothing. */
  function Apply(os: Os, e: Event): Os {
    match e
    case Spawn(parent, pid) =>
      if parent < |os.procs| && CanSpawn(os.procs[parent]) && PidFree(os, pid) then
        os.(procs := os.procs + [OsProc(pid, os.procs[parent].inJob, Counted)])
      else os
    case Leave(i) =>
      if i < |os.procs| && os.procs[i].phase == Counted then
        os.(procs := os.procs[i := os.procs[i].(phase := Leaving)])
      else os
    case Signal(i) =>
      if i < |os.procs| then os.(procs := os.procs[i := os.procs[i].(phase := Signaled)]) else os
  }

  function RunAll(os: Os, events: seq<Event>): Os
    decreases |events|
  {
    if events == [] then os else RunAll(Apply(os, events[0]), events[1..])
  }

  predicate NoMemberRuns(os: Os) {
    forall i :: 0 <= i < |os.procs| && os.procs[i].inJob ==> os.procs[i].phase == Signaled
  }

  /** A running process owns its pid alone, also against processes that only a handle keeps. */
  ghost predicate OwnsItsPid(os: Os, i: nat)
    requires i < |os.procs|
  {
    forall j :: 0 <= j < |os.procs| && j != i && os.procs[j].pid == os.procs[i].pid
                ==> os.procs[j].phase == Signaled && j !in os.pinned
  }

  ghost predicate ValidOs(os: Os) {
    forall i {:trigger OwnsItsPid(os, i)} :: 0 <= i < |os.procs| && os.procs[i].phase != Signaled ==> OwnsItsPid(os, i)
  }

  ghost predicate SamePids(before: Os, after: Os) {
    && before.pinned == after.pinned && |before.procs| <= |after.procs|
    && forall i :: 0 <= i < |before.procs| ==> before.procs[i].pid == after.procs[i].pid
  }

  lemma ApplyKeepsValid(os: Os, e: Event)
    requires ValidOs(os)
    ensures ValidOs(Apply(os, e)) && SamePids(os, Apply(os, e))
  {
    var after := Apply(os, e);
    forall i | 0 <= i < |after.procs| && after.procs[i].phase != Signaled ensures OwnsItsPid(after, i) {
      assert i < |os.procs| ==> OwnsItsPid(os, i);
    }
  }

  lemma {:induction false} RunKeepsValid(os: Os, events: seq<Event>)
    requires ValidOs(os)
    ensures ValidOs(RunAll(os, events)) && SamePids(os, RunAll(os, events))
    decreases |events|
  {
    if events != [] {
      ApplyKeepsValid(os, events[0]);
      RunKeepsValid(Apply(os, events[0]), events[1..]);
    }
  }

  lemma {:induction false} NoMemberEverRuns(os: Os, events: seq<Event>)
    requires NoMemberRuns(os)
    ensures NoMemberRuns(RunAll(os, events))
    decreases |events|
  {
    if events != [] {
      NoMemberEverRuns(Apply(os, events[0]), events[1..]);
    }
  }

  // ---------- polling while the operating system runs ----------

  /** What the reading is known to tell about this state. The last clause is the assumption the union rule
    * rests on: every member that runs uncounted is named by some source and can be opened. */
  ghost predicate Reads(os: Os, r: Reading, holder: Option<Holder>) {
    && UniquePids(r.procs)
    && (r.active == Some(0) ==> forall i :: 0 <= i < |os.procs| && os.procs[i].inJob ==> os.procs[i].phase != Counted)
    && (forall i {:trigger i in r.running} :: i in r.running <==> 0 <= i < |os.procs| && os.procs[i].phase != Signaled)
    && (forall pid :: pid in r.opens ==> Opens(os, pid, r.opens[pid]))
    && (forall i {:trigger os.procs[i]} :: 0 <= i < |os.procs| && os.procs[i].inJob && os.procs[i].phase == Leaving ==>
                                             Appears(r, holder, os.procs[i].pid) && os.procs[i].pid in r.opens)
  }

  /** The job's list has the pid, or a row of the snapshot that is in the job, or the walk from the holder. */
  ghost predicate Appears(r: Reading, holder: Option<Holder>, pid: Pid) {
    || pid in r.list
    || (exists p :: p in r.procs && p.inJob && p.pid == pid)
    || (holder.Some? && pid in ChainResult(r.procs, holder.value.pid, holder.value.created))
  }

  /** Opening a pid reaches the process running under it, or one that a handle keeps. */
  ghost predicate Opens(os: Os, pid: Pid, h: Handle) {
    && h < |os.procs| && os.procs[h].pid == pid
    && forall i :: 0 <= i < |os.procs| && os.procs[i].pid == pid && os.procs[i].phase != Signaled ==> i == h
  }

  ghost predicate Tracks(readings: seq<Reading>, holder: Option<Holder>, h: Handle) {
    exists pid :: TrackedBy(readings, holder, pid) == Some(h)
  }

  /** Between two readings the contender holds the handles it opened; `pinning` says whether that keeps
    * their pids from being handed out again. */
  ghost predicate Pinned(os: Os, after: Os, readings: seq<Reading>, holder: Option<Holder>, pinning: bool) {
    && after.procs == os.procs
    && if pinning then forall h {:trigger h in after.pinned} :: h in after.pinned <==>
         h in os.pinned || Tracks(readings, holder, h)
       else after.pinned == os.pinned
  }

  /** Readings taken at successive states, with any steps in between. */
  ghost predicate Observed(states: seq<Os>, readings: seq<Reading>, holder: Option<Holder>, pinning: bool) {
    && |states| == |readings|
    && (|states| > 0 ==> ValidOs(states[0]))
    && (forall k :: 0 <= k < |states| ==> Reads(states[k], readings[k], holder))
    && (forall k :: 0 < k < |states| ==> Follows(states[k - 1], states[k], readings[..k], holder, pinning))
  }

  ghost predicate Follows(os: Os, next: Os, readings: seq<Reading>, holder: Option<Holder>, pinning: bool) {
    exists held: Os, events: seq<Event> :: Pinned(os, held, readings, holder, pinning) && next == RunAll(held, events)
  }

  /** Tracked handles are pinned and still carry the pid they were opened by. */
  ghost predicate HandlesHeld(os: Os, readings: seq<Reading>, holder: Option<Holder>) {
    forall pid {:trigger TrackedBy(readings, holder, pid)} ::
      var h := TrackedBy(readings, holder, pid);
      h.Some? ==> h.value in os.pinned && h.value < |os.procs| && os.procs[h.value].pid == pid
  }

  /** Holding on to what a reading opened keeps pids unambiguous. */
  lemma PinKeepsValid(os: Os, held: Os, readings: seq<Reading>, holder: Option<Holder>)
    requires readings != [] && ValidOs(os) && Reads(os, readings[|readings| - 1], holder)
    requires HandlesHeld(os, readings[..|readings| - 1], holder)
    requires Pinned(os, held, readings, holder, true)
    ensures ValidOs(held) && HandlesHeld(held, readings, holder)
  {
    forall i | 0 <= i < |held.procs| && held.procs[i].phase != Signaled ensures OwnsItsPid(held, i) {
      assert OwnsItsPid(os, i);
      forall j | 0 <= j < |held.procs| && j != i && held.procs[j].pid == held.procs[i].pid
          ensures !Tracks(readings, holder, j) {
        forall pid ensures TrackedBy(readings, holder, pid) != Some(j) {
          assert TrackedBy(readings[..|readings| - 1], holder, pid) != Some(j);
        }
      }
    }
    forall pid | TrackedBy(readings, holder, pid).Some?
      ensures var h := TrackedBy(readings, holder, pid).value;
        h in held.pinned && h < |held.procs| && held.procs[h].pid == pid
    {
      assert Tracks(readings, holder, TrackedBy(readings, holder, pid).value);
      assert TrackedBy(readings[..|readings| - 1], holder, pid).Some? || pid in readings[|readings| - 1].opens;
    }
  }

  /** At every reading the state is valid and the handles tracked so far are held. */
  lemma {:induction false} ReadingsKeepHandles(states: seq<Os>, readings: seq<Reading>, holder: Option<Holder>, k: nat)
    requires Observed(states, readings, holder, true) && k < |states|
    ensures ValidOs(states[k]) && HandlesHeld(states[k], readings[..k], holder)
    decreases k
  {
    if k > 0 {
      ReadingsKeepHandles(states, readings, holder, k - 1);
      assert Follows(states[k - 1], states[k], readings[..k], holder, true);
      var held: Os, events: seq<Event> :|
        Pinned(states[k - 1], held, readings[..k], holder, true) && states[k] == RunAll(held, events);
      assert readings[..k][..k - 1] == readings[..k - 1] && readings[..k][k - 1] == readings[k - 1];
      PinKeepsValid(states[k - 1], held, readings[..k], holder);
      RunKeepsValid(held, events);
    }
  }

  /** A member that runs uncounted is tracked by a handle of its own after the reading. */
  lemma LeavingMemberIsTracked(os: Os, r: Reading, readings: seq<Reading>, holder: Option<Holder>, i: nat)
    requires readings != [] && r == readings[|readings| - 1] && ValidOs(os) && Reads(os, r, holder)
    requires HandlesHeld(os, readings[..|readings| - 1], holder)
    requires i < |os.procs| && os.procs[i].inJob && os.procs[i].phase == Leaving
    ensures TrackedBy(readings, holder, os.procs[i].pid) == Some(i) && i in r.running
  {
    var pid := os.procs[i].pid;
    assert OwnsItsPid(os, i) && Opens(os, pid, r.opens[pid]);
    var before := TrackedBy(readings[..|readings| - 1], holder, pid);
  }

  /** After a poll that found the domain empty no member runs, then or at any later time. */
  lemma EmptyPollIsFinal(states: seq<Os>, readings: seq<Reading>, holder: Option<Holder>, events: seq<Event>)
    requires Observed(states, readings, holder, true) && EmptyAfter(readings, holder)
    ensures NoMemberRuns(RunAll(states[|states| - 1], events))
  {
    var n := |states| - 1;
    ReadingsKeepHandles(states, readings, holder, n);
    var os, r := states[n], readings[n];
    forall i | 0 <= i < |os.procs| && os.procs[i].inJob ensures os.procs[i].phase == Signaled {
      if os.procs[i].phase == Leaving {
        LeavingMemberIsTracked(os, r, readings, holder, i);
      }
    }
    NoMemberEverRuns(os, events);
  }

  /** A handle must keep its pid: otherwise a member that was handed the pid of a dead tracked member
    * escapes the poll. Here pid 7 dies, its sibling starts a new pid 7 and exits, and the poll is empty
    * while the new process runs. */
  lemma ReusedPidEscapesThePoll()
    ensures exists states: seq<Os>, readings: seq<Reading> ::
              && Observed(states, readings, None, false) && EmptyAfter(readings, None)
              && !NoMemberRuns(states[|states| - 1])
  {
    var first := Os([OsProc(7, true, Counted), OsProc(8, true, Counted)], {});
    var last := Os([OsProc(7, true, Signaled), OsProc(8, true, Signaled), OsProc(7, true, Leaving)], {});
    var states := [first, last];
    var readings := [
      Reading([7, 8], [], map[7 := 0, 8 := 1], Some(2), {0, 1}),
      Reading([7], [], map[7 := 2], Some(0), {2})];
    EscapeHappens(first, last, readings[..1]);
    EscapeIsRead(first, last, readings);
    assert Observed(states, readings, None, false);
    assert !NoMemberRuns(last) by {
      assert last.procs[2].inJob;
    }
  }

  lemma EscapeHappens(first: Os, last: Os, readings: seq<Reading>)
    requires first == Os([OsProc(7, true, Counted), OsProc(8, true, Counted)], {})
    requires last == Os([OsProc(7, true, Signaled), OsProc(8, true, Signaled), OsProc(7, true, Leaving)], {})
    ensures ValidOs(first) && Follows(first, last, readings, None, false)
  {
    var s1 := Apply(first, Signal(0));
    assert s1 == Os([OsProc(7, true, Signaled), OsProc(8, true, Counted)], {});
    var s2 := Apply(s1, Spawn(1, 7));
    assert s2 == Os([OsProc(7, true, Signaled), OsProc(8, true, Counted), OsProc(7, true, Counted)], {});
    var s3 := Apply(s2, Signal(1));
    assert Apply(s3, Leave(2)) == last;
    var events := [Signal(0), Spawn(1, 7), Signal(1), Leave(2)];
    assert events[1..] == [Spawn(1, 7), Signal(1), Leave(2)];
    assert events[1..][1..] == [Signal(1), Leave(2)];
    assert events[1..][1..][1..] == [Leave(2)];
    assert RunAll(first, events) == RunAll(s1, events[1..]) == RunAll(s2, events[1..][1..]) == RunAll(s3, [Leave(2)]);
    assert RunAll(s3, [Leave(2)]) == last;
    assert Pinned(first, first, readings, None, false);
  }

  lemma EscapeIsRead(first: Os, last: Os, readings: seq<Reading>)
    requires first == Os([OsProc(7, true, Counted), OsProc(8, true, Counted)], {})
    requires last == Os([OsProc(7, true, Signaled), OsProc(8, true, Signaled), OsProc(7, true, Leaving)], {})
    requires readings == [
               Reading([7, 8], [], map[7 := 0, 8 := 1], Some(2), {0, 1}),
               Reading([7], [], map[7 := 2], Some(0), {2})]
    ensures Reads(first, readings[0], None) && Reads(last, readings[1], None) && EmptyAfter(readings, None)
  {
    assert Opens(first, 7, 0) && Opens(first, 8, 1) && Opens(last, 7, 2);
    assert 7 in readings[1].list;
    var one := readings[..1];
    assert one[..0] == [] && 7 in one[0].list && 8 in one[0].list;
    forall pid ensures TrackedBy(one, None, pid) == if pid == 7 then Some(0) else if pid == 8 then Some(1) else None {
      assert TrackedBy(one[..0], None, pid).None?;
    }
    forall pid ensures TrackedBy(readings, None, pid) == TrackedBy(one, None, pid) {
      assert Named(readings[1], None, pid) ==> pid == 7;
    }
  }
}
