/** How long the holder's lock outlives the holder (tools/platform-probe/src/unix.rs).
  *
  * The lock belongs to the open file description the holder locked. It is released when the last
  * descriptor of that description is closed, wherever forks have copied it.
  */
module LockLifetime {
  import opened Wrappers

  /** A process's descriptor of the locked description. */
  datatype Fd = Closed | Open(cloexec: bool)

  /** A process is its index; the one that started it has a smaller index. */
  datatype Proc = Proc(parent: nat, alive: bool, fd: Fd)

  datatype Sys = Sys(procs: seq<Proc>)

  datatype Event = Fork(proc: nat) | Exec(proc: nat) | Die(proc: nat) | Close(proc: nat)

  predicate Acts(s: Sys, i: nat) {
    i < |s.procs| && s.procs[i].alive
  }

  /** A dead process does nothing. */
  function Apply(s: Sys, e: Event): Sys {
    if !Acts(s, e.proc) then s
    else
      var p := s.procs[e.proc];
      match e
      case Fork(i) => s.(procs := s.procs + [Proc(i, true, p.fd)])
      case Exec(i) => s.(procs := s.procs[i := if p.fd == Open(true) then p.(fd := Closed) else p])
      case Die(i) => s.(procs := s.procs[i := p.(alive := false)])
      case Close(i) => s.(procs := s.procs[i := p.(fd := Closed)])
  }

  function RunAll(s: Sys, events: seq<Event>): Sys
    decreases |events|
  {
    if events == [] then s else RunAll(Apply(s, events[0]), events[1..])
  }

  /** Another description can take the lock. */
  predicate LockFree(s: Sys) {
    forall i :: 0 <= i < |s.procs| && s.procs[i].alive ==> s.procs[i].fd == Closed
  }

  ghost predicate ValidSys(s: Sys) {
    forall i {:trigger ParentFirst(s, i)} :: 0 <= i < |s.procs| ==> ParentFirst(s, i)
  }

  ghost predicate ParentFirst(s: Sys, i: nat)
    requires i < |s.procs|
  {
    if i == 0 then s.procs[i].parent == 0 else s.procs[i].parent < i
  }

  /** `i` is `root` or was forked by it, directly or not. */
  ghost predicate ForkedFrom(s: Sys, i: nat, root: nat)
    requires ValidSys(s) && i < |s.procs|
    decreases i
  {
    i == root || (i > 0 && assert ParentFirst(s, i); ForkedFrom(s, s.procs[i].parent, root))
  }

  /** The holder has taken the lock and `cloexec` tells whether its descriptor still closes on exec. */
  ghost predicate LockTaken(s: Sys, holder: nat, cloexec: bool) {
    && ValidSys(s) && Acts(s, holder)
    && (forall i :: 0 <= i < |s.procs| ==> s.procs[i].fd == if i == holder then Open(cloexec) else Closed)
    && (forall i :: 0 <= i < |s.procs| && i != holder ==> !ForkedFrom(s, i, holder))
  }

  /** Exactly the processes the holder forked have the descriptor, and it survives exec. */
  ghost predicate TreeHolds(s: Sys, holder: nat) {
    && ValidSys(s) && holder < |s.procs|
    && forall i {:trigger ForkedFrom(s, i, holder)} :: 0 <= i < |s.procs| ==>
         s.procs[i].fd == if ForkedFrom(s, i, holder) then Open(false) else Closed
  }

  lemma {:induction false} ApplyKeepsAncestry(s: Sys, e: Event, i: nat, root: nat)
    requires ValidSys(s) && i < |s.procs|
    ensures ValidSys(Apply(s, e)) && i < |Apply(s, e).procs|
    ensures ForkedFrom(Apply(s, e), i, root) <==> ForkedFrom(s, i, root)
    decreases i
  {
    var after := Apply(s, e);
    forall k | 0 <= k < |after.procs| ensures ParentFirst(after, k) {
      assert k < |s.procs| ==> ParentFirst(s, k);
    }
    assert ParentFirst(s, i);
    if i > 0 {
      ApplyKeepsAncestry(s, e, s.procs[i].parent, root);
    }
  }

  lemma ApplyKeepsTree(s: Sys, e: Event, holder: nat)
    requires TreeHolds(s, holder) && !e.Close?
    ensures TreeHolds(Apply(s, e), holder)
  {
    var after := Apply(s, e);
    ApplyKeepsAncestry(s, e, holder, holder);
    forall i | 0 <= i < |after.procs|
      ensures after.procs[i].fd == if ForkedFrom(after, i, holder) then Open(false) else Closed
    {
      if i < |s.procs| {
        ApplyKeepsAncestry(s, e, i, holder);
      } else {
        ApplyKeepsAncestry(s, e, e.proc, holder);
        assert ParentFirst(after, i);
      }
    }
  }

  /** With close-on-exec cleared, the lock is free exactly when the holder and every process it forked,
    * directly or not, is dead - after any forks, execs, exits and kills. */
  lemma {:induction false} LockFreeOnlyWhenTreeIsDead(s: Sys, events: seq<Event>, holder: nat)
    requires TreeHolds(s, holder) && forall e :: e in events ==> !e.Close?
    ensures var after := RunAll(s, events);
            && TreeHolds(after, holder)
            && (LockFree(after) <==> forall i :: 0 <= i < |after.procs| && ForkedFrom(after, i, holder) ==>
                 !after.procs[i].alive)
    decreases |events|
  {
    if events != [] {
      ApplyKeepsTree(s, events[0], holder);
      LockFreeOnlyWhenTreeIsDead(Apply(s, events[0]), events[1..], holder);
    }
  }

  /** Taking the lock and clearing close-on-exec is where such runs start. */
  lemma ClearedLockStarts(s: Sys, holder: nat)
    requires LockTaken(s, holder, false)
    ensures TreeHolds(s, holder)
  {
  }

  /** Both conditions are needed: with close-on-exec left on, or when a child closes the descriptor, the
    * lock is free while the child runs. */
  lemma InheritanceIsNeeded()
    ensures exists s: Sys, events: seq<Event> ::
              && LockTaken(s, 0, true) && (forall e :: e in events ==> !e.Close?)
              && LockFree(RunAll(s, events)) && Acts(RunAll(s, events), 1)
    ensures exists s: Sys, events: seq<Event> ::
              LockTaken(s, 0, false) && LockFree(RunAll(s, events)) && Acts(RunAll(s, events), 1)
  {
    var kept, cleared := Sys([Proc(0, true, Open(true))]), Sys([Proc(0, true, Open(false))]);
    var execs, closes := [Fork(0), Exec(1), Die(0)], [Fork(0), Close(1), Die(0)];
    assert ValidSys(kept) && ValidSys(cleared);
    assert LockTaken(kept, 0, true) && LockTaken(cleared, 0, false);
    var free := Sys([Proc(0, false, Open(true)), Proc(0, true, Closed)]);
    assert execs[1..][1..] == [Die(0)] && closes[1..][1..] == [Die(0)];
    assert Apply(Apply(Apply(kept, Fork(0)), Exec(1)), Die(0)) == free;
    assert RunAll(kept, execs) == free;
    assert Apply(Apply(Apply(cleared, Fork(0)), Close(1)), Die(0)) ==
           Sys([Proc(0, false, Open(false)), Proc(0, true, Closed)]);
    assert LockFree(RunAll(cleared, closes)) && Acts(RunAll(cleared, closes), 1);
  }
}
