/** The acquire rule: after the kernel lock is taken, the previous holder's domain must be empty
  * (tools/platform-probe/src/predecessor.rs).
  *
  * Everything the rule reads from outside is an input: the tries at the lock, the record, whether the
  * job opens, one reading per query of the domain and one round per fallback snapshot. A deadline is the
  * end of the respective sequence; every wait polls at least once.
  */
module Predecessor {
  import opened Wrappers
  import opened ProcessChain
  import opened JobDomain
  import opened JobRun

  const NOT_EMPTY := "predecessor-domain-not-empty"
  const LOCK_NEVER_OBTAINED := "contender never obtained the lock"

  datatype Record = Record(domainId: Option<string>, holderPid: Option<nat>, holderCreated: Option<nat>)

  /** The record names a holder only when both numbers are present; the pid is cut to 32 bits. */
  function HolderOf(record: Record): Option<Holder> {
    if record.holderPid.Some? && record.holderCreated.Some? then
      Some(Holder(record.holderPid.value % 0x1_0000_0000, record.holderCreated.value))
    else None
  }

  /** One fallback round: a snapshot, and which pids are alive when its chain is checked. */
  datatype Round = Round(procs: seq<ProcInfo>, alive: set<Pid>)

  /** A row of the round is the process with this pid and creation time, and it is alive. */
  predicate ListsLiving(r: Round, pid: Pid, created: Stamp) {
    pid in r.alive && exists p :: p in r.procs && p.pid == pid && p.created == Some(created)
  }

  datatype World = World(
    lockTries: seq<bool>, record: Option<Record>, jobOpens: bool,
    openActive: Option<nat>, openList: seq<Pid>, readings: seq<Reading>, rounds: seq<Round>)

  /** A wait always polls once; opening, the first query, the kill and the first wait poll each read. */
  ghost predicate ValidWorld(w: World) {
    && w.lockTries != [] && |w.readings| >= 4 && w.rounds != []
    && (forall r :: r in w.readings ==> UniquePids(r.procs))
    && (forall r :: r in w.rounds ==> UniquePids(r.procs))
  }

  // ---------- the fallback ----------

  ghost predicate Quiet(r: Round, holder: Holder) {
    forall pid :: pid in ChainResult(r.procs, holder.pid, holder.created) ==> pid !in r.alive
  }

  /** No round that lists the living holder is quiet. */
  lemma LivingHolderIsNotQuiet(r: Round, pid: Pid, created: Stamp)
    requires ListsLiving(r, pid, created)
    ensures !Quiet(r, Holder(pid, created))
  {
    assert HolderListed(r.procs, pid, created);
    assert pid in ChainResult(r.procs, pid, created);
  }

  /** Two successive snapshots whose chains were dead. */
  ghost predicate QuietTwice(rounds: seq<Round>, at: nat, holder: Holder)
    requires 0 < at < |rounds|
  {
    Quiet(rounds[at - 1], holder) && Quiet(rounds[at], holder)
  }

  datatype Fallback = Fallback(empty: bool, chainAtFirst: seq<Pid>)

  /** The chain of one snapshot and whether any of it is still alive. */
  method CheckRound(r: Round, holder: Holder) returns (chain: seq<Pid>, quiet: bool)
    requires UniquePids(r.procs)
    ensures (set pid | pid in chain) == ChainResult(r.procs, holder.pid, holder.created)
    ensures quiet <==> Quiet(r, holder)
    ensures quiet <==> forall pid :: pid in r.alive ==> pid !in ChainResult(r.procs, holder.pid, holder.created)
  {
    chain := ChainFrom(r.procs, holder.pid, holder.created);
    assert forall pid :: pid in chain <==> pid in (set p | p in chain);
    quiet := forall pid :: pid in chain ==> pid !in r.alive;
  }

  method FallbackWait(rounds: seq<Round>, holder: Holder) returns (f: Fallback, used: nat)
    requires rounds != [] && forall r :: r in rounds ==> UniquePids(r.procs)
    ensures 0 < used <= |rounds|
    ensures f.empty <==> used >= 2 && QuietTwice(rounds, used - 1, holder)
    ensures !f.empty ==> used == |rounds|
    ensures forall i :: 0 < i < used - 1 ==> !QuietTwice(rounds, i, holder)
    ensures (set pid | pid in f.chainAtFirst) == ChainResult(rounds[0].procs, holder.pid, holder.created)
  {
    var first: Option<seq<Pid>> := None;
    var quietRounds := 0;
    used := 0;
    while true
      invariant 0 <= used < |rounds| && quietRounds <= 1
      invariant first.None? <==> used == 0
      invariant first.Some? ==>
                  (set pid | pid in first.value) == ChainResult(rounds[0].procs, holder.pid, holder.created)
      invariant quietRounds == 1 <==> used > 0 && Quiet(rounds[used - 1], holder)
      invariant forall i :: 0 < i < used ==> !QuietTwice(rounds, i, holder)
      decreases |rounds| - used
    {
      var chain, quiet := CheckRound(rounds[used], holder);
      if first.None? {
        first := Some(chain);
      }
      quietRounds := if quiet then quietRounds + 1 else 0;
      used := used + 1;
      if quietRounds >= 2 {
        return Fallback(true, first.value), used;
      }
      if used == |rounds| {
        return Fallback(false, first.value), used;
      }
    }
  }

  // ---------- the rule ----------

  datatype Enter = Enter(
    proceeded: bool, heldReason: Option<string>, recordFound: bool, domainOpened: bool,
    terminated: bool, fallbackUsed: bool, openActive: Option<nat>, openListLen: Option<nat>)

  method WaitForLock(tries: seq<bool>) returns (obtained: bool)
    requires tries != []
    ensures obtained <==> true in tries
  {
    var i := 0;
    while true
      invariant 0 <= i < |tries| && true !in tries[..i]
      decreases |tries| - i
    {
      if tries[i] {
        return true;
      }
      i := i + 1;
      if i == |tries| {
        return false;
      }
      assert tries[..i] == tries[..i - 1] + [tries[i - 1]];
    }
  }

  /** Polls the opened domain until a poll finds it empty or the deadline passed. */
  method WaitUntilEmpty(dom: Dom, readings: seq<Reading>, from: nat) returns (empty: bool, used: nat)
    requires dom.Valid() && from < |readings| && dom.seen == readings[..from]
    requires forall r :: r in readings ==> UniquePids(r.procs)
    modifies dom
    ensures dom.Valid() && from < used <= |readings| && dom.seen == readings[..used]
    ensures empty <==> EmptyAfter(readings[..used], dom.holder)
    ensures !empty ==> used == |readings|
    ensures forall k :: from < k < used ==> !EmptyAfter(readings[..k], dom.holder)
  {
    used := from;
    while true
      invariant dom.Valid() && from <= used < |readings| && dom.seen == readings[..used]
      invariant forall k :: from < k <= used ==> !EmptyAfter(readings[..k], dom.holder)
      decreases |readings| - used
    {
      var n := dom.Active(readings[used]);
      used := used + 1;
      assert readings[..used] == readings[..used - 1] + [readings[used - 1]];
      if n == Some(0) {
        return true, used;
      }
      if used == |readings| {
        return false, used;
      }
    }
  }

  /** What an opened domain decides: open, query, and if it is not empty kill it and wait. */
  method CheckDomain(w: World, holder: Option<Holder>) returns (empty: bool, terminated: bool, used: nat)
    requires ValidWorld(w)
    ensures terminated <==> !EmptyAfter(w.readings[..2], holder)
    ensures terminated ==> 3 < used
    ensures !terminated ==> used == 2
    ensures used <= |w.readings| && (empty <==> EmptyAfter(w.readings[..used], holder))
    ensures !empty ==> used == |w.readings|
    ensures forall k :: 3 < k < used ==> !EmptyAfter(w.readings[..k], holder)
  {
    var dom := new Dom(holder);
    dom.Refresh(w.readings[0], true);
    var n := dom.Active(w.readings[1]);
    assert w.readings[..2] == [] + [w.readings[0]] + [w.readings[1]];
    empty, terminated, used := n == Some(0), false, 2;
    if !empty {
      dom.Refresh(w.readings[2], false);
      assert w.readings[..3] == w.readings[..2] + [w.readings[2]];
      terminated := true;
      empty, used := WaitUntilEmpty(dom, w.readings, 3);
    }
  }

  method EnterRule(w: World, fallback: bool) returns (result: Result<Enter, string>, used: nat)
    requires ValidWorld(w)
    ensures result.Err? <==> true !in w.lockTries
    ensures result.Err? ==> result.error == LOCK_NEVER_OBTAINED
    ensures result.Ok? ==> result.value.heldReason == if result.value.proceeded then None else Some(NOT_EMPTY)
    ensures result.Ok? ==> (result.value.recordFound <==> w.record.Some? && w.record.value.domainId.Some?)
    ensures result.Ok? ==> (result.value.domainOpened <==> result.value.recordFound && w.jobOpens)
    // Through the opened domain: proceed on an empty poll, after a kill unless the first poll was empty.
    ensures result.Ok? && result.value.domainOpened ==>
              && used <= |w.readings|
              && (result.value.proceeded <==> EmptyAfter(w.readings[..used], HolderOf(w.record.value)))
              && (result.value.terminated <==> !EmptyAfter(w.readings[..2], HolderOf(w.record.value)))
              && (if result.value.terminated then 3 < used else used == 2)
              && (!result.value.proceeded ==> used == |w.readings|)
              && (forall k :: 3 < k < used ==> !EmptyAfter(w.readings[..k], HolderOf(w.record.value)))
    ensures result.Ok? && result.value.domainOpened && result.value.proceeded ==>
              forall states :: Observed(states, w.readings[..used], HolderOf(w.record.value), true)
                               ==> NeverAgain(states[|states| - 1])
    // Through the fallback: proceed after two quiet snapshots in a row.
    ensures result.Ok? ==>
              (result.value.fallbackUsed <==>
               result.value.recordFound && !w.jobOpens && fallback && HolderOf(w.record.value).Some?)
    ensures result.Ok? && result.value.fallbackUsed ==>
              && 0 < used <= |w.rounds|
              && (result.value.proceeded <==>
                   used >= 2 && QuietTwice(w.rounds, used - 1, HolderOf(w.record.value).value))
              && (!result.value.proceeded ==> used == |w.rounds|)
              && (forall k :: 0 < k < used - 1 ==> !QuietTwice(w.rounds, k, HolderOf(w.record.value).value))
    // The holder is the one the record names: a living process with its pid, cut to 32 bits, and its creation time,
    // listed in one of the last two rounds, keeps the contender out.
    ensures result.Ok? && result.value.fallbackUsed ==>
              && w.record.value.holderPid.Some? && w.record.value.holderCreated.Some?
              && (result.value.proceeded ==>
                    forall k :: used - 2 <= k < used ==>
                      !ListsLiving(w.rounds[k], w.record.value.holderPid.value % 0x1_0000_0000,
                                   w.record.value.holderCreated.value))
    // Otherwise nothing is checked.
    ensures result.Ok? && !result.value.domainOpened && !result.value.fallbackUsed ==> result.value.proceeded
    ensures result.Ok? && !result.value.domainOpened ==> !result.value.terminated
    ensures result.Ok? ==>
              if result.value.domainOpened
              then result.value.openActive == w.openActive && result.value.openListLen == Some(|w.openList|)
              else result.value.openActive == None && result.value.openListLen == None
  {
    used := 0;
    var obtained := WaitForLock(w.lockTries);
    if !obtained {
      return Err(LOCK_NEVER_OBTAINED), used;
    }
    var e := Enter(false, None, false, false, false, false, None, None);
    e := e.(recordFound := w.record.Some? && w.record.value.domainId.Some?);
    var empty := true;
    if e.recordFound {
      var holder := HolderOf(w.record.value);
      if w.jobOpens {
        e := e.(domainOpened := true, openActive := w.openActive, openListLen := Some(|w.openList|));
        var terminated;
        empty, terminated, used := CheckDomain(w, holder);
        e := e.(terminated := terminated);
      } else if fallback {
        if holder.Some? {
          var f;
          f, used := FallbackWait(w.rounds, holder.value);
          e := e.(fallbackUsed := true);
          empty := f.empty;
        }
      }
    }
    if empty {
      e := e.(proceeded := true);
    } else {
      e := e.(heldReason := Some(NOT_EMPTY));
    }
    if e.fallbackUsed && e.proceeded { RecordedHolderIsAbsent(w, used); }
    if e.domainOpened && e.proceeded {
      forall states | Observed(states, w.readings[..used], HolderOf(w.record.value), true)
        ensures NeverAgain(states[|states| - 1])
      {
        EmptyIsFinal(states, w.readings[..used], HolderOf(w.record.value));
      }
    }
    result := Ok(e);
  }

  /** The record's holder is not listed alive in either of two quiet rounds. */
  lemma RecordedHolderIsAbsent(w: World, used: nat)
    requires w.record.Some? && HolderOf(w.record.value).Some? && 2 <= used <= |w.rounds|
    requires QuietTwice(w.rounds, used - 1, HolderOf(w.record.value).value)
    ensures forall k :: used - 2 <= k < used ==>
              !ListsLiving(w.rounds[k], w.record.value.holderPid.value % 0x1_0000_0000,
                  w.record.value.holderCreated.value)
  {
    var pid, created := w.record.value.holderPid.value % 0x1_0000_0000, w.record.value.holderCreated.value;
    forall k | used - 2 <= k < used && ListsLiving(w.rounds[k], pid, created) ensures false {
      LivingHolderIsNotQuiet(w.rounds[k], pid, created);
    }
  }

  /** The holder walked from, here and in the domain's third source, is exactly the one the record names. */
  lemma RecordedHolder(record: Record, r: Reading, pid: Pid)
    ensures HolderOf(record).Some? <==> record.holderPid.Some? && record.holderCreated.Some?
    ensures SourcesOf(r, HolderOf(record), pid).tree <==>
            && record.holderPid.Some? && record.holderCreated.Some?
            && pid in ChainResult(r.procs, record.holderPid.value % 0x1_0000_0000, record.holderCreated.value)
  {
  }

  /** No member of the domain runs, whatever the operating system does from this state on. */
  ghost predicate NeverAgain(os: Os) {
    forall events :: NoMemberRuns(RunAll(os, events))
  }

  lemma EmptyIsFinal(states: seq<Os>, readings: seq<Reading>, holder: Option<Holder>)
    requires Observed(states, readings, holder, true) && EmptyAfter(readings, holder)
    ensures NeverAgain(states[|states| - 1])
  {
    var os := states[|states| - 1];
    forall events ensures NoMemberRuns(RunAll(os, events)) {
      EmptyPollIsFinal(states, readings, holder, events);
    }
  }
}
