/**
 The lock server (lock_server.cc:33-64): each lock is a mutex, a condition variable and a flag.

 A step is one pass through a critical section of one lock.  The actors are the threads that serve the
 RPCs: an actor inside `acquire` is awake or asleep on the condition variable, and it holds the lock from
 the pass that grants it until it is released.  A signal wakes some non-empty set of the sleepers, and a
 sleeper may also wake up spuriously.  Every lock starts out with its table entry made.
 */
module LockServer {

  // ---------------------------------------------------------------- the monitor

  datatype Event = Grant(actor: nat) | Return(actor: nat)

  /** `log` records who got the lock and who gave it back. */
  datatype Lock = Lock(isLocked: bool, holders: set<nat>, awake: set<nat>, asleep: set<nat>, log: seq<Event>)

  datatype Move =
    | Enter(actor: nat)
    | Pass(actor: nat)
    | Release(actor: nat, wake: set<nat>)
    | Spurious(actor: nat)

  predicate Enabled(l: Lock, m: Move) {
    match m
    case Enter(a) => a !in l.holders && a !in l.awake && a !in l.asleep
    case Pass(a) => a in l.awake
    case Release(a, wake) => a !in l.awake && a !in l.asleep && wake <= l.asleep && (l.asleep != {} ==> wake != {})
    case Spurious(a) => a in l.asleep
  }

  function Apply(l: Lock, m: Move): (r: Lock)
    requires Enabled(l, m)
  {
    match m
    case Enter(a) => l.(awake := l.awake + {a})
    case Pass(a) =>
      if l.isLocked then l.(awake := l.awake - {a}, asleep := l.asleep + {a})
      else l.(awake := l.awake - {a}, isLocked := true, holders := l.holders + {a}, log := l.log + [Grant(a)])
    case Release(a, wake) =>
      l.(isLocked := false, holders := l.holders - {a},
         awake := l.awake + wake, asleep := l.asleep - wake, log := l.log + [Return(a)])
    case Spurious(a) => l.(awake := l.awake + {a}, asleep := l.asleep - {a})
  }

  const UNLOCKED := Lock(false, {}, {}, {}, [])

  /** A step of the server: a move on one of its locks. */
  datatype Step = Step(lid: nat, move: Move)

  predicate Possible(locks: map<nat, Lock>, s: Step) { s.lid in locks && Enabled(locks[s.lid], s.move) }

  function Next(locks: map<nat, Lock>, s: Step): (r: map<nat, Lock>)
    requires Possible(locks, s)
  {
    locks[s.lid := Apply(locks[s.lid], s.move)]
  }

  // ---------------------------------------------------------------- the critical sections

  /** The table itself: `isLocked` by lock id.  Each method is one critical section, and carries out the
      step of the monitor that an actor takes there. */
  class LockTable {
    var locks: map<nat, bool>

    /** The flags are those of the monitor's locks; a missing entry counts as unlocked. */
    ghost predicate Shows(ls: map<nat, Lock>)
      reads this
    {
      forall lid :: lid in ls ==> (ls[lid].isLocked <==> lid in locks && locks[lid])
    }

    constructor ()
      ensures locks == map[]
      ensures forall ls :: (forall lid :: lid in ls ==> ls[lid] == UNLOCKED) ==> Shows(ls)
    {
      locks := map[];
    }

    /** One test of the loop condition in `acquire` by `a`; `!granted` goes back to the wait.  A missing entry
        is made unlocked first. */
    method AcquirePass(lid: nat, ghost ls: map<nat, Lock>, ghost a: nat) returns (granted: bool)
      requires Shows(ls) && Possible(ls, Step(lid, Pass(a))) && a !in ls[lid].holders
      modifies this
      ensures Shows(Next(ls, Step(lid, Pass(a))))
      ensures granted <==> a in Next(ls, Step(lid, Pass(a)))[lid].holders
      ensures forall other :: other != lid ==> (other in locks <==> other in old(locks))
    {
      if lid !in locks { locks := locks[lid := false]; }
      if locks[lid] { return false; }
      locks := locks[lid := true];
      granted := true;
    }

    /** `operator[]` makes a missing entry here too. */
    method Release(lid: nat, ghost ls: map<nat, Lock>, ghost a: nat, ghost wake: set<nat>)
      requires Shows(ls) && Possible(ls, Step(lid, Move.Release(a, wake)))
      modifies this
      ensures Shows(Next(ls, Step(lid, Move.Release(a, wake))))
      ensures forall other :: other != lid ==> (other in locks <==> other in old(locks))
    {
      locks := locks[lid := false];
    }
  }

  // ---------------------------------------------------------------- honest runs

  /** Nobody gives back a lock that it does not hold. */
  predicate Honest(l: Lock, m: Move) { m.Release? ==> m.actor in l.holders }

  ghost predicate IsRun(ids: set<nat>, states: seq<map<nat, Lock>>, steps: seq<Step>) {
    && |states| == |steps| + 1
    && states[0] == (map lid | lid in ids :: UNLOCKED)
    && forall i {:trigger steps[i]} ::
         0 <= i < |steps| ==> Possible(states[i], steps[i]) && states[i + 1] == Next(states[i], steps[i])
  }

  ghost predicate IsHonestRun(ids: set<nat>, states: seq<map<nat, Lock>>, steps: seq<Step>) {
    && IsRun(ids, states, steps)
    && forall i {:trigger steps[i]} :: 0 <= i < |steps| ==> Honest(states[i][steps[i].lid], steps[i].move)
  }

  // ---------------------------------------------------------------- invariant

  /** Who holds the lock after a log in which grants and returns alternate, each return being the
      holder's; `Broken` when the log is not of that form. */
  datatype Holding = Broken | Nobody | Held(actor: nat)

  function Replay(log: seq<Event>): (h: Holding) {
    if log == [] then Nobody
    else
      var h, e := Replay(log[..|log| - 1]), log[|log| - 1];
      if h == Nobody && e.Grant? then Held(e.actor)
      else if e.Return? && h == Held(e.actor) then Nobody
      else Broken
  }

  predicate Exclusive(l: Lock) { forall a, b :: a in l.holders && b in l.holders ==> a == b }

  /** The flag tells the truth. */
  predicate FlagIsRight(l: Lock) { l.isLocked <==> l.holders != {} }

  /** A free lock that somebody sleeps on has somebody awake to take it. */
  predicate NoLostWakeup(l: Lock) { !l.isLocked && l.asleep != {} ==> l.awake != {} }

  predicate LogAgrees(l: Lock) {
    match Replay(l.log)
    case Broken => false
    case Nobody => l.holders == {}
    case Held(a) => l.holders == {a}
  }

  predicate Inv(l: Lock) {
    && FlagIsRight(l) && NoLostWakeup(l) && LogAgrees(l)
    && l.awake !! l.asleep && l.holders !! (l.awake + l.asleep)
  }

  lemma ReplayAppend(log: seq<Event>, e: Event)
    ensures Replay(log + [e]) ==
      if Replay(log) == Nobody && e.Grant? then Held(e.actor)
      else if e.Return? && Replay(log) == Held(e.actor) then Nobody
      else Broken
  {
    assert (log + [e])[..|log|] == log;
  }

  lemma MoveKeeps(l: Lock, m: Move)
    requires Inv(l) && Enabled(l, m) && Honest(l, m)
    ensures Inv(Apply(l, m))
  {
    match m
    case Pass(a) => ReplayAppend(l.log, Grant(a));
    case Release(a, wake) =>
      ReplayAppend(l.log, Return(a));
      var r := Apply(l, m);
      if r.asleep != {} {
        var t :| t in wake;
        assert t in r.awake;
      }
    case Enter(a) =>
    case Spurious(a) => assert a in Apply(l, m).awake;
  }

  lemma {:induction false} RunKeeps(ids: set<nat>, states: seq<map<nat, Lock>>, steps: seq<Step>, k: nat)
    requires IsHonestRun(ids, states, steps) && k < |states|
    ensures states[k].Keys == ids && forall lid :: lid in ids ==> Inv(states[k][lid])
  {
    if k == 0 {
      assert Inv(UNLOCKED);
    } else {
      RunKeeps(ids, states, steps, k - 1);
      var s := steps[k - 1];
      assert Honest(states[k - 1][s.lid], s.move);
      MoveKeeps(states[k - 1][s.lid], s.move);
    }
  }

  // ---------------------------------------------------------------- what clients can rely on

  /** Mutual exclusion in every state of every honest run, whatever happens on the other locks. */
  lemma MutualExclusion(ids: set<nat>, states: seq<map<nat, Lock>>, steps: seq<Step>, k: nat, lid: nat)
    requires IsHonestRun(ids, states, steps) && k < |states| && lid in ids
    ensures lid in states[k] && Exclusive(states[k][lid])
    ensures FlagIsRight(states[k][lid])
    ensures Replay(states[k][lid].log) != Broken
  {
    RunKeeps(ids, states, steps, k);
    var l := states[k][lid];
    assert LogAgrees(l);
    forall a, b | a in l.holders && b in l.holders ensures a == b {
      match Replay(l.log)
      case Held(c) => assert a == c && b == c;
      case _ =>
    }
  }

  /** No waiter is stranded: a lock nobody holds that somebody is inside `acquire` for has an actor whose
      very next pass takes it. */
  lemma FreeLockGetsTaken(ids: set<nat>, states: seq<map<nat, Lock>>, steps: seq<Step>, k: nat, lid: nat)
    requires IsHonestRun(ids, states, steps) && k < |states| && lid in ids
    requires lid in states[k] && states[k][lid].holders == {}
    requires states[k][lid].awake + states[k][lid].asleep != {}
    ensures var l := states[k][lid]; exists a: nat :: Enabled(l, Pass(a)) && Apply(l, Pass(a)).holders == {a}
  {
    RunKeeps(ids, states, steps, k);
    var l := states[k][lid];
    assert l.awake != {};
    var a :| a in l.awake;
    assert Enabled(l, Pass(a)) && Apply(l, Pass(a)).holders == {a};
  }

  // ---------------------------------------------------------------- exactly when exclusion holds

  /** A release that its caller is entitled to, or that has nothing to take away. */
  predicate Harmless(l: Lock, m: Move) { m.Release? ==> m.actor in l.holders || l.holders == {} }

  ghost predicate IsHarmlessRun(ids: set<nat>, states: seq<map<nat, Lock>>, steps: seq<Step>) {
    && IsRun(ids, states, steps)
    && forall i {:trigger steps[i]} :: 0 <= i < |steps| ==> Harmless(states[i][steps[i].lid], steps[i].move)
  }

  predicate Safe(l: Lock) { Exclusive(l) && FlagIsRight(l) }

  /** Every lock is safe in every state. */
  ghost predicate AlwaysSafe(ids: set<nat>, states: seq<map<nat, Lock>>) {
    forall k, lid :: 0 <= k < |states| && lid in ids ==> lid in states[k] && Safe(states[k][lid])
  }

  /** `release` does not look at who calls it: a harmful one leaves the lock held and its flag off. */
  lemma HarmfulReleaseBreaksFlag(l: Lock, m: Move)
    requires Enabled(l, m)
    ensures !Harmless(l, m) ==> !FlagIsRight(Apply(l, m))
  {
    assert m.Release? && m.actor !in l.holders ==> Apply(l, m).holders == l.holders;
  }

  lemma HarmlessMoveKeepsSafe(l: Lock, m: Move)
    requires Safe(l) && Enabled(l, m) && Harmless(l, m)
    ensures Safe(Apply(l, m))
  {
    var r := Apply(l, m);
    assert m.Release? ==> forall h :: h in r.holders ==> h in l.holders && h != m.actor;
  }

  lemma {:induction false} HarmlessRunIsSafe(ids: set<nat>, states: seq<map<nat, Lock>>, steps: seq<Step>, k: nat)
    requires IsHarmlessRun(ids, states, steps) && k < |states|
    ensures states[k].Keys == ids && forall lid :: lid in ids ==> Safe(states[k][lid])
  {
    if k == 0 {
    } else {
      HarmlessRunIsSafe(ids, states, steps, k - 1);
      var s := steps[k - 1];
      assert Harmless(states[k - 1][s.lid], s.move);
      HarmlessMoveKeepsSafe(states[k - 1][s.lid], s.move);
    }
  }

  /** Over all runs, with any releases by anybody: every lock has at most one holder and a true flag in every
      state if and only if every release is by a holder or of a lock that nobody holds. */
  lemma ExclusionHoldsIff(ids: set<nat>, states: seq<map<nat, Lock>>, steps: seq<Step>)
    requires IsRun(ids, states, steps)
    ensures AlwaysSafe(ids, states) <==> IsHarmlessRun(ids, states, steps)
  {
    if IsHarmlessRun(ids, states, steps) {
      forall k, lid | 0 <= k < |states| && lid in ids ensures lid in states[k] && Safe(states[k][lid]) {
        HarmlessRunIsSafe(ids, states, steps, k);
      }
    }
    if AlwaysSafe(ids, states) {
      forall i | 0 <= i < |steps| ensures Harmless(states[i][steps[i].lid], steps[i].move) {
        var s := steps[i];
        assert Possible(states[i], s);
        KeysStay(ids, states, steps, i);
        HarmfulReleaseBreaksFlag(states[i][s.lid], s.move);
        assert Safe(states[i + 1][s.lid]);
      }
    }
  }

  lemma {:induction false} KeysStay(ids: set<nat>, states: seq<map<nat, Lock>>, steps: seq<Step>, k: nat)
    requires IsRun(ids, states, steps) && k < |states|
    ensures states[k].Keys == ids
  {
    if k == 0 {
    } else {
      KeysStay(ids, states, steps, k - 1);
      assert Possible(states[k - 1], steps[k - 1]);
    }
  }

  lemma Extend(ids: set<nat>, states: seq<map<nat, Lock>>, steps: seq<Step>, s: Step)
    returns (states': seq<map<nat, Lock>>, steps': seq<Step>)
    requires IsRun(ids, states, steps) && Possible(states[|steps|], s)
    ensures states' == states + [Next(states[|steps|], s)] && steps' == steps + [s]
    ensures IsRun(ids, states', steps')
  {
    states', steps' := states + [Next(states[|steps|], s)], steps + [s];
    forall i | 0 <= i < |steps'|
      ensures Possible(states'[i], steps'[i]) && states'[i + 1] == Next(states'[i], steps'[i])
    {
      if i < |steps| { assert Possible(states[i], steps[i]); }
    }
  }

  /** A run in which `a` holds lock `lid`, `c` releases it without holding it, and `b` gets it as well. */
  lemma TwoHolders(lid: nat, a: nat, b: nat, c: nat) returns (states: seq<map<nat, Lock>>, steps: seq<Step>)
    requires a != b && c != a && c != b
    ensures IsRun({lid}, states, steps) && |steps| == 5 && steps[3].move == Release(c, {})
    ensures lid in states[5] && states[5][lid].holders == {a, b} && !Exclusive(states[5][lid])
  {
    var ids := {lid};
    states, steps := [map x | x in ids :: UNLOCKED], [];
    states, steps := Extend(ids, states, steps, Step(lid, Enter(a)));
    states, steps := Extend(ids, states, steps, Step(lid, Pass(a)));
    states, steps := Extend(ids, states, steps, Step(lid, Enter(b)));
    states, steps := Extend(ids, states, steps, Step(lid, Release(c, {})));
    states, steps := Extend(ids, states, steps, Step(lid, Pass(b)));
    assert states[5][lid].holders == {a, b};
  }
}
