/**
 The bounded queue `fifo<T>` (rpc/fifo.h:15-92): a monitor with one mutex and two condition
 variables.

 A step is one pass through a critical section, from the mutex to the next wait or return.  A thread
 is awake when it is inside `enq` or `deq` and not blocked on a condition variable.  A signal wakes
 some non-empty set of the sleeping threads, and any sleeper may also wake up spuriously.
 */
module Fifo {
  import opened Common

  // ---------------------------------------------------------------- the critical sections

  /** `!max_ || q_.size() < max_` */
  predicate HasRoom(max: nat, len: nat) { max == 0 || len < max }

  datatype Outcome = Enqueued | MustWait | Refused

  /** One pass of `enq`: what becomes of the offer, and the queue. */
  function EnqResult<T>(max: nat, q: seq<T>, e: T, blocking: bool): (r: (Outcome, seq<T>)) {
    if HasRoom(max, |q|) then (Enqueued, q + [e]) else (if blocking then MustWait else Refused, q)
  }

  /** One pass of `deq`: the item if there is one, the queue, and whether space is signalled. */
  function DeqResult<T>(max: nat, q: seq<T>): (r: (Option<T>, seq<T>, bool)) {
    if q == [] then (None, q, false) else (Some(q[0]), q[1..], max != 0 && |q| - 1 < max)
  }

  /** The list `q_` itself, edited while the mutex is held. */
  class Buffer<T> {
    const max: nat
    var q: seq<T>

    constructor (limit: nat)
      ensures max == limit && q == []
    {
      max := limit;
      q := [];
    }

    method EnqPass(e: T, blocking: bool) returns (r: Outcome)
      modifies this
      ensures (r, q) == EnqResult(max, old(q), e, blocking)
    {
      if max == 0 || |q| < max {
        q := q + [e];
        return Enqueued;
      }
      r := if blocking then MustWait else Refused;
    }

    /** `signal` tells whether `has_space_c_` is signalled. */
    method DeqPass() returns (e: Option<T>, signal: bool)
      modifies this
      ensures (e, q, signal) == DeqResult(max, old(q))
    {
      if |q| == 0 {
        return None, false;
      }
      e := Some(q[0]);
      q := q[1..];
      signal := max != 0 && |q| < max;
    }
  }

  // ---------------------------------------------------------------- the monitor

  /** A producer inside `enq`. */
  datatype Offer<T> = Offer(item: T, blocking: bool)

  /** `enqd` and `deqd` log what went in and what came out. */
  datatype Queue<T> = Queue(
    max: nat,
    q: seq<T>,
    takers: set<nat>, sleepingTakers: set<nat>,
    givers: map<nat, Offer<T>>, sleepingGivers: map<nat, T>,
    enqd: seq<T>, deqd: seq<T>)

  datatype Step<T> =
    | EnterDeq(thread: nat)
    | EnterEnq(thread: nat, item: T, blocking: bool)
    | Deq(thread: nat, wake: set<nat>)
    | Enq(thread: nat, wake: set<nat>)
    | SpuriousTaker(thread: nat)
    | SpuriousGiver(thread: nat)

  predicate Signals(asleep: set<nat>, wake: set<nat>) {
    wake <= asleep && (asleep != {} ==> wake != {})
  }

  predicate Inside<T>(f: Queue<T>, t: nat) {
    t in f.takers || t in f.sleepingTakers || t in f.givers || t in f.sleepingGivers
  }

  predicate Enabled<T>(f: Queue<T>, step: Step<T>) {
    match step
    case EnterDeq(t) => !Inside(f, t)
    case EnterEnq(t, e, blocking) => !Inside(f, t)
    case Deq(t, wake) =>
      && t in f.takers
      && if DeqResult(f.max, f.q).2 then Signals(f.sleepingGivers.Keys, wake) else wake == {}
    case Enq(t, wake) =>
      && t in f.givers
      && var o := f.givers[t];
      && if EnqResult(f.max, f.q, o.item, o.blocking).0 == Enqueued then Signals(f.sleepingTakers, wake) else wake == {}
    case SpuriousTaker(t) => t in f.sleepingTakers
    case SpuriousGiver(t) => t in f.sleepingGivers
  }

  function WakeGivers<T>(f: Queue<T>, wake: set<nat>): (r: Queue<T>) {
    f.(givers := f.givers + (map t | t in f.sleepingGivers && t in wake :: Offer(f.sleepingGivers[t], true)),
       sleepingGivers := f.sleepingGivers - wake)
  }

  function WakeTakers<T>(f: Queue<T>, wake: set<nat>): (r: Queue<T>) {
    f.(takers := f.takers + wake, sleepingTakers := f.sleepingTakers - wake)
  }

  function Apply<T>(f: Queue<T>, step: Step<T>): (r: Queue<T>)
    requires Enabled(f, step)
  {
    match step
    case EnterDeq(t) => f.(takers := f.takers + {t})
    case EnterEnq(t, e, blocking) => f.(givers := f.givers[t := Offer(e, blocking)])
    case Deq(t, wake) =>
      var r := DeqResult(f.max, f.q);
      if r.0.None? then f.(takers := f.takers - {t}, sleepingTakers := f.sleepingTakers + {t})
      else WakeGivers(f.(takers := f.takers - {t}, q := r.1, deqd := f.deqd + [r.0.value]), wake)
    case Enq(t, wake) =>
      var o := f.givers[t];
      var r := EnqResult(f.max, f.q, o.item, o.blocking);
      match r.0 {
        case Enqueued => WakeTakers(f.(givers := f.givers - {t}, q := r.1, enqd := f.enqd + [o.item]), wake)
        case MustWait => f.(givers := f.givers - {t}, sleepingGivers := f.sleepingGivers[t := o.item])
        case Refused => f.(givers := f.givers - {t})
      }
    case SpuriousTaker(t) => WakeTakers(f, {t})
    case SpuriousGiver(t) => WakeGivers(f, {t})
  }

  function Fresh<T>(max: nat): (f: Queue<T>) { Queue(max, [], {}, {}, map[], map[], [], []) }

  ghost predicate IsRun<T>(max: nat, states: seq<Queue<T>>, steps: seq<Step<T>>) {
    && |states| == |steps| + 1
    && states[0] == Fresh(max)
    && forall i {:trigger steps[i]} ::
         0 <= i < |steps| ==> Enabled(states[i], steps[i]) && states[i + 1] == Apply(states[i], steps[i])
  }

  // ---------------------------------------------------------------- invariant

  /** Where a thread can be, and what the queue holds. */
  predicate Shape<T(==)>(f: Queue<T>) {
    && f.takers !! f.sleepingTakers
    && f.givers.Keys !! f.sleepingGivers.Keys
    && (f.max > 0 ==> |f.q| <= f.max)
    && f.enqd == f.deqd + f.q
    && (f.sleepingGivers != map[] ==> f.max > 0)
  }

  /** While somebody sleeps there are enough threads awake for everything that could be done: one
      taker per item, one giver per free slot. */
  predicate NoLostWakeup<T>(f: Queue<T>) {
    && (f.sleepingTakers != {} ==> |f.takers| >= |f.q|)
    && (f.sleepingGivers != map[] ==> |f.givers.Keys| + |f.q| >= f.max)
  }

  predicate Inv<T(==)>(f: Queue<T>) { Shape(f) && NoLostWakeup(f) }

  lemma AddDisjoint(a: set<nat>, b: set<nat>)
    requires a !! b
    ensures |a + b| == |a| + |b|
  {
  }

  lemma NonEmptyHasSize(a: set<nat>)
    requires a != {}
    ensures |a| >= 1
  {
    var x :| x in a;
    assert a == {x} + (a - {x});
  }

  lemma WakeGiversCounts<T>(f: Queue<T>, wake: set<nat>)
    requires f.givers.Keys !! f.sleepingGivers.Keys && wake <= f.sleepingGivers.Keys
    ensures var r := WakeGivers(f, wake);
      && r.givers.Keys == f.givers.Keys + wake && |r.givers.Keys| == |f.givers.Keys| + |wake|
      && r.sleepingGivers.Keys == f.sleepingGivers.Keys - wake
      && r.givers.Keys !! r.sleepingGivers.Keys
  {
    var r := WakeGivers(f, wake);
    assert r.givers.Keys == f.givers.Keys + wake;
    AddDisjoint(f.givers.Keys, wake);
  }

  lemma MoveFront<T>(out: seq<T>, q: seq<T>)
    requires q != []
    ensures out + q == (out + [q[0]]) + q[1..]
  {
    assert q == [q[0]] + q[1..];
  }

  lemma DeqKeepsShape<T>(f: Queue<T>, t: nat, wake: set<nat>)
    requires Shape(f) && Enabled(f, Deq(t, wake))
    ensures Shape(Apply(f, Deq(t, wake)))
  {
    if f.q != [] {
      var g := f.(takers := f.takers - {t}, q := f.q[1..], deqd := f.deqd + [f.q[0]]);
      WakeGiversCounts(g, wake);
      MoveFront(f.deqd, f.q);
    }
  }

  lemma DeqKeeps<T>(f: Queue<T>, t: nat, wake: set<nat>)
    requires Inv(f) && Enabled(f, Deq(t, wake))
    ensures Inv(Apply(f, Deq(t, wake)))
  {
    DeqKeepsShape(f, t, wake);
    assert f.takers == (f.takers - {t}) + {t};
    if f.q != [] {
      var g := f.(takers := f.takers - {t}, q := f.q[1..], deqd := f.deqd + [f.q[0]]);
      WakeGiversCounts(g, wake);
      if f.sleepingGivers != map[] {
        assert f.sleepingGivers.Keys != {};
        NonEmptyHasSize(wake);
      }
    }
  }

  lemma EnqKeeps<T>(f: Queue<T>, t: nat, wake: set<nat>)
    requires Inv(f) && Enabled(f, Enq(t, wake))
    ensures Inv(Apply(f, Enq(t, wake)))
  {
    var f' := Apply(f, Enq(t, wake));
    assert f.givers.Keys == (f.givers - {t}).Keys + {t};
    if HasRoom(f.max, |f.q|) {
      AddDisjoint(f.takers, wake);
      if f.sleepingTakers != {} { NonEmptyHasSize(wake); }
    }
  }

  lemma EnterKeeps<T>(f: Queue<T>, step: Step<T>)
    requires Inv(f) && Enabled(f, step) && (step.EnterDeq? || step.EnterEnq?)
    ensures Inv(Apply(f, step))
  {
    match step
    case EnterDeq(t) => assert f.takers !! {t};
    case EnterEnq(t, e, blocking) =>
      assert f.givers[t := Offer(e, blocking)].Keys == f.givers.Keys + {t};
  }

  lemma SpuriousKeeps<T>(f: Queue<T>, step: Step<T>)
    requires Inv(f) && Enabled(f, step) && (step.SpuriousTaker? || step.SpuriousGiver?)
    ensures Inv(Apply(f, step))
  {
    match step
    case SpuriousTaker(t) => AddDisjoint(f.takers, {t});
    case SpuriousGiver(t) => WakeGiversCounts(f, {t});
  }

  lemma StepKeeps<T>(f: Queue<T>, step: Step<T>)
    requires Inv(f) && Enabled(f, step)
    ensures Inv(Apply(f, step)) && Apply(f, step).max == f.max
  {
    match step
    case Deq(t, wake) => DeqKeeps(f, t, wake);
    case Enq(t, wake) => EnqKeeps(f, t, wake);
    case EnterDeq(_) => EnterKeeps(f, step);
    case EnterEnq(_, _, _) => EnterKeeps(f, step);
    case SpuriousTaker(_) => SpuriousKeeps(f, step);
    case SpuriousGiver(_) => SpuriousKeeps(f, step);
  }

  lemma {:induction false} RunKeeps<T>(max: nat, states: seq<Queue<T>>, steps: seq<Step<T>>, i: nat)
    requires IsRun(max, states, steps) && i < |states|
    ensures Inv(states[i]) && states[i].max == max
  {
    if i == 0 {
    } else {
      RunKeeps(max, states, steps, i - 1);
      StepKeeps(states[i - 1], steps[i - 1]);
    }
  }

  // ---------------------------------------------------------------- main results

  /** In every interleaving: what came out is a prefix of what went in, the rest is queued in
      order, and a non-zero limit is never exceeded. */
  lemma FirstInFirstOut<T>(max: nat, states: seq<Queue<T>>, steps: seq<Step<T>>, i: nat)
    requires IsRun(max, states, steps) && i < |states|
    ensures states[i].deqd + states[i].q == states[i].enqd
    ensures max > 0 ==> |states[i].q| <= max
  {
    RunKeeps(max, states, steps, i);
  }

  /** In every interleaving: a sleeping taker leaves enough awake takers for every queued item, a
      sleeping giver leaves enough awake givers for every free slot, and takers and givers are never
      all asleep together. */
  lemma NoThreadIsForgotten<T>(max: nat, states: seq<Queue<T>>, steps: seq<Step<T>>, i: nat)
    requires IsRun(max, states, steps) && i < |states|
    ensures var f := states[i];
      && (f.sleepingTakers != {} ==> |f.takers| >= |f.q|)
      && (f.sleepingGivers != map[] ==> max > 0 && |f.givers.Keys| >= max - |f.q|)
      && !(f.sleepingTakers != {} && f.sleepingGivers != map[] && f.takers == {} && f.givers == map[])
  {
    RunKeeps(max, states, steps, i);
  }
}
