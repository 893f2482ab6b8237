/**
 What becomes of an offer to the bounded queue of module Fifo, and of a job given to the pool of module ThrPool
 (rpc/fifo.h:56-72, rpc/thr_pool.cc:52-60).
 */
module FifoResults {
  import opened Common
  import Fifo
  import ThrPool

  /** Thread `t` is inside `enq` with `item`, and waits for room as long as it takes. */
  predicate Insists<T(==)>(f: Fifo.Queue<T>, t: nat, item: T) {
    || (t in f.givers && f.givers[t] == Fifo.Offer(item, true))
    || (t in f.sleepingGivers && f.sleepingGivers[t] == item)
  }

  /** The step appends `item` to the queue. */
  ghost predicate Appends<T>(f: Fifo.Queue<T>, f': Fifo.Queue<T>, item: T) {
    f'.enqd == f.enqd + [item] && f'.q == f.q + [item]
  }

  lemma InsistsOn<T>(f: Fifo.Queue<T>, step: Fifo.Step<T>, t: nat, item: T)
    requires Fifo.Inv(f) && Fifo.Enabled(f, step) && Insists(f, t, item)
    ensures Insists(Fifo.Apply(f, step), t, item) || Appends(f, Fifo.Apply(f, step), item)
  {
  }

  /** Between states `i` and `j` some step appended `item`. */
  ghost predicate Appended<T>(states: seq<Fifo.Queue<T>>, i: nat, j: nat, item: T) {
    exists k :: i < k < j && k + 1 < |states| && Appends(states[k], states[k + 1], item)
  }

  /** In every interleaving: a blocking offer stays inside `enq` until its item has been appended. */
  lemma {:induction false} BlockingOfferIsEnqueued<T>(
      max: nat, states: seq<Fifo.Queue<T>>, steps: seq<Fifo.Step<T>>, i: nat, j: nat, t: nat, item: T)
    requires Fifo.IsRun(max, states, steps) && i < j < |states| && steps[i] == Fifo.EnterEnq(t, item, true)
    ensures Insists(states[j], t, item) || Appended(states, i, j, item)
  {
    if j == i + 1 {
      assert Fifo.Enabled(states[i], steps[i]);
    } else {
      var k := j - 1;
      BlockingOfferIsEnqueued(max, states, steps, i, k, t, item);
      Fifo.RunKeeps(max, states, steps, k);
      assert Fifo.Enabled(states[k], steps[k]);
      if Insists(states[k], t, item) { InsistsOn(states[k], steps[k], t, item); }
    }
  }

  /** A pass of `enq` that does not block: the item is appended if and only if there is room, and the thread leaves
      either way. */
  lemma NonBlockingOfferLeaves<T>(f: Fifo.Queue<T>, t: nat, item: T, wake: set<nat>)
    requires Fifo.Inv(f) && Fifo.Enabled(f, Fifo.Enq(t, wake)) && f.givers[t] == Fifo.Offer(item, false)
    ensures var f' := Fifo.Apply(f, Fifo.Enq(t, wake));
      && t !in f'.givers && t !in f'.sleepingGivers
      && if f.max == 0 || |f.q| < f.max then Appends(f, f', item) else f'.q == f.q && f'.enqd == f.enqd
  {
  }

  // ---------------------------------------------------------------- jobs

  lemma PoolInsistsOn(p: ThrPool.Pool, step: ThrPool.Step, t: nat, item: ThrPool.Job)
    requires ThrPool.Inv(p) && ThrPool.Enabled(p, step) && Insists(p.f, t, item)
    ensures Insists(ThrPool.Apply(p, step).f, t, item) || Appends(p.f, ThrPool.Apply(p, step).f, item)
  {
    match step
    case Submit(u, id, blocking) => InsistsOn(p.f, Fifo.EnterEnq(u, ThrPool.Run(id), blocking), t, item);
    case Give(u, wake) => InsistsOn(p.f, Fifo.Enq(u, wake), t, item);
    case Take(u, wake) => InsistsOn(p.f, Fifo.Deq(u, wake), t, item);
    case Return(u) => InsistsOn(p.f, Fifo.EnterDeq(u), t, item);
    case Inject => InsistsOn(p.f, Fifo.EnterEnq(p.dtor, ThrPool.Pill, true), t, item);
    case Spurious(w) => InsistsOn(p.f, w, t, item);
    case Close =>
  }

  ghost predicate JobAppended(states: seq<ThrPool.Pool>, i: nat, j: nat, item: ThrPool.Job) {
    exists k :: i < k < j && k + 1 < |states| && Appends(states[k].f, states[k + 1].f, item)
  }

  /** In every schedule: a blocking `addJob` of job `id` stays inside until that very job is in the queue. */
  lemma {:induction false} SubmittedJobIsQueued(
      states: seq<ThrPool.Pool>, steps: seq<ThrPool.Step>, i: nat, j: nat, t: nat, id: nat)
    requires ThrPool.IsRun(states, steps) && i < j < |states| && steps[i] == ThrPool.Submit(t, id, true)
    ensures Insists(states[j].f, t, ThrPool.Run(id)) || JobAppended(states, i, j, ThrPool.Run(id))
  {
    if j == i + 1 {
      assert ThrPool.Enabled(states[i], steps[i]);
    } else {
      var k := j - 1;
      SubmittedJobIsQueued(states, steps, i, k, t, id);
      ThrPool.RunKeeps(states, steps, k);
      assert ThrPool.Enabled(states[k], steps[k]);
      if Insists(states[k].f, t, ThrPool.Run(id)) { PoolInsistsOn(states[k], steps[k], t, ThrPool.Run(id)); }
    }
  }

  /** In every schedule: the queue holds at most a hundred jobs for every worker, and an `addJob` that does not block
      is refused exactly when it holds that many. */
  lemma PoolHoldsAHundredEach(
      states: seq<ThrPool.Pool>, steps: seq<ThrPool.Step>, k: nat, t: nat, id: nat, wake: set<nat>)
    requires ThrPool.IsRun(states, steps) && k < |states|
    ensures var p := states[k];
      && |p.f.q| <= 100 * |p.workers|
      && (ThrPool.Enabled(p, ThrPool.Give(t, wake)) && p.f.givers[t] == Fifo.Offer(ThrPool.Run(id), false) ==>
        var q' := ThrPool.Apply(p, ThrPool.Give(t, wake)).f.q;
        q' == if |p.f.q| < 100 * |p.workers| then p.f.q + [ThrPool.Run(id)] else p.f.q)
  {
    ThrPool.RunKeeps(states, steps, k);
    var p := states[k];
    if ThrPool.Enabled(p, ThrPool.Give(t, wake)) && p.f.givers[t] == Fifo.Offer(ThrPool.Run(id), false) {
      NonBlockingOfferLeaves(p.f, t, ThrPool.Run(id), wake);
    }
    Fifo.NonEmptyHasSize(p.workers);
  }
}
