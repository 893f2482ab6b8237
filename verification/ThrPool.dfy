/**
 The thread pool and its shutdown by poison pills (rpc/thr_pool.cc:6-67) on top of `fifo`.

 `workers` are the threads in `th_`, `dtor` is the thread running the destructor, and other threads
 submit jobs.  A job is identified by its position in the order of removal from the queue.
 */
module ThrPool {
  import opened Common
  import Fifo

  datatype Job = Run(id: nat) | Pill

  /** `running` maps a busy worker to its job, `finished` are the jobs that have returned, `exited`
      the workers that have left their loop; `closing` is set when the destructor starts. */
  datatype Pool = Pool(
    workers: set<nat>,
    dtor: nat,
    f: Fifo.Queue<Job>,
    running: map<nat, nat>,
    finished: set<nat>,
    exited: set<nat>,
    closing: bool)

  datatype Step =
    | Submit(thread: nat, id: nat, blocking: bool)  // addJob
    | Give(thread: nat, wake: set<nat>)             // a pass of enq
    | Take(thread: nat, wake: set<nat>)             // a pass of deq by a worker
    | Return(thread: nat)                           // a job returns, the worker loops
    | Close                                         // the destructor starts
    | Inject                                        // it offers the next pill
    | Spurious(wakeup: Fifo.Step<Job>)

  function Pills(js: seq<Job>): (c: nat) {
    if js == [] then 0 else Pills(js[..|js| - 1]) + if js[|js| - 1].Pill? then 1 else 0
  }

  predicate Enabled(p: Pool, step: Step) {
    match step
    case Submit(t, id, blocking) =>
      !p.closing && t !in p.workers && t != p.dtor && Fifo.Enabled(p.f, Fifo.EnterEnq(t, Run(id), blocking))
    case Give(t, wake) => Fifo.Enabled(p.f, Fifo.Enq(t, wake))
    case Take(t, wake) => Fifo.Enabled(p.f, Fifo.Deq(t, wake))
    case Return(t) => t in p.running && Fifo.Enabled(p.f, Fifo.EnterDeq(t))
    // only when no external thread uses the pool any more (rpc/thr_pool.cc:35-36)
    case Close => !p.closing && p.f.givers == map[] && p.f.sleepingGivers == map[]
    case Inject =>
      p.closing && Pills(p.f.enqd) < |p.workers| && Fifo.Enabled(p.f, Fifo.EnterEnq(p.dtor, Pill, true))
    case Spurious(w) => (w.SpuriousTaker? || w.SpuriousGiver?) && Fifo.Enabled(p.f, w)
  }

  function Apply(p: Pool, step: Step): (r: Pool)
    requires Enabled(p, step)
  {
    match step
    case Submit(t, id, blocking) => p.(f := Fifo.Apply(p.f, Fifo.EnterEnq(t, Run(id), blocking)))
    case Give(t, wake) => p.(f := Fifo.Apply(p.f, Fifo.Enq(t, wake)))
    case Take(t, wake) =>
      var p' := p.(f := Fifo.Apply(p.f, Fifo.Deq(t, wake)));
      if p.f.q == [] then p'
      else if p.f.q[0].Pill? then p'.(exited := p.exited + {t})
      else p'.(running := p.running[t := |p.f.deqd|])
    case Return(t) =>
      p.(f := Fifo.Apply(p.f, Fifo.EnterDeq(t)), running := p.running - {t}, finished := p.finished + {p.running[t]})
    case Close => p.(closing := true)
    case Inject => p.(f := Fifo.Apply(p.f, Fifo.EnterEnq(p.dtor, Pill, true)))
    case Spurious(w) => p.(f := Fifo.Apply(p.f, w))
  }

  /** The constructor has started the workers, and all are about to take a job. */
  ghost predicate Init(p: Pool) {
    && p.workers != {} && p.dtor !in p.workers
    && p.f == Fifo.Fresh(100 * |p.workers|).(takers := p.workers)
    && p.running == map[] && p.finished == {} && p.exited == {} && !p.closing
  }

  ghost predicate IsRun(states: seq<Pool>, steps: seq<Step>) {
    && |states| == |steps| + 1
    && Init(states[0])
    && forall i {:trigger steps[i]} ::
         0 <= i < |steps| ==> Enabled(states[i], steps[i]) && states[i + 1] == Apply(states[i], steps[i])
  }

  // ---------------------------------------------------------------- invariant

  /** `workers` is the disjoint union of the other four. */
  ghost predicate Partition(workers: set<nat>, a: set<nat>, b: set<nat>, c: set<nat>, d: set<nat>) {
    && (forall t :: t in workers <==> t in a || t in b || t in c || t in d)
    && (forall t :: t in a ==> t !in b && t !in c && t !in d)
    && (forall t :: t in b ==> t !in c && t !in d)
    && (forall t :: t in c ==> t !in d)
  }

  /** Every worker is in exactly one place. */
  ghost predicate WorkersOk(p: Pool) {
    Partition(p.workers, p.f.takers, p.f.sleepingTakers, p.running.Keys, p.exited)
  }

  ghost predicate IsJob(p: Pool, i: nat) { i < |p.f.deqd| && p.f.deqd[i].Run? }

  ghost predicate RunningJob(p: Pool, t: nat, i: nat) { t in p.running && p.running[t] == i }

  /** Every job taken from the queue is running on one worker or has finished, not both. */
  ghost predicate JobsOk(p: Pool) {
    && (forall i :: IsJob(p, i) <==> i in p.finished || exists t :: RunningJob(p, t, i))
    && (forall t :: t in p.running ==> p.running[t] !in p.finished)
    && (forall t, u :: t in p.running && u in p.running && t != u ==> p.running[t] != p.running[u])
  }

  predicate PillsLast(js: seq<Job>) {
    forall i, j :: 0 <= i < j < |js| && js[i].Pill? ==> js[j].Pill?
  }

  /** The destructor is inside `enq`. */
  predicate Offering(p: Pool) { p.dtor in p.f.givers || p.dtor in p.f.sleepingGivers }

  ghost predicate PillsOk(p: Pool) {
    && PillsLast(p.f.enqd)
    && |p.exited| == Pills(p.f.deqd)
    && (!p.closing ==> Pills(p.f.enqd) == 0)
    && Pills(p.f.enqd) + (if Offering(p) then 1 else 0) <= |p.workers|
  }

  predicate GiverOk(p: Pool, t: nat, j: Job) {
    if p.closing then t == p.dtor && j.Pill? else t != p.dtor && j.Run?
  }

  ghost predicate GiversOk(p: Pool) {
    && (forall t :: t in p.f.givers ==> GiverOk(p, t, p.f.givers[t].item))
    && (forall t :: t in p.f.sleepingGivers ==> GiverOk(p, t, p.f.sleepingGivers[t]))
    && (p.closing ==> forall t :: t in p.f.givers ==> p.f.givers[t].blocking)
  }

  ghost predicate Inv(p: Pool) {
    && p.workers != {} && p.dtor !in p.workers && p.f.max == 100 * |p.workers|
    && Fifo.Inv(p.f) && WorkersOk(p) && JobsOk(p) && PillsOk(p) && GiversOk(p)
  }

  // ---------------------------------------------------------------- counting pills

  lemma {:induction false} PillsOfConcat(a: seq<Job>, b: seq<Job>)
    ensures Pills(a + b) == Pills(a) + Pills(b)
  {
    if b == [] {
      assert a + b == a;
    } else {
      PillsOfConcat(a, b[..|b| - 1]);
      assert (a + b)[..|a + b| - 1] == a + b[..|b| - 1];
    }
  }

  lemma {:induction false} NoPills(js: seq<Job>)
    ensures Pills(js) == 0 <==> forall i :: 0 <= i < |js| ==> js[i].Run?
  {
    if js == [] {
    } else {
      NoPills(js[..|js| - 1]);
    }
  }

  lemma PillsAppend(js: seq<Job>, j: Job)
    ensures Pills(js + [j]) == Pills(js) + if j.Pill? then 1 else 0
  {
    assert (js + [j])[..|js|] == js;
  }

  lemma PillsLastAppend(js: seq<Job>, j: Job)
    requires PillsLast(js) && (j.Pill? || Pills(js) == 0)
    ensures PillsLast(js + [j])
  {
    if j.Run? { NoPills(js); }
  }

  // ---------------------------------------------------------------- steps

  /** A step that takes nothing and finishes nothing. */
  lemma JobsFrame(p: Pool, p': Pool)
    requires JobsOk(p)
    requires p'.f.deqd == p.f.deqd && p'.running == p.running && p'.finished == p.finished
    ensures JobsOk(p')
  {
    assert forall i :: IsJob(p', i) <==> IsJob(p, i);
    assert forall u, i :: RunningJob(p', u, i) <==> RunningJob(p, u, i);
  }

  /** Giving moves at most the giver itself. */
  lemma GiveMoves(p: Pool, t: nat, wake: set<nat>)
    requires Enabled(p, Give(t, wake)) && p.f.givers.Keys !! p.f.sleepingGivers.Keys
    ensures var p' := Apply(p, Give(t, wake));
      && p'.workers == p.workers && p'.exited == p.exited && p'.closing == p.closing && p'.dtor == p.dtor
      && p'.f.deqd == p.f.deqd && p'.running == p.running
      && p'.f.givers.Keys == p.f.givers.Keys - {t}
      && if Fifo.HasRoom(p.f.max, |p.f.q|) then
           && p'.f.enqd == p.f.enqd + [p.f.givers[t].item] && |p'.f.q| == |p.f.q| + 1
           && p'.f.takers == p.f.takers + wake
           && (Offering(p') <==> Offering(p) && t != p.dtor)
         else
           && p'.f.enqd == p.f.enqd && p'.f.q == p.f.q && p'.f.takers == p.f.takers
           && (Offering(p') ==> Offering(p))
           && (p.f.givers[t].blocking ==> Offering(p') == Offering(p))
  {
  }

  lemma GiveKeepsPills(p: Pool, t: nat, wake: set<nat>)
    requires PillsOk(p) && GiversOk(p) && Enabled(p, Give(t, wake))
    requires p.f.givers.Keys !! p.f.sleepingGivers.Keys
    ensures PillsOk(Apply(p, Give(t, wake)))
  {
    var j := p.f.givers[t].item;
    assert GiverOk(p, t, j);
    GiveMoves(p, t, wake);
    if Fifo.HasRoom(p.f.max, |p.f.q|) {
      PillsAppend(p.f.enqd, j);
      PillsLastAppend(p.f.enqd, j);
    }
  }

  lemma GiveKeepsGivers(p: Pool, t: nat, wake: set<nat>)
    requires GiversOk(p) && Enabled(p, Give(t, wake))
    ensures GiversOk(Apply(p, Give(t, wake)))
  {
    assert GiverOk(p, t, p.f.givers[t].item);
  }

  lemma GiveKeeps(p: Pool, t: nat, wake: set<nat>)
    requires Inv(p) && Enabled(p, Give(t, wake))
    ensures Inv(Apply(p, Give(t, wake)))
  {
    var p' := Apply(p, Give(t, wake));
    Fifo.StepKeeps(p.f, Fifo.Enq(t, wake));
    GiveKeepsPills(p, t, wake);
    GiveKeepsGivers(p, t, wake);
    JobsFrame(p, p');
    assert WorkersOk(p');
  }

  /** What a worker takes is the first item of the queue. */
  lemma TakeKeepsJobs(p: Pool, t: nat, wake: set<nat>)
    requires JobsOk(p) && WorkersOk(p) && Enabled(p, Take(t, wake))
    ensures JobsOk(Apply(p, Take(t, wake)))
  {
    var p' := Apply(p, Take(t, wake));
    if p.f.q == [] || p.f.q[0].Pill? {
      assert forall i :: IsJob(p', i) <==> IsJob(p, i);
      assert forall u, i :: RunningJob(p', u, i) <==> RunningJob(p, u, i);
    } else {
      var k := |p.f.deqd|;
      assert t !in p.running;
      assert forall i :: IsJob(p', i) <==> IsJob(p, i) || i == k;
      assert RunningJob(p', t, k);
      assert forall u, i :: RunningJob(p', u, i) <==> RunningJob(p, u, i) || (u == t && i == k);
      assert !IsJob(p, k);
      forall u | u in p.running ensures p.running[u] != k { assert RunningJob(p, u, p.running[u]); }
    }
  }

  lemma TakeKeepsWorkers(p: Pool, t: nat, wake: set<nat>)
    requires WorkersOk(p) && Enabled(p, Take(t, wake))
    ensures WorkersOk(Apply(p, Take(t, wake)))
  {
    var p' := Apply(p, Take(t, wake));
    assert p'.f.sleepingTakers == if p.f.q == [] then p.f.sleepingTakers + {t} else p.f.sleepingTakers;
    assert p'.f.takers == p.f.takers - {t};
    if p.f.q != [] && p.f.q[0].Run? {
      assert p'.running.Keys == p.running.Keys + {t};
    }
  }

  lemma TakeKeepsPills(p: Pool, t: nat, wake: set<nat>)
    requires PillsOk(p) && WorkersOk(p) && Enabled(p, Take(t, wake))
    ensures PillsOk(Apply(p, Take(t, wake)))
  {
    var p' := Apply(p, Take(t, wake));
    TakeFrame(p, t, wake);
    if p.f.q != [] {
      PillsAppend(p.f.deqd, p.f.q[0]);
      assert t !in p.exited;
      AddOne(p.exited, t);
    }
  }

  lemma AddOne(s: set<nat>, t: nat)
    requires t !in s
    ensures |s + {t}| == |s| + 1
  {
  }

  /** What a taker does to the fields that pills are counted by. */
  lemma TakeFrame(p: Pool, t: nat, wake: set<nat>)
    requires Enabled(p, Take(t, wake))
    ensures var p' := Apply(p, Take(t, wake));
      && p'.f.enqd == p.f.enqd && p'.workers == p.workers && p'.closing == p.closing && p'.dtor == p.dtor
      && p'.f.deqd == (if p.f.q == [] then p.f.deqd else p.f.deqd + [p.f.q[0]])
      && p'.exited == (if p.f.q != [] && p.f.q[0].Pill? then p.exited + {t} else p.exited)
      && Offering(p') == Offering(p)
  {
    DeqKeepsGiving(p.f, t, wake, p.dtor);
  }

  lemma DeqKeepsGiving(f: Fifo.Queue<Job>, t: nat, wake: set<nat>, u: nat)
    requires Fifo.Enabled(f, Fifo.Deq(t, wake))
    ensures var f' := Fifo.Apply(f, Fifo.Deq(t, wake));
      u in f'.givers || u in f'.sleepingGivers <==> u in f.givers || u in f.sleepingGivers
  {
  }

  /** Some givers may have been woken, and nothing else has happened to any. */
  ghost predicate OnlyWoken(f: Fifo.Queue<Job>, f': Fifo.Queue<Job>) {
    && (forall u :: u in f'.sleepingGivers ==>
          u in f.sleepingGivers && f'.sleepingGivers[u] == f.sleepingGivers[u])
    && (forall u :: u in f'.givers ==>
          || (u in f.givers && f'.givers[u] == f.givers[u])
          || (u in f.sleepingGivers && f'.givers[u] == Fifo.Offer(f.sleepingGivers[u], true)))
  }

  lemma DeqOnlyWakes(f: Fifo.Queue<Job>, t: nat, wake: set<nat>)
    requires Fifo.Enabled(f, Fifo.Deq(t, wake))
    ensures OnlyWoken(f, Fifo.Apply(f, Fifo.Deq(t, wake)))
  {
  }

  lemma TakeKeepsGivers(p: Pool, t: nat, wake: set<nat>)
    requires GiversOk(p) && Enabled(p, Take(t, wake))
    ensures GiversOk(Apply(p, Take(t, wake)))
  {
    var p' := Apply(p, Take(t, wake));
    assert p'.f == Fifo.Apply(p.f, Fifo.Deq(t, wake)) && p'.closing == p.closing && p'.dtor == p.dtor;
    DeqOnlyWakes(p.f, t, wake);
    WokenGiversAreOk(p, p');
  }

  lemma WokenGiversAreOk(p: Pool, p': Pool)
    requires GiversOk(p) && p'.closing == p.closing && p'.dtor == p.dtor && OnlyWoken(p.f, p'.f)
    ensures GiversOk(p')
  {
    forall u | u in p'.f.givers ensures GiverOk(p', u, p'.f.givers[u].item) {
      if u in p.f.givers && p'.f.givers[u] == p.f.givers[u] {
        assert GiverOk(p, u, p.f.givers[u].item);
      } else {
        assert GiverOk(p, u, p.f.sleepingGivers[u]);
      }
    }
    forall u | u in p'.f.sleepingGivers ensures GiverOk(p', u, p'.f.sleepingGivers[u]) {
      assert GiverOk(p, u, p.f.sleepingGivers[u]);
    }
  }

  lemma TakeIsDeq(p: Pool, t: nat, wake: set<nat>)
    requires Enabled(p, Take(t, wake))
    ensures var p' := Apply(p, Take(t, wake));
      p'.f == Fifo.Apply(p.f, Fifo.Deq(t, wake)) && p'.f.max == p.f.max && p'.workers == p.workers && p'.dtor == p.dtor
  {
  }

  lemma TakeKeeps(p: Pool, t: nat, wake: set<nat>)
    requires Inv(p) && Enabled(p, Take(t, wake))
    ensures Inv(Apply(p, Take(t, wake)))
  {
    TakeIsDeq(p, t, wake);
    Fifo.StepKeeps(p.f, Fifo.Deq(t, wake));
    TakeKeepsJobs(p, t, wake);
    TakeKeepsWorkers(p, t, wake);
    TakeKeepsPills(p, t, wake);
    TakeKeepsGivers(p, t, wake);
  }

  lemma ReturnKeepsJobs(p: Pool, t: nat)
    requires JobsOk(p) && Enabled(p, Return(t))
    ensures JobsOk(Apply(p, Return(t)))
  {
    var p' := Apply(p, Return(t));
    assert forall i :: IsJob(p', i) <==> IsJob(p, i);
    assert RunningJob(p, t, p.running[t]);
    assert forall u, i :: RunningJob(p', u, i) <==> RunningJob(p, u, i) && u != t;
    forall i | IsJob(p', i) && i !in p'.finished ensures exists u :: RunningJob(p', u, i) {
      var u :| RunningJob(p, u, i);
      assert RunningJob(p', u, i);
    }
  }

  lemma ReturnKeeps(p: Pool, t: nat)
    requires Inv(p) && Enabled(p, Return(t))
    ensures Inv(Apply(p, Return(t)))
  {
    var p' := Apply(p, Return(t));
    Fifo.StepKeeps(p.f, Fifo.EnterDeq(t));
    ReturnKeepsJobs(p, t);
    assert WorkersOk(p') by { assert p'.running.Keys == p.running.Keys - {t}; }
    assert GiversOk(p') by {
      assert forall u, j :: GiverOk(p', u, j) == GiverOk(p, u, j);
    }
  }

  lemma SubmitKeeps(p: Pool, t: nat, id: nat, blocking: bool)
    requires Inv(p) && Enabled(p, Submit(t, id, blocking))
    ensures Inv(Apply(p, Submit(t, id, blocking)))
  {
    var p' := Apply(p, Submit(t, id, blocking));
    Fifo.StepKeeps(p.f, Fifo.EnterEnq(t, Run(id), blocking));
    JobsFrame(p, p');
    assert forall u, j :: GiverOk(p', u, j) == GiverOk(p, u, j);
  }

  lemma InjectKeeps(p: Pool)
    requires Inv(p) && Enabled(p, Inject)
    ensures Inv(Apply(p, Inject))
  {
    var p' := Apply(p, Inject);
    Fifo.StepKeeps(p.f, Fifo.EnterEnq(p.dtor, Pill, true));
    JobsFrame(p, p');
    assert forall u, j :: GiverOk(p', u, j) == GiverOk(p, u, j);
  }

  lemma CloseKeeps(p: Pool)
    requires Inv(p) && Enabled(p, Close)
    ensures Inv(Apply(p, Close))
  {
    JobsFrame(p, Apply(p, Close));
  }

  lemma SpuriousKeeps(p: Pool, w: Fifo.Step<Job>)
    requires Inv(p) && Enabled(p, Spurious(w))
    ensures Inv(Apply(p, Spurious(w)))
  {
    var p' := Apply(p, Spurious(w));
    Fifo.StepKeeps(p.f, w);
    JobsFrame(p, p');
    assert forall u, j :: GiverOk(p', u, j) == GiverOk(p, u, j);
    if w.SpuriousGiver? { assert GiverOk(p, w.thread, p.f.sleepingGivers[w.thread]); }
  }

  lemma StepKeeps(p: Pool, step: Step)
    requires Inv(p) && Enabled(p, step)
    ensures Inv(Apply(p, step))
  {
    match step
    case Give(t, wake) => GiveKeeps(p, t, wake);
    case Take(t, wake) => TakeKeeps(p, t, wake);
    case Return(t) => ReturnKeeps(p, t);
    case Submit(t, id, blocking) => SubmitKeeps(p, t, id, blocking);
    case Close => CloseKeeps(p);
    case Inject => InjectKeeps(p);
    case Spurious(w) => SpuriousKeeps(p, w);
  }

  lemma InitEstablishes(p: Pool)
    requires Init(p)
    ensures Inv(p)
  {
  }

  lemma {:induction false} RunKeeps(states: seq<Pool>, steps: seq<Step>, i: nat)
    requires IsRun(states, steps) && i < |states|
    ensures Inv(states[i])
  {
    if i == 0 {
      InitEstablishes(states[0]);
    } else {
      RunKeeps(states, steps, i - 1);
      StepKeeps(states[i - 1], steps[i - 1]);
    }
  }

  // ---------------------------------------------------------------- shutdown: the end state

  /** Behind a pill there are only pills. */
  lemma PillsBehindPills(out: seq<Job>, q: seq<Job>)
    ensures PillsLast(out + q) && Pills(out) > 0 && q != [] ==> Pills(q) > 0
  {
    NoPills(out);
    NoPills(q);
    if PillsLast(out + q) && Pills(out) > 0 && q != [] {
      var i :| 0 <= i < |out| && out[i].Pill?;
      assert (out + q)[i] == out[i] && (out + q)[|out|] == q[0];
    }
  }

  /** When all workers have exited, so that all joins return: each has taken exactly one pill, the
      queue is empty, no job is running, and every job ever accepted has run and finished. */
  lemma ShutdownIsClean(p: Pool)
    requires Inv(p) && p.exited == p.workers
    ensures Pills(p.f.deqd) == Pills(p.f.enqd) == |p.workers|
    ensures p.f.q == [] && p.running == map[]
    ensures forall i :: 0 <= i < |p.f.enqd| && p.f.enqd[i].Run? ==> i in p.finished
  {
    var out, q := p.f.deqd, p.f.q;
    Fifo.NonEmptyHasSize(p.workers);
    PillsOfConcat(out, q);
    PillsBehindPills(out, q);
    assert q == [];
    assert p.f.enqd == out;
    assert p.running.Keys == {};
    forall i: nat | IsJob(p, i) ensures i in p.finished {
      assert !exists t :: RunningJob(p, t, i);
    }
    forall i | 0 <= i < |p.f.enqd| && p.f.enqd[i].Run? ensures i in p.finished { assert IsJob(p, i); }
  }

  // ---------------------------------------------------------------- shutdown: progress

  lemma OnlyDtorGives(p: Pool)
    requires GiversOk(p) && p.closing
    ensures forall t :: t in p.f.givers || t in p.f.sleepingGivers ==> t == p.dtor
  {
    forall t | t in p.f.givers || t in p.f.sleepingGivers ensures t == p.dtor {
      assert t in p.f.givers ==> GiverOk(p, t, p.f.givers[t].item);
      assert t in p.f.sleepingGivers ==> GiverOk(p, t, p.f.sleepingGivers[t]);
    }
  }

  /** No schedule gets stuck: until all workers have exited, some thread can take a step that is not
      a spurious wakeup. */
  lemma NotStuck(p: Pool) returns (step: Step)
    requires Inv(p) && p.closing && p.exited != p.workers
    ensures Enabled(p, step) && !step.Spurious?
  {
    if p.running != map[] {
      var t :| t in p.running;
      OnlyDtorGives(p);
      return Return(t);
    }
    if p.f.takers != {} {
      var t :| t in p.f.takers;
      return Take(t, if p.f.q != [] then p.f.sleepingGivers.Keys else {});
    }
    AllAsleep(p);
    if p.dtor in p.f.givers {
      return Give(p.dtor, p.f.sleepingTakers);
    }
    return Inject;
  }

  /** With every remaining worker asleep the queue is empty, so the destructor is not asleep, and it
      still has a pill to offer. */
  lemma AllAsleep(p: Pool)
    requires Inv(p) && p.closing && p.exited != p.workers && p.running == map[] && p.f.takers == {}
    ensures p.f.q == [] && p.dtor !in p.f.sleepingGivers
    ensures p.dtor !in p.f.givers ==> Enabled(p, Inject)
  {
    assert p.f.sleepingTakers != {};
    assert p.f.deqd + [] == p.f.deqd;
    Fifo.NonEmptyHasSize(p.workers);
    OnlyDtorGives(p);
    assert p.dtor in p.f.sleepingGivers ==> p.f.givers.Keys == {};
    assert p.exited < p.workers;
    assert p.workers == p.exited + (p.workers - p.exited);
    Fifo.AddDisjoint(p.exited, p.workers - p.exited);
    Fifo.NonEmptyHasSize(p.workers - p.exited);
  }

  /** What a pill that is not in the queue yet may still cause: its removal, and waking everybody. */
  function PillWork(n: nat, left: int): (m: nat)
    decreases left
  {
    if left <= 0 then 0 else n + 6 + PillWork(n, left - 1)
  }

  /** The figures that shutdown progress is measured by: workers, pills not enqueued yet, whether the
      destructor is inside `enq` and awake there, queue length, busy workers, awake takers. */
  datatype Figures = Figures(n: nat, left: int, offering: bool, giving: bool, queued: nat, busy: nat, takers: nat)

  function FiguresOf(p: Pool): (g: Figures) {
    Figures(|p.workers|, |p.workers| - Pills(p.f.enqd), Offering(p), p.dtor in p.f.givers,
            |p.f.q|, |p.running.Keys|, |p.f.takers|)
  }

  function Work(g: Figures): (m: nat) {
    PillWork(g.n, g.left) + (if !g.offering && g.left > 0 then 2 else 0) + (if g.giving then 1 else 0)
    + 4 * g.queued + 2 * g.busy + g.takers
  }

  /** What is left to do before all workers have exited. */
  function Measure(p: Pool): (m: nat) { Work(FiguresOf(p)) }

  /** The destructor enqueues a pill, or goes to sleep. */
  lemma GiveMovesFigures(p: Pool, t: nat, wake: set<nat>)
    requires Inv(p) && p.closing && Enabled(p, Give(t, wake))
    ensures var a, b := FiguresOf(p), FiguresOf(Apply(p, Give(t, wake)));
      && b.n == a.n && a.giving && !b.giving && b.busy == a.busy
      && if Fifo.HasRoom(p.f.max, |p.f.q|) then
           a.left > 0 && b.left == a.left - 1 && b.queued == a.queued + 1 && b.takers <= a.takers + a.n
         else
           b.left == a.left && b.offering == a.offering && b.queued == a.queued && b.takers == a.takers
  {
    var j := p.f.givers[t].item;
    assert GiverOk(p, t, j) && p.f.givers[t].blocking;
    GiveMoves(p, t, wake);
    PillsAppend(p.f.enqd, j);
    if Fifo.HasRoom(p.f.max, |p.f.q|) {
      Fifo.AddDisjoint(p.f.takers, wake);
      SubsetIsSmaller(wake, p.workers);
    }
  }

  lemma DeqMovesTaker(f: Fifo.Queue<Job>, t: nat, wake: set<nat>)
    requires Fifo.Enabled(f, Fifo.Deq(t, wake))
    ensures Fifo.Apply(f, Fifo.Deq(t, wake)).takers == f.takers - {t}
  {
  }

  lemma TakeMovesWorker(p: Pool, t: nat, wake: set<nat>)
    requires Enabled(p, Take(t, wake))
    ensures var p' := Apply(p, Take(t, wake));
      && p'.f.takers == p.f.takers - {t}
      && p'.running.Keys == p.running.Keys + if p.f.q != [] && p.f.q[0].Run? then {t} else {}
  {
    DeqMovesTaker(p.f, t, wake);
    assert p.running[t := |p.f.deqd|].Keys == p.running.Keys + {t};
    assert p.running.Keys + {} == p.running.Keys;
  }

  lemma TakeMovesQueue(p: Pool, t: nat, wake: set<nat>)
    requires Enabled(p, Take(t, wake))
    ensures var p' := Apply(p, Take(t, wake));
      && p'.workers == p.workers && p'.f.enqd == p.f.enqd && (Offering(p') <==> Offering(p))
      && p'.f.q == (if p.f.q == [] then [] else p.f.q[1..])
      && (p.f.q == [] ==> p'.f.givers == p.f.givers)
  {
  }

  /** A worker takes an item, perhaps waking the destructor, or goes to sleep. */
  lemma TakeMovesFigures(p: Pool, t: nat, wake: set<nat>)
    requires Enabled(p, Take(t, wake)) && WorkersOk(p)
    ensures var a, b := FiguresOf(p), FiguresOf(Apply(p, Take(t, wake)));
      && b.n == a.n && b.left == a.left && b.offering == a.offering && b.takers == a.takers - 1
      && if p.f.q == [] then b.queued == a.queued && b.busy == a.busy && b.giving == a.giving
         else b.queued == a.queued - 1 && b.busy <= a.busy + 1
  {
    TakeMovesWorker(p, t, wake);
    TakeMovesQueue(p, t, wake);
    assert p.running.Keys + {} == p.running.Keys;
  }

  /** A job returns. */
  lemma ReturnMovesFigures(p: Pool, t: nat)
    requires Enabled(p, Return(t)) && WorkersOk(p)
    ensures var a, b := FiguresOf(p), FiguresOf(Apply(p, Return(t)));
      b == a.(busy := a.busy - 1, takers := a.takers + 1)
  {
    var p' := Apply(p, Return(t));
    assert p'.running.Keys == p.running.Keys - {t};
    assert p'.f.takers == p.f.takers + {t} && t !in p.f.takers;
  }

  lemma WorkDrops(a: Figures, b: Figures)
    requires b.n == a.n
    requires
      || (a.giving && !b.giving && b.busy == a.busy && a.left > 0 && b.left == a.left - 1
          && b.queued == a.queued + 1 && b.takers <= a.takers + a.n)
      || (a.giving && !b.giving && b.busy == a.busy && b.left == a.left && b.offering == a.offering
          && b.queued == a.queued && b.takers == a.takers)
      || (a.takers > 0 && b == a.(takers := a.takers - 1))
      || (b.left == a.left && b.offering == a.offering && b.takers == a.takers - 1
          && b.queued == a.queued - 1 && b.busy <= a.busy + 1)
      || (a.busy > 0 && b == a.(busy := a.busy - 1, takers := a.takers + 1))
      || (!a.offering && a.left > 0 && b == a.(offering := true, giving := true))
    ensures Work(b) < Work(a)
  {
  }

  lemma InjectMovesFigures(p: Pool)
    requires Enabled(p, Inject)
    ensures var a := FiguresOf(p);
      !a.offering && a.left > 0 && FiguresOf(Apply(p, Inject)) == a.(offering := true, giving := true)
  {
  }

  lemma GiveDrops(p: Pool, t: nat, wake: set<nat>)
    requires Inv(p) && p.closing && Enabled(p, Give(t, wake))
    ensures Measure(Apply(p, Give(t, wake))) < Measure(p)
  {
    GiveMovesFigures(p, t, wake);
    WorkDrops(FiguresOf(p), FiguresOf(Apply(p, Give(t, wake))));
  }

  lemma TakeDrops(p: Pool, t: nat, wake: set<nat>)
    requires Inv(p) && Enabled(p, Take(t, wake))
    ensures Measure(Apply(p, Take(t, wake))) < Measure(p)
  {
    TakeMovesFigures(p, t, wake);
    WorkDrops(FiguresOf(p), FiguresOf(Apply(p, Take(t, wake))));
  }

  lemma ReturnDrops(p: Pool, t: nat)
    requires Inv(p) && Enabled(p, Return(t))
    ensures Measure(Apply(p, Return(t))) < Measure(p)
  {
    ReturnMovesFigures(p, t);
    WorkDrops(FiguresOf(p), FiguresOf(Apply(p, Return(t))));
  }

  lemma InjectDrops(p: Pool)
    requires Enabled(p, Inject)
    ensures Measure(Apply(p, Inject)) < Measure(p)
  {
    InjectMovesFigures(p);
    WorkDrops(FiguresOf(p), FiguresOf(Apply(p, Inject)));
  }

  /** Once the destructor runs, every step but a spurious wakeup leaves less to do. */
  lemma StepDrops(p: Pool, step: Step)
    requires Inv(p) && p.closing && Enabled(p, step) && !step.Spurious?
    ensures Measure(Apply(p, step)) < Measure(p)
  {
    match step {
      case Give(t, wake) => GiveDrops(p, t, wake);
      case Take(t, wake) => TakeDrops(p, t, wake);
      case Return(t) => ReturnDrops(p, t);
      case Inject => InjectDrops(p);
    }
  }

  lemma ClosingStays(p: Pool, step: Step)
    requires p.closing && Enabled(p, step)
    ensures Apply(p, step).closing
  {
  }

  lemma TakerWakes(p: Pool, t: nat)
    requires Inv(p) && Enabled(p, Spurious(Fifo.SpuriousTaker(t)))
    ensures var a := FiguresOf(p); FiguresOf(Apply(p, Spurious(Fifo.SpuriousTaker(t)))) == a.(takers := a.takers + 1)
  {
    Fifo.AddDisjoint(p.f.takers, {t});
  }

  lemma GiverWakes(p: Pool, t: nat)
    requires Enabled(p, Spurious(Fifo.SpuriousGiver(t)))
    ensures var a, b := FiguresOf(p), FiguresOf(Apply(p, Spurious(Fifo.SpuriousGiver(t))));
      b == a.(giving := b.giving)
  {
    var f' := Fifo.Apply(p.f, Fifo.SpuriousGiver(t));
    assert f'.givers.Keys == p.f.givers.Keys + {t};
    assert f'.sleepingGivers.Keys == p.f.sleepingGivers.Keys - {t};
  }

  /** A spurious wakeup adds at most one to what is left to do. */
  lemma SpuriousAddsOne(p: Pool, w: Fifo.Step<Job>)
    requires Inv(p) && Enabled(p, Spurious(w))
    ensures Measure(Apply(p, Spurious(w))) <= Measure(p) + 1
  {
    if w.SpuriousTaker? {
      TakerWakes(p, w.thread);
    } else {
      GiverWakes(p, w.thread);
    }
  }

  // ---------------------------------------------------------------- main results

  function SpuriousIn(steps: seq<Step>, i: nat, j: nat): (n: nat)
    requires i <= j <= |steps|
  {
    if i == j then 0 else SpuriousIn(steps, i, j - 1) + if steps[j - 1].Spurious? then 1 else 0
  }

  lemma {:induction false} ClosingLasts(states: seq<Pool>, steps: seq<Step>, i: nat, j: nat)
    requires IsRun(states, steps) && i <= j < |states| && states[i].closing
    ensures states[j].closing
  {
    if i == j {
    } else {
      ClosingLasts(states, steps, i, j - 1);
      assert Enabled(states[j - 1], steps[j - 1]);
      ClosingStays(states[j - 1], steps[j - 1]);
    }
  }

  lemma RunDrops(states: seq<Pool>, steps: seq<Step>, k: nat)
    requires IsRun(states, steps) && k < |steps| && states[k].closing
    ensures Measure(states[k + 1]) + 1 <= Measure(states[k]) + if steps[k].Spurious? then 2 else 0
  {
    RunKeeps(states, steps, k);
    assert Enabled(states[k], steps[k]);
    if steps[k].Spurious? {
      SpuriousAddsOne(states[k], steps[k].wakeup);
    } else {
      StepDrops(states[k], steps[k]);
    }
  }

  lemma {:induction false} DropsAddUp(ms: seq<nat>, steps: seq<Step>, i: nat, j: nat)
    requires |ms| == |steps| + 1 && i <= j <= |steps|
    requires forall k :: i <= k < j ==> ms[k + 1] + 1 <= ms[k] + if steps[k].Spurious? then 2 else 0
    ensures ms[j] + (j - i) <= ms[i] + 2 * SpuriousIn(steps, i, j)
  {
    if i == j {
    } else {
      DropsAddUp(ms, steps, i, j - 1);
    }
  }

  function Measures(states: seq<Pool>): (ms: seq<nat>)
    ensures |ms| == |states|
  {
    if states == [] then [] else Measures(states[..|states| - 1]) + [Measure(states[|states| - 1])]
  }

  lemma {:induction false} MeasuresAt(states: seq<Pool>, k: nat)
    requires k < |states|
    ensures Measures(states)[k] == Measure(states[k])
  {
    if k == |states| - 1 {
    } else {
      MeasuresAt(states[..|states| - 1], k);
    }
  }

  lemma MeasuresDrop(states: seq<Pool>, steps: seq<Step>, i: nat, k: nat)
    requires IsRun(states, steps) && i <= k < |steps| && states[i].closing
    ensures Measures(states)[k + 1] + 1 <= Measures(states)[k] + if steps[k].Spurious? then 2 else 0
  {
    ClosingLasts(states, steps, i, k);
    RunDrops(states, steps, k);
    MeasuresAt(states, k);
    MeasuresAt(states, k + 1);
  }

  /** In every schedule, from the moment `i` the destructor starts: there are at most Measure steps that are
      not spurious wakeups, and one more for each spurious wakeup among them. */
  lemma ShutdownIsBounded(states: seq<Pool>, steps: seq<Step>, i: nat, j: nat)
    requires IsRun(states, steps) && i <= j < |states| && states[i].closing
    ensures states[j].closing
    ensures Measure(states[j]) + (j - i) <= Measure(states[i]) + 2 * SpuriousIn(steps, i, j)
  {
    ClosingLasts(states, steps, i, j);
    var ms := Measures(states);
    forall k | i <= k < j ensures ms[k + 1] + 1 <= ms[k] + if steps[k].Spurious? then 2 else 0 {
      MeasuresDrop(states, steps, i, k);
    }
    DropsAddUp(ms, steps, i, j);
    MeasuresAt(states, i);
    MeasuresAt(states, j);
  }

  /** In every schedule: a closing pool in which nothing but spurious wakeups can happen has shut
      down completely. */
  lemma QuietMeansShutDown(states: seq<Pool>, steps: seq<Step>, i: nat)
    requires IsRun(states, steps) && i < |states| && states[i].closing
    requires forall step: Step :: Enabled(states[i], step) ==> step.Spurious?
    ensures var p := states[i];
      && p.exited == p.workers && Pills(p.f.deqd) == |p.workers|
      && p.f.q == [] && p.running == map[]
      && forall k :: 0 <= k < |p.f.enqd| && p.f.enqd[k].Run? ==> k in p.finished
  {
    RunKeeps(states, steps, i);
    if states[i].exited != states[i].workers {
      var step := NotStuck(states[i]);
      assert false;
    }
    ShutdownIsClean(states[i]);
  }
}
