/**
 Who waits for whom in `connection::send` (rpc/connection.cc:61-77, 104-201).  A thread first waits on
 `send_wait_` for the one slot, then, as its owner, on `send_complete_` for its PDU to be written.  The poll
 thread's callbacks write on and notice broken connections, and `closeconn` kills the connection from outside.

 A step is one critical section of `m_`.  The bytes are those of module Connection; here a write only tells
 whether the PDU is now whole, still partial, or broken.  Any sleeper may also wake up spuriously.
 */
module SendWaiters {

  datatype Progress = Partial | Whole | Broken

  /** The thread whose PDU is in the slot: on its way back from `send_complete_`, asleep there, or unregistering
      the broken connection with `m_` released. */
  datatype Owner = NoOwner | Awake(thread: nat) | Asleep(thread: nat) | Removing(thread: nat)

  /** `callers` are about to enter; `sleeping` are asleep on `send_wait_`, `woken` on their way back from it;
      `waiters` is the counter `waiters_`. */
  datatype State = State(
    dead: bool, owner: Owner, progress: Progress,
    callers: set<nat>, sleeping: set<nat>, woken: set<nat>, waiters: nat)

  datatype Step =
    | Call(thread: nat)                  // send is called
    | Pass(thread: nat, write: Progress) // the wait for the slot, and the first write
    | Recheck                            // the owner wakes up
    | Removed                            // block_remove_fd has returned
    | WriteCb(write: Progress)
    | ReadFails                          // read_cb finds the connection broken
    | Close                              // closeconn
    | SpuriousWaiter(thread: nat)
    | SpuriousOwner

  predicate Inside(s: State, t: nat) {
    || t in s.callers || t in s.sleeping || t in s.woken
    || (!s.owner.NoOwner? && s.owner.thread == t)
  }

  /** `write_cb` asserts that the connection is alive; the other callbacks and `closeconn` do nothing on a dead
      one. */
  predicate Enabled(s: State, step: Step) {
    match step
    case Call(t) => !Inside(s, t)
    case Pass(t, write) => t in s.callers || t in s.woken
    case Recheck => s.owner.Awake?
    case Removed => s.owner.Removing?
    case WriteCb(write) => !s.dead && (s.progress == Whole ==> write == Whole)
    case ReadFails => !s.dead
    case Close => !s.dead
    case SpuriousWaiter(t) => t in s.sleeping
    case SpuriousOwner => s.owner.Asleep?
  }

  /** `pthread_cond_signal(&send_complete_)` */
  function SignalOwner(s: State): (r: State) {
    if s.owner.Asleep? then s.(owner := Awake(s.owner.thread)) else s
  }

  /** The end of `send`: the slot is freed, and everybody waiting for it is woken. */
  function Finish(s: State): (r: State) {
    var f := s.(owner := NoOwner);
    if s.waiters > 0 then f.(woken := s.woken + s.sleeping, sleeping := {}) else f
  }

  /** `t` leaves the first loop, if it was counted there. */
  function Admit(s: State, t: nat): (r: State) {
    if t in s.woken && s.waiters > 0 then s.(woken := s.woken - {t}, waiters := s.waiters - 1)
    else s.(callers := s.callers - {t})
  }

  /** `t` goes to sleep in the first loop. */
  function Queue(s: State, t: nat): (r: State) {
    if t in s.woken then s.(woken := s.woken - {t}, sleeping := s.sleeping + {t})
    else s.(callers := s.callers - {t}, sleeping := s.sleeping + {t}, waiters := s.waiters + 1)
  }

  function TakeSlot(s: State, t: nat, write: Progress): (r: State) {
    var a := Admit(s, t).(progress := write);
    match write
    case Broken => a.(owner := Removing(t), dead := true)
    case Partial => a.(owner := Asleep(t))
    case Whole => Finish(a)
  }

  function Apply(s: State, step: Step): (r: State)
    requires Enabled(s, step)
  {
    match step
    case Call(t) => s.(callers := s.callers + {t})
    case Pass(t, write) =>
      if !s.dead && !s.owner.NoOwner? then Queue(s, t)
      else if s.dead then Admit(s, t)
      else TakeSlot(s, t, write)
    case Recheck =>
      if !s.dead && s.progress == Partial then s.(owner := Asleep(s.owner.thread)) else Finish(s)
    case Removed => Finish(s)
    case WriteCb(write) =>
      if s.owner.NoOwner? then s
      else if write == Broken then SignalOwner(s.(dead := true, progress := Broken))
      else if write == Partial then s
      else SignalOwner(s.(progress := Whole))
    case ReadFails => SignalOwner(s.(dead := true))
    case Close => s.(dead := true)
    case SpuriousWaiter(t) => s.(sleeping := s.sleeping - {t}, woken := s.woken + {t})
    case SpuriousOwner => s.(owner := Awake(s.owner.thread))
  }

  const START := State(false, NoOwner, Whole, {}, {}, {}, 0)

  ghost predicate IsRun(states: seq<State>, steps: seq<Step>) {
    && |states| == |steps| + 1
    && states[0] == START
    && forall i {:trigger steps[i]} ::
         0 <= i < |steps| ==> Enabled(states[i], steps[i]) && states[i + 1] == Apply(states[i], steps[i])
  }

  // ---------------------------------------------------------------- invariant

  /** Where a thread can be. */
  predicate Apart(s: State) {
    && s.callers !! s.sleeping && s.callers !! s.woken && s.sleeping !! s.woken
    && (!s.owner.NoOwner? ==> s.owner.thread !in s.callers + s.sleeping + s.woken)
  }

  /** The counter is right, and nobody sleeps on a free slot. */
  predicate Inv(s: State) {
    && Apart(s)
    && s.waiters == |s.sleeping| + |s.woken|
    && (s.sleeping != {} ==> !s.owner.NoOwner?)
    && (s.owner.Removing? ==> s.dead)
  }

  lemma MoveOne(from: set<nat>, to: set<nat>, t: nat)
    requires t in from && t !in to
    ensures |from - {t}| == |from| - 1 && |to + {t}| == |to| + 1
  {
  }

  lemma JoinSets(a: set<nat>, b: set<nat>)
    requires a !! b
    ensures |a + b| == |a| + |b|
  {
  }

  lemma FinishKeeps(s: State)
    requires Inv(s)
    ensures Inv(Finish(s)) && Finish(s).sleeping == {}
  {
    JoinSets(s.woken, s.sleeping);
    if s.waiters == 0 { assert s.sleeping == {}; }
  }

  lemma AdmitKeeps(s: State, t: nat)
    requires Inv(s) && (t in s.callers || t in s.woken)
    ensures Inv(Admit(s, t)) && !Inside(Admit(s, t), t)
    ensures var a := Admit(s, t); a == s.(callers := a.callers, woken := a.woken, waiters := a.waiters)
  {
    if t in s.woken { MoveOne(s.woken, {}, t); }
  }

  lemma QueueKeeps(s: State, t: nat)
    requires Inv(s) && (t in s.callers || t in s.woken) && !s.owner.NoOwner?
    ensures Inv(Queue(s, t))
  {
    if t in s.woken { MoveOne(s.woken, s.sleeping, t); } else { MoveOne(s.callers, s.sleeping, t); }
  }

  lemma TakeSlotKeeps(s: State, t: nat, write: Progress)
    requires Inv(s) && (t in s.callers || t in s.woken) && s.owner.NoOwner?
    ensures Inv(TakeSlot(s, t, write))
  {
    AdmitKeeps(s, t);
    FinishKeeps(Admit(s, t).(progress := write));
  }

  lemma PassKeeps(s: State, t: nat, write: Progress)
    requires Inv(s) && (t in s.callers || t in s.woken)
    ensures Inv(Apply(s, Pass(t, write)))
  {
    if !s.dead && !s.owner.NoOwner? {
      QueueKeeps(s, t);
    } else if s.dead {
      AdmitKeeps(s, t);
    } else {
      TakeSlotKeeps(s, t, write);
    }
  }

  lemma SpuriousWaiterKeeps(s: State, t: nat)
    requires Inv(s) && t in s.sleeping
    ensures Inv(Apply(s, SpuriousWaiter(t)))
  {
    MoveOne(s.sleeping, s.woken, t);
  }

  /** The slot keeps its owner, and nobody else moves. */
  predicate OnlyOwnerChanges(s: State, t: State) {
    && t == s.(dead := t.dead, owner := t.owner, progress := t.progress)
    && (if s.owner.NoOwner? then t.owner.NoOwner? else !t.owner.NoOwner? && t.owner.thread == s.owner.thread)
    && (t.owner.Removing? ==> s.owner.Removing?) && (s.dead ==> t.dead)
  }

  lemma CallbackChanges(s: State, step: Step)
    requires Enabled(s, step) && (step.WriteCb? || step.ReadFails? || step.Close? || step.SpuriousOwner?)
    ensures OnlyOwnerChanges(s, Apply(s, step))
  {
  }

  lemma OwnerChangeKeeps(s: State, t: State)
    requires Inv(s) && OnlyOwnerChanges(s, t)
    ensures Inv(t)
  {
  }

  lemma StepKeeps(s: State, step: Step)
    requires Inv(s) && Enabled(s, step)
    ensures Inv(Apply(s, step))
  {
    match step
    case Pass(t, write) => PassKeeps(s, t, write);
    case SpuriousWaiter(t) => SpuriousWaiterKeeps(s, t);
    case Recheck => FinishKeeps(s);
    case Removed => FinishKeeps(s);
    case Call(_) =>
    case _ =>
      CallbackChanges(s, step);
      OwnerChangeKeeps(s, Apply(s, step));
  }

  lemma {:induction false} RunKeeps(states: seq<State>, steps: seq<Step>, k: nat)
    requires IsRun(states, steps) && k < |states|
    ensures Inv(states[k])
  {
    if k == 0 {
    } else {
      RunKeeps(states, steps, k - 1);
      StepKeeps(states[k - 1], steps[k - 1]);
    }
  }

  // ---------------------------------------------------------------- the waiters depend on the owner alone

  /** In every run, while anybody sleeps on `send_wait_` there is an owner; and when the owner finishes, they all
      wake up. */
  lemma WaitersHaveAnOwner(states: seq<State>, steps: seq<Step>, k: nat)
    requires IsRun(states, steps) && k < |states| && states[k].sleeping != {}
    ensures !states[k].owner.NoOwner?
    ensures k < |steps| && states[k + 1].owner.NoOwner? ==> states[k + 1].sleeping == {}
    ensures k < |steps| && states[k + 1].owner.NoOwner? ==> states[k].sleeping <= states[k + 1].woken
  {
    RunKeeps(states, steps, k);
    if k < |steps| {
      RunKeeps(states, steps, k + 1);
      assert Enabled(states[k], steps[k]);
    }
  }

  // ---------------------------------------------------------------- exactly when an owner is stranded

  /** The owner sleeps although it has nothing to wait for any more. */
  predicate Stranded(s: State) { s.owner.Asleep? && (s.dead || s.progress != Partial) }

  /** Only `closeconn` strands a sleeping owner. */
  lemma StrandsIff(s: State, step: Step)
    requires Enabled(s, step) && !Stranded(s)
    ensures Stranded(Apply(s, step)) <==> step == Close && s.owner.Asleep?
  {
  }

  /** Over all runs: no sender is ever stranded if and only if `closeconn` is never called while the slot's owner
      is asleep. */
  lemma NobodyIsStrandedIff(states: seq<State>, steps: seq<Step>)
    requires IsRun(states, steps)
    ensures (forall k :: 0 <= k < |states| ==> !Stranded(states[k])) <==>
      (forall i :: 0 <= i < |steps| ==> !(steps[i] == Close && states[i].owner.Asleep?))
  {
    if forall k :: 0 <= k < |states| ==> !Stranded(states[k]) {
      forall i | 0 <= i < |steps| ensures !(steps[i] == Close && states[i].owner.Asleep?) {
        assert Enabled(states[i], steps[i]) && !Stranded(states[i + 1]) && !Stranded(states[i]);
        StrandsIff(states[i], steps[i]);
      }
    }
    if forall i :: 0 <= i < |steps| ==> !(steps[i] == Close && states[i].owner.Asleep?) {
      forall k | 0 <= k < |states| ensures !Stranded(states[k]) { NotStrandedYet(states, steps, k); }
    }
  }

  lemma {:induction false} NotStrandedYet(states: seq<State>, steps: seq<Step>, k: nat)
    requires IsRun(states, steps) && k < |states|
    requires forall i :: 0 <= i < |steps| ==> !(steps[i] == Close && states[i].owner.Asleep?)
    ensures !Stranded(states[k])
  {
    if k == 0 {
    } else {
      NotStrandedYet(states, steps, k - 1);
      assert Enabled(states[k - 1], steps[k - 1]);
      StrandsIff(states[k - 1], steps[k - 1]);
    }
  }

  /** The owner sleeps only on a partly written PDU. */
  lemma {:induction false} SleepsOnPartial(states: seq<State>, steps: seq<Step>, k: nat)
    requires IsRun(states, steps) && k < |states|
    ensures states[k].owner.Asleep? ==> states[k].progress == Partial
  {
    if k == 0 {
    } else {
      SleepsOnPartial(states, steps, k - 1);
      assert Enabled(states[k - 1], steps[k - 1]);
    }
  }

  /** And then it stays so, with everybody who waits for the slot: only a spurious wakeup of the owner ends it. */
  lemma {:induction false} StrandedForGood(states: seq<State>, steps: seq<Step>, i: nat, j: nat)
    requires IsRun(states, steps) && i <= j < |states| && Stranded(states[i])
    requires forall k :: i <= k < j ==> steps[k] != SpuriousOwner
    ensures Stranded(states[j]) && states[j].dead && states[j].owner == states[i].owner
    ensures forall t :: t in states[i].sleeping && (forall k :: i <= k < j ==> steps[k] != SpuriousWaiter(t)) ==>
      t in states[j].sleeping
  {
    if i == j {
      SleepsOnPartial(states, steps, i);
    } else {
      StrandedForGood(states, steps, i, j - 1);
      assert Enabled(states[j - 1], steps[j - 1]);
    }
  }

  lemma Extend(states: seq<State>, steps: seq<Step>, step: Step) returns (states': seq<State>, steps': seq<Step>)
    requires IsRun(states, steps) && Enabled(states[|steps|], step)
    ensures states' == states + [Apply(states[|steps|], step)] && steps' == steps + [step]
    ensures IsRun(states', steps')
  {
    states', steps' := states + [Apply(states[|steps|], step)], steps + [step];
    forall i | 0 <= i < |steps'|
      ensures Enabled(states'[i], steps'[i]) && states'[i + 1] == Apply(states'[i], steps'[i])
    {
      if i < |steps| { assert Enabled(states[i], steps[i]); }
    }
  }

  /** A run in which `a` waits for the rest of its PDU, `b` waits for the slot, and `closeconn` strands both. */
  lemma CloseStrandsBoth(a: nat, b: nat) returns (states: seq<State>, steps: seq<Step>)
    requires a != b
    ensures IsRun(states, steps) && |steps| == 5 && steps[4] == Close
    ensures Stranded(states[5]) && states[5].dead && states[5].owner == Asleep(a) && states[5].sleeping == {b}
  {
    states, steps := [START], [];
    states, steps := Extend(states, steps, Call(a));
    states, steps := Extend(states, steps, Pass(a, Partial));
    states, steps := Extend(states, steps, Call(b));
    states, steps := Extend(states, steps, Pass(b, Partial));
    states, steps := Extend(states, steps, Close);
  }
}
