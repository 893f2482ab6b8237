/**
 What `connection` does for its users, over whole runs of the step system of module Connection: what a sender gives
 is what is sent, when `send` returns true, and that no PDU is held back (rpc/connection.cc:104-201).
 */
module ConnectionResults {
  import opened Common
  import opened Connection
  import opened WireFormat

  // ---------------------------------------------------------------- what is sent

  /** PDU `p` is the buffer `b` with its size, most significant byte first, in front. */
  predicate IsPduOf(p: seq<byte>, b: seq<byte>) {
    && |p| == |b| >= 4 && WordAt(p, 0) == |b|
    && forall i :: 4 <= i < |b| ==> p[i] == b[i]
  }

  lemma StampedIsPdu(b: seq<byte>)
    requires Sendable(b)
    ensures IsPduOf(Stamp(b), b)
  {
    FourBytes(|b|);
  }

  /** A thread that waits for the slot keeps its buffer. */
  lemma WaitingStays(s: State, step: Step, t: nat, b: seq<byte>)
    requires Enabled(s, step) && t in s.senders && s.senders[t] == Waiting(b)
    requires !(step.Begin? && step.thread == t)
    ensures t in Apply(s, step).senders && Apply(s, step).senders[t] == Waiting(b)
  {
  }

  lemma {:induction false} WaitingLasts(
      states: seq<State>, steps: seq<Step>, k: nat, i: nat, t: nat, b: seq<byte>)
    requires IsRun(states, steps) && k < i < |states| && steps[k] == Enter(t, b)
    requires forall j :: k < j < i ==> !(steps[j].Begin? && steps[j].thread == t)
    ensures t in states[i].senders && states[i].senders[t] == Waiting(b)
  {
    assert Enabled(states[i - 1], steps[i - 1]);
    if i == k + 1 {
    } else {
      WaitingLasts(states, steps, k, i - 1, t, b);
      WaitingStays(states[i - 1], steps[i - 1], t, b);
    }
  }

  /** In every schedule: when a thread gets the slot of a live connection, the PDU that is sent next is the buffer
      it called `send` with, behind everything sent before. */
  lemma SentIsWhatWasGiven(states: seq<State>, steps: seq<Step>, k: nat, i: nat, t: nat, b: seq<byte>, r: WriteResult)
    requires IsRun(states, steps) && k < i < |steps| && steps[k] == Enter(t, b) && steps[i] == Begin(t, r)
    requires forall j :: k < j < i ==> !(steps[j].Begin? && steps[j].thread == t)
    requires !states[i].wdead
    ensures var n := |states[i].sent|;
      && |states[i + 1].sent| == n + 1 && states[i + 1].sent[..n] == states[i].sent
      && IsPduOf(states[i + 1].sent[n], b)
  {
    WaitingLasts(states, steps, k, i, t, b);
    assert Enabled(states[i], steps[i]);
    StampedIsPdu(b);
  }

  // ---------------------------------------------------------------- when send returns true

  /** In every schedule: the send of `t` returns at step `i`.  On a connection that was alive it returns true if and
      only if the whole PDU, with all before it, is in the stream and the connection is still alive; on a dead one it
      returns false. */
  lemma SendReturnsTrueIff(states: seq<State>, steps: seq<Step>, i: nat, t: nat)
    requires IsRun(states, steps) && i < |steps| && t in states[i].senders && t !in states[i + 1].senders
    ensures SendResult(states[i], states[i + 1])
  {
    RunKeeps(states, steps, i);
    assert Enabled(states[i], steps[i]);
    ReturnsTrueIff(states[i], steps[i], t);
  }

  /** Only these two steps end a send, and on a dead connection neither reports success. */
  lemma ReturningStep(s: State, step: Step, t: nat)
    requires Enabled(s, step) && t in s.senders && t !in Apply(s, step).senders
    ensures (step.Begin? || step.End?) && step.thread == t
    ensures s.wdead ==> Apply(s, step).acked == s.acked
  {
  }

  lemma ReturnsTrueIff(s: State, step: Step, t: nat)
    requires Inv(s) && Enabled(s, step) && t in s.senders && t !in Apply(s, step).senders
    ensures SendResult(s, Apply(s, step))
  {
    ReturningStep(s, step, t);
    if !s.wdead {
      if step.Begin? { BeginReturns(s, t, step.w); } else { EndReturns(s, t); }
    }
  }

  /** A send returns between `s` and `s'`, and is recorded as successful exactly when it should be. */
  ghost predicate SendResult(s: State, s': State) {
    if s.wdead then s'.acked == s.acked
    else
      && |s'.sent| > 0
      && s'.acked == if !s'.wdead && s'.wire == Flatten(s'.sent) then s.acked + {|s'.sent| - 1} else s.acked
  }

  lemma BeginReturns(s: State, t: nat, r: WriteResult)
    requires Inv(s) && Enabled(s, Begin(t, r)) && !s.wdead
    ensures var s' := Apply(s, Begin(t, r));
      t !in s'.senders ==> SendResult(s, s')
  {
    BeginKeepsWriter(s, t, r);
  }

  lemma EndReturns(s: State, t: nat)
    requires Inv(s) && Enabled(s, End(t)) && !s.wdead
    ensures SendResult(s, Apply(s, End(t)))
  {
    StreamFinishes(s.wpdu, s.sent, s.wire);
  }

  // ---------------------------------------------------------------- nothing is held back

  /** In every schedule: after a read whose PDU, if any, is accepted, a live reader has delivered every PDU that it
      has read in full. */
  lemma CompletedIsDelivered(states: seq<State>, steps: seq<Step>, i: nat)
    requires IsRun(states, steps) && i < |steps| && steps[i].Read? && steps[i].accept && !states[i + 1].rdead
    ensures var s' := states[i + 1]; var d := |s'.delivered|;
      d == |s'.sent| || (d < |s'.sent| && s'.pos < |Flatten(s'.sent[..d + 1])|)
  {
    RunKeeps(states, steps, i + 1);
    assert Enabled(states[i], steps[i]);
    var s' := states[i + 1];
    var d := |s'.delivered|;
    assert !Complete(s'.rpdu);
    if d < |s'.sent| {
      assert s'.sent[d] in s'.sent;
      FlattenAt(s'.sent, d);
      assert s'.sent[..d] == s'.delivered;
    }
  }
}
