/**
 What travels with a call: over whole runs of the protocol in module RpcProtocol, the requests of a call and the
 runs of its handler carry what the caller gave when it started the call (rpc/rpc.cc:161-204, 513).
 */
module CallRequests {
  import opened Common
  import opened RpcProtocol
  import opened RpcResults
  import XidWindow

  /** A packed request is never packed again. */
  lemma PackedStays(s: State, step: Step, c: nat, x: nat)
    requires ClientsOk(s) && Enabled(s, step) && Known(s, c, x)
    ensures Known(Apply(s, step), c, x) && Apply(s, step).clients[c].packed[x] == s.clients[c].packed[x]
  {
    assert ClientOk(c, s.clients[c]);
    assert x < s.clients[c].next;
  }

  lemma {:induction false} PackedLasts(states: seq<State>, steps: seq<Step>, k: nat, j: nat, c: nat, x: nat)
    requires IsRun(states, steps) && k <= j < |states| && Known(states[k], c, x)
    ensures Known(states[j], c, x) && states[j].clients[c].packed[x] == states[k].clients[c].packed[x]
  {
    if k == j {
    } else {
      PackedLasts(states, steps, k, j - 1, c, x);
      RunKeeps(states, steps, j - 1);
      assert Enabled(states[j - 1], steps[j - 1]);
      PackedStays(states[j - 1], steps[j - 1], c, x);
    }
  }

  /** Client `c` starts a call of `proc` on `args` at step `k`. */
  predicate StartsAt(steps: seq<Step>, k: nat, c: nat, proc: nat, args: seq<byte>) {
    k < |steps| && steps[k] == Start(c, proc, args)
  }

  /** The request that a call started in state `s` has to send: the caller's procedure and arguments, the next
      xid, the server the client is bound to, and the largest n with every xid 1..n reported so far. */
  ghost predicate IsRequestOf(s: State, q: Request, c: nat, proc: nat, args: seq<byte>) {
    && c in s.clients && q.clt == c && q.xid == s.clients[c].next
    && q.proc == proc && q.args == args && q.srv == s.clients[c].srv
    && XidWindow.IsFront(q.rep, s.clients[c].reported)
  }

  lemma StartPacks(s: State, c: nat, proc: nat, args: seq<byte>)
    requires ClientsOk(s) && Enabled(s, Start(c, proc, args))
    ensures var t, x := Apply(s, Start(c, proc, args)), s.clients[c].next;
      Known(t, c, x) && IsRequestOf(s, t.clients[c].packed[x], c, proc, args)
  {
    assert ClientOk(c, s.clients[c]);
  }

  lemma PackedIsAsStarted(
      states: seq<State>, steps: seq<Step>, k: nat, j: nat, c: nat, proc: nat, args: seq<byte>)
    requires IsRun(states, steps) && k < j < |states| && StartsAt(steps, k, c, proc, args)
    ensures c in states[k].clients && Known(states[j], c, states[k].clients[c].next)
    ensures IsRequestOf(states[k], states[j].clients[c].packed[states[k].clients[c].next], c, proc, args)
  {
    RunKeeps(states, steps, k);
    assert Enabled(states[k], steps[k]);
    StartPacks(states[k], c, proc, args);
    PackedLasts(states, steps, k + 1, j, c, states[k].clients[c].next);
  }

  /** In every run: every request on the network for a call, first transmission or retransmission, is the one of
      its start, with the acknowledgement of that moment. */
  lemma RequestIsAsStarted(
      states: seq<State>, steps: seq<Step>, k: nat, j: nat, c: nat, proc: nat, args: seq<byte>, q: Request)
    requires IsRun(states, steps) && k < j < |states| && StartsAt(steps, k, c, proc, args)
    requires c in states[k].clients && q in states[j].requests && q.clt == c && q.xid == states[k].clients[c].next
    ensures IsRequestOf(states[k], q, c, proc, args)
  {
    PackedIsAsStarted(states, steps, k, j, c, proc, args);
    RunKeeps(states, steps, j);
    assert Known(states[j], q.clt, q.xid);
  }

  /** In every run: every run of a call's handler is of the procedure and on the arguments of the call's start. */
  lemma HandlerGetsCallersArguments(
      states: seq<State>, steps: seq<Step>, k: nat, j: nat, c: nat, proc: nat, args: seq<byte>, i: nat)
    requires IsRun(states, steps) && k < j < |states| && StartsAt(steps, k, c, proc, args)
    requires c in states[k].clients && RunOf(states[j], i, c, states[k].clients[c].next)
    ensures states[j].execs[i].proc == proc && states[j].execs[i].args == args
  {
    PackedIsAsStarted(states, steps, k, j, c, proc, args);
    RunKeeps(states, steps, j);
    assert ExecOk(states[j], states[j].execs[i]);
  }
}
