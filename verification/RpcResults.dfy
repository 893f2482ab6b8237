/**
 What the RPC protocol of module RpcProtocol guarantees in every reachable state: at most one run of an
 outstanding call's handler, replies that are that run's, and exactly when a handler runs (rpc/rpc.cc:161-559).
 */
module RpcResults {
  import opened Common
  import opened ReplyWindow
  import opened RpcProtocol
  import opened ClientSteps
  import opened ServerSteps

  // ---------------------------------------------------------------- runs

  lemma InitEstablishes(s: State)
    requires Init(s)
    ensures Inv(s)
  {
  }

  lemma StepKeeps(s: State, step: Step)
    requires Inv(s) && Enabled(s, step)
    ensures Inv(Apply(s, step))
  {
    match step
    case Start(c, proc, args) => StartKeeps(s, c, proc, args);
    case Transmit(c, x) => TransmitKeeps(s, c, x);
    case Dispatch(q) => DispatchKeeps(s, q);
    case Return(i, r) => ReturnKeeps(s, i, r);
    case SendReply(i) => SendReplyKeeps(s, i);
    case GotReply(m) => GotReplyKeeps(s, m);
    case Finish(c, x) => FinishKeeps(s, c, x);
    case StoreNonce(c, n) => StoreNonceKeeps(s, c, n);
    case Restart(n, procs) => RestartKeeps(s, n, procs);
  }

  lemma {:induction false} RunKeeps(states: seq<State>, steps: seq<Step>, i: nat)
    requires IsRun(states, steps) && i < |states|
    ensures Inv(states[i])
  {
    if i == 0 {
      InitEstablishes(states[0]);
    } else {
      RunKeeps(states, steps, i - 1);
      StepKeeps(states[i - 1], steps[i - 1]);
    }
  }

  ghost predicate Reachable(s: State) {
    exists states, steps :: IsRun(states, steps) && s == states[|steps|]
  }

  lemma ReachableIsInv(s: State)
    requires Reachable(s)
    ensures Inv(s)
  {
    var states, steps :| IsRun(states, steps) && s == states[|steps|];
    RunKeeps(states, steps, |steps|);
  }

  lemma StepIsReachable(s: State, step: Step)
    requires Reachable(s) && Enabled(s, step)
    ensures Reachable(Apply(s, step))
  {
    var states, steps :| IsRun(states, steps) && s == states[|steps|];
    var states', steps' := states + [Apply(s, step)], steps + [step];
    forall i | 0 <= i < |steps'|
      ensures Enabled(states'[i], steps'[i]) && states'[i + 1] == Apply(states'[i], steps'[i])
    {
      if i < |steps| { assert steps'[i] == steps[i] && states'[i] == states[i]; }
    }
    assert IsRun(states', steps');
  }

  // ---------------------------------------------------------------- main results

  predicate RunOf(s: State, i: int, c: nat, x: nat) {
    0 <= i < |s.execs| && s.execs[i].clt == c && s.execs[i].xid == x
  }

  /** Call `x` of client `c` is in `calls_`, is not done, and is not a bind. */
  predicate Outstanding(s: State, c: nat, x: nat) {
    && c in s.clients && x in s.clients[c].calls && s.clients[c].calls[x].None?
    && x in s.clients[c].packed && s.clients[c].packed[x].proc != BIND
  }

  /** At most once: across all incarnations of the server, the handler of an outstanding call has
      been started at most once. */
  lemma AtMostOnce(s: State, c: nat, x: nat, i: int, j: int)
    requires Reachable(s) && Outstanding(s, c, x)
    requires RunOf(s, i, c, x) && RunOf(s, j, c, x)
    ensures i == j
  {
    ReachableIsInv(s);
    assert ClientOk(c, s.clients[c]) && PackedOk(c, s.clients[c], x, s.clients[c].packed[x]);
    assert !Reported(s, c, x);
    assert ExecOk(s, s.execs[i]) && ExecOk(s, s.execs[j]);
    assert SameCall(s.execs[i], s.execs[j]) && SameCall(s.execs[j], s.execs[i]);
  }

  /** Whatever reply arrives for an outstanding call, accepting it gives the caller exactly what
      the one run of its handler returned, or `oldsrv_failure`. */
  lemma AcceptedReplyIsTheRunsReply(s: State, m: Message)
    requires Reachable(s) && m in s.replies && Outstanding(s, m.clt, m.xid)
    ensures Enabled(s, GotReply(m))
    ensures Apply(s, GotReply(m)).clients[m.clt].calls[m.xid] == Some(m.reply)
    ensures m.reply == OldServer() ||
      exists i :: RunOf(s, i, m.clt, m.xid) && s.execs[i].outcome == Some(m.reply)
        && forall j :: RunOf(s, j, m.clt, m.xid) ==> j == i
  {
    ReachableIsInv(s);
    assert ClientOk(m.clt, s.clients[m.clt]);
    if m.reply != OldServer() {
      var i :| Ran(s.execs, i, m.clt, m.xid, m.reply);
      assert RunOf(s, i, m.clt, m.xid);
      forall j | RunOf(s, j, m.clt, m.xid) ensures j == i {
        AtMostOnce(s, m.clt, m.xid, i, j);
      }
    }
  }

  /** The result `call1` hands back for a done call is what the first run of its handler returned,
      or `oldsrv_failure`, whatever has happened since. */
  lemma DoneResultIsFirstRuns(s: State, c: nat, x: nat)
    requires Reachable(s)
    requires c in s.clients && x in s.clients[c].calls && s.clients[c].calls[x].Some?
    ensures x in s.clients[c].packed
    ensures s.clients[c].packed[x].proc != BIND ==>
      var r := s.clients[c].calls[x].value;
      r == OldServer() || FirstProduced(s.execs, c, x, r)
  {
    ReachableIsInv(s);
    assert ClientOk(c, s.clients[c]) && PackedOk(c, s.clients[c], x, s.clients[c].packed[x]);
    assert ResultOk(s, c, s.clients[c].packed[x], s.clients[c].calls[x].value);
  }

  /** Every request ever sent acknowledges only smaller xids, and no more than its client
      acknowledges now; so the server never answers it FORGOTTEN. */
  lemma NothingIsForgotten(s: State, q: Request)
    requires Reachable(s) && q in s.requests
    ensures q.rep < q.xid
    ensures q.clt in s.clients && |s.clients[q.clt].window| > 0 && q.rep <= s.clients[q.clt].window[0]
    ensures Check(WindowOf(s.server, q.clt), q.xid, q.rep).status != Forgotten
  {
    ReachableIsInv(s);
    RequestIsWellStamped(s, q);
    FilterVerdict(s, q);
  }

  /** Hence no reply ever carries `atmostonce_failure`. */
  lemma NoReplyIsTooOld(s: State, m: Message)
    requires Reachable(s) && m in s.replies
    ensures m.reply.ret != ATMOSTONCE_FAILURE
  {
    ReachableIsInv(s);
    if m.reply != OldServer() {
      var i :| Ran(s.execs, i, m.clt, m.xid, m.reply);
      assert ExecOk(s, s.execs[i]);
    }
  }

  /** A stamped request that reaches its incarnation starts a run exactly when its xid is not live. */
  lemma DispatchRuns(s: State, q: Request)
    requires WindowsOk(s) && q.rep < q.xid
    requires (q.srv == 0 || q.srv == s.server.nonce) && q.proc in s.server.procs
    ensures var t := ApplyDispatch(s, q);
      && t.execs == (if Live(HistoryOf(s.server, q.clt), q.xid) then s.execs else WithRun(s, q).execs)
      && t.server == Recorded(s, q).server
  {
    assert WindowOf(s.server, q.clt) == After(HistoryOf(s.server, q.clt));
    Classification(HistoryOf(s.server, q.clt), q.xid, q.rep);
  }

  /** The exact condition for running a handler.  A request that reaches the incarnation it is
      for starts a run if and only if its xid has not been requested since the last processed
      request that acknowledged it; and a call that has already run in this incarnation runs
      again only after its client has reported it finished. */
  lemma RunsExactlyWhenNotLive(s: State, q: Request)
    requires Reachable(s) && q in s.requests
    requires (q.srv == 0 || q.srv == s.server.nonce) && q.proc in s.server.procs
    ensures var t := Apply(s, Dispatch(q));
      if Live(HistoryOf(s.server, q.clt), q.xid) then t.execs == s.execs
      else t.execs == s.execs + [Exec(q.clt, q.xid, s.server.nonce, q.proc, q.args, None)]
    ensures !Live(HistoryOf(s.server, q.clt), q.xid) && (exists i :: RunsNow(s, i, q)) ==>
      Reported(s, q.clt, q.xid)
  {
    ReachableIsInv(s);
    RequestIsWellStamped(s, q);
    DispatchRuns(s, q);
    FilterVerdict(s, q);
    Classification(HistoryOf(s.server, q.clt), q.xid, q.rep);
  }

  /** What a request that arrives is answered at once.  One for another incarnation gets `oldsrv_failure`; one for
      an unknown procedure is dropped; one whose call has been answered since it became live gets exactly the last
      reply recorded for it; any other gets nothing yet. */
  lemma RequestIsAnswered(s: State, q: Request)
    requires Reachable(s) && q in s.requests
    ensures var t, h, here := Apply(s, Dispatch(q)), HistoryOf(s.server, q.clt), q.srv == 0 || q.srv == s.server.nonce;
      && (!here ==> t == s.(replies := s.replies + {Message(q.clt, q.xid, Reply(-5, []))}))
      && (here && q.proc !in s.server.procs ==> t == s)
      && (here && q.proc in s.server.procs ==>
        && (forall b :: Answered(h, q.xid, b) ==> t.replies == s.replies + {Message(q.clt, q.xid, b)})
        && ((forall b :: !Answered(h, q.xid, b)) ==> t.replies == s.replies))
  {
    ReachableIsInv(s);
    RequestIsWellStamped(s, q);
    if (q.srv == 0 || q.srv == s.server.nonce) && q.proc in s.server.procs { ServedIsAnswered(s, q); }
  }

  lemma ServedIsAnswered(s: State, q: Request)
    requires WindowsOk(s) && q.rep < q.xid
    requires (q.srv == 0 || q.srv == s.server.nonce) && q.proc in s.server.procs
    ensures var t, h := ApplyDispatch(s, q), HistoryOf(s.server, q.clt);
      && (forall b :: Answered(h, q.xid, b) ==> t.replies == s.replies + {Message(q.clt, q.xid, b)})
      && ((forall b :: !Answered(h, q.xid, b)) ==> t.replies == s.replies)
  {
    var h := HistoryOf(s.server, q.clt);
    assert WindowOf(s.server, q.clt) == After(h);
    Classification(h, q.xid, q.rep);
    var v := Check(After(h), q.xid, q.rep);
    if v.reply.Some? { assert Answered(h, q.xid, v.reply.value); }
  }

  /** In any state, reachable or not: a request that acknowledges its own xid to a server that remembers something of
      its client gets `atmostonce_failure` and starts nothing. */
  lemma SelfAcknowledgingIsTooOld(s: State, q: Request)
    requires (q.srv == 0 || q.srv == s.server.nonce) && q.proc in s.server.procs
    requires q.xid <= q.rep && WindowOf(s.server, q.clt) != []
    ensures var t := ApplyDispatch(s, q);
      t.execs == s.execs && t.replies == s.replies + {Message(q.clt, q.xid, Reply(-4, []))}
  {
  }

  /** Once a later request that acknowledges call `q` has been processed, a delayed copy of `q`
      runs its handler again: the server keeps no record of acknowledged xids. */
  lemma AcknowledgedCallRunsAgain(s: State, q: Request, ack: Request)
    requires Reachable(s) && q in s.requests && ack in s.requests
    requires q.clt == ack.clt && q.xid <= ack.rep
    requires q.srv == ack.srv == s.server.nonce && q.proc in s.server.procs && ack.proc in s.server.procs
    ensures var t := Apply(s, Dispatch(ack));
      && Enabled(t, Dispatch(q))
      && Apply(t, Dispatch(q)).execs == t.execs + [Exec(q.clt, q.xid, s.server.nonce, q.proc, q.args, None)]
  {
    ReachableIsInv(s);
    RequestIsWellStamped(s, ack);
    FilterVerdict(s, ack);
    var t := Apply(s, Dispatch(ack));
    StepIsReachable(s, Dispatch(ack));
    LiveAfterRequest(HistoryOf(s.server, q.clt), ack.xid, ack.rep, q.xid);
    RunsExactlyWhenNotLive(t, q);
  }

  lemma ExecsGrow(s: State, q: Request)
    ensures s.execs <= ApplyDispatch(s, q).execs && ApplyDispatch(s, q).server.nonce == s.server.nonce
  {
  }

  /** Hence a call that has run once in this incarnation can run a second time. */
  lemma RunsAgain(s: State, q: Request, ack: Request, i: nat) returns (u: State)
    requires Reachable(s) && q in s.requests && ack in s.requests
    requires q.clt == ack.clt && q.xid <= ack.rep
    requires q.srv == ack.srv == s.server.nonce && q.proc in s.server.procs && ack.proc in s.server.procs
    requires i < |s.execs| && RunsNow(s, i, q)
    ensures Reachable(u) && i < |s.execs| < |u.execs| && u.execs[i] == s.execs[i]
    ensures SameCall(u.execs[i], u.execs[|u.execs| - 1])
  {
    ExecsGrow(s, ack);
    AcknowledgedCallRunsAgain(s, q, ack);
    var t := Apply(s, Dispatch(ack));
    StepIsReachable(s, Dispatch(ack));
    StepIsReachable(t, Dispatch(q));
    u := Apply(t, Dispatch(q));
  }
}
