/**
 How often the server runs the handler of one call: a count over whole runs of the protocol in module
 RpcProtocol, for one client, one call and the present incarnation of the server (rpc/rpc.cc:475-527).
 */
module RunCounts {
  import opened Common
  import opened ReplyWindow
  import opened RpcProtocol
  import opened ServerSteps
  import opened RpcResults

  /** The runs of call `x` of client `c` in incarnation `srv`. */
  function RunCount(execs: seq<Exec>, c: nat, x: nat, srv: nat): (n: nat) {
    if execs == [] then 0
    else
      var e := execs[|execs| - 1];
      RunCount(execs[..|execs| - 1], c, x, srv) + if e.clt == c && e.xid == x && e.srv == srv then 1 else 0
  }

  /** The requests for `x` in a history that came when `x` was not live. */
  ghost function FreshRequests(h: seq<Event<Reply>>, x: nat): (n: nat) {
    if h == [] then 0
    else
      var before, e := h[..|h| - 1], h[|h| - 1];
      FreshRequests(before, x) + if e.Req? && e.xid == x && !Live(before, x) then 1 else 0
  }

  ghost predicate CountOk(s: State, c: nat, x: nat) {
    RunCount(s.execs, c, x, s.server.nonce) == FreshRequests(HistoryOf(s.server, c), x)
  }

  lemma RunCountAppend(execs: seq<Exec>, e: Exec, c: nat, x: nat, srv: nat)
    ensures RunCount(execs + [e], c, x, srv) ==
      RunCount(execs, c, x, srv) + if e.clt == c && e.xid == x && e.srv == srv then 1 else 0
  {
    assert (execs + [e])[..|execs|] == execs;
  }

  lemma FreshAppend(h: seq<Event<Reply>>, e: Event<Reply>, x: nat)
    ensures FreshRequests(h + [e], x) == FreshRequests(h, x) + if e.Req? && e.xid == x && !Live(h, x) then 1 else 0
  {
    assert (h + [e])[..|h|] == h;
  }

  lemma {:induction false} OutcomeDoesNotCount(execs: seq<Exec>, i: nat, r: Reply, c: nat, x: nat, srv: nat)
    requires i < |execs|
    ensures RunCount(execs[i := execs[i].(outcome := Some(r))], c, x, srv) == RunCount(execs, c, x, srv)
  {
    var execs' := execs[i := execs[i].(outcome := Some(r))];
    var n := |execs| - 1;
    if i < n {
      OutcomeDoesNotCount(execs[..n], i, r, c, x, srv);
      assert execs'[..n] == execs[..n][i := execs[i].(outcome := Some(r))];
    } else {
      assert execs'[..n] == execs[..n];
    }
  }

  lemma {:induction false} NoRunsYet(execs: seq<Exec>, c: nat, x: nat, srv: nat)
    requires forall i :: 0 <= i < |execs| ==> execs[i].srv != srv
    ensures RunCount(execs, c, x, srv) == 0
  {
    if execs == [] {
    } else {
      NoRunsYet(execs[..|execs| - 1], c, x, srv);
    }
  }

  lemma RecordedHistory(srv: Server, clt: nat, w: seq<Entry<Reply>>, e: Event<Reply>, c: nat)
    ensures HistoryOf(Record(srv, clt, w, e), c) == if c == clt then HistoryOf(srv, c) + [e] else HistoryOf(srv, c)
  {
  }

  lemma RequestCounts(s: State, t: State, q: Request, list: seq<Entry<Reply>>, c: nat, x: nat)
    requires CountOk(s, c, x) && t.server == Record(s.server, q.clt, list, Req(q.xid, q.rep))
    requires t.execs == if Live(HistoryOf(s.server, q.clt), q.xid) then s.execs
      else s.execs + [Exec(q.clt, q.xid, s.server.nonce, q.proc, q.args, None)]
    ensures CountOk(t, c, x)
  {
    RecordedHistory(s.server, q.clt, list, Req(q.xid, q.rep), c);
    FreshAppend(HistoryOf(s.server, c), Req(q.xid, q.rep), x);
    RunCountAppend(s.execs, Exec(q.clt, q.xid, s.server.nonce, q.proc, q.args, None), c, x, s.server.nonce);
  }

  lemma UnservedRequest(s: State, q: Request)
    requires !((q.srv == 0 || q.srv == s.server.nonce) && q.proc in s.server.procs)
    ensures ApplyDispatch(s, q).server == s.server && ApplyDispatch(s, q).execs == s.execs
  {
  }

  lemma ReturnCounts(s: State, i: nat, r: Reply, c: nat, x: nat)
    requires CountOk(s, c, x) && Enabled(s, Return(i, r))
    ensures CountOk(Apply(s, Return(i, r)), c, x)
  {
    var e := s.execs[i];
    OutcomeDoesNotCount(s.execs, i, r, c, x, s.server.nonce);
    RecordedHistory(s.server, e.clt, AddReply(WindowOf(s.server, e.clt), e.xid, r), Ans(e.xid, r), c);
    FreshAppend(HistoryOf(s.server, c), Ans(e.xid, r), x);
  }

  lemma RestartCounts(s: State, n: nat, c: nat, x: nat)
    requires ExecsOk(s) && n !in s.nonces
    ensures RunCount(s.execs, c, x, n) == 0
  {
    forall i | 0 <= i < |s.execs| ensures s.execs[i].srv != n { assert ExecOk(s, s.execs[i]); }
    NoRunsYet(s.execs, c, x, n);
  }

  lemma OtherStep(s: State, step: Step)
    requires Enabled(s, step) && !step.Dispatch? && !step.Return? && !step.Restart?
    ensures Apply(s, step).execs == s.execs && Apply(s, step).server == s.server
  {
  }

  /** In every run: the handler of call `x` of client `c` has run in the present incarnation exactly as often as
      a request for it came when `x` was not live. */
  lemma {:induction false} HandlerRunsPerFreshRequest(states: seq<State>, steps: seq<Step>, k: nat, c: nat, x: nat)
    requires IsRun(states, steps) && k < |states|
    ensures var s := states[k];
      RunCount(s.execs, c, x, s.server.nonce) == FreshRequests(HistoryOf(s.server, c), x)
  {
    if k == 0 {
    } else {
      var s, step := states[k - 1], steps[k - 1];
      HandlerRunsPerFreshRequest(states, steps, k - 1, c, x);
      RunKeeps(states, steps, k - 1);
      assert Enabled(s, step);
      match step
      case Dispatch(q) =>
        if (q.srv == 0 || q.srv == s.server.nonce) && q.proc in s.server.procs {
          RequestIsWellStamped(s, q);
          DispatchRuns(s, q);
          RequestCounts(s, states[k], q, Check(WindowOf(s.server, q.clt), q.xid, q.rep).list, c, x);
        } else {
          UnservedRequest(s, q);
        }
      case Return(i, r) => ReturnCounts(s, i, r, c, x);
      case Restart(n, procs) => RestartCounts(s, n, c, x);
      case _ => OtherStep(s, step);
    }
  }
}
