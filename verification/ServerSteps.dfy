/** What the steps of the RPC server and the network do to the invariant of module RpcProtocol
    (rpc/rpc.cc:343-360, 423-559, 562-644). */
module ServerSteps {
  import opened Common
  import opened ReplyWindow
  import opened RpcProtocol

  lemma ProducedGrows(execs: seq<Exec>, more: seq<Exec>, c: nat, x: nat, r: Reply)
    requires |execs| <= |more|
    requires forall i :: 0 <= i < |execs| ==>
      && more[i].clt == execs[i].clt && more[i].xid == execs[i].xid
      && (execs[i].outcome.Some? ==> more[i] == execs[i])
    ensures Produced(execs, c, x, r) ==> Produced(more, c, x, r)
    ensures FirstProduced(execs, c, x, r) ==> FirstProduced(more, c, x, r)
  {
    if Produced(execs, c, x, r) {
      var i :| Ran(execs, i, c, x, r);
      assert Ran(more, i, c, x, r);
    }
    if FirstProduced(execs, c, x, r) {
      var i :| Ran(execs, i, c, x, r) && forall j :: 0 <= j < i ==> !(execs[j].clt == c && execs[j].xid == x);
      assert Ran(more, i, c, x, r);
    }
  }

  /** When the execution log only grows, so does what it has produced. */
  lemma LogGrows(s: State, t: State)
    requires RepliesOk(s) && ResultsOk(s)
    requires t.clients == s.clients && t.replies == s.replies
    requires |s.execs| <= |t.execs|
    requires forall i :: 0 <= i < |s.execs| ==>
      && t.execs[i].clt == s.execs[i].clt && t.execs[i].xid == s.execs[i].xid
      && (s.execs[i].outcome.Some? ==> t.execs[i] == s.execs[i])
    ensures RepliesOk(t) && ResultsOk(t)
  {
    forall c, x, r ensures Produced(s.execs, c, x, r) ==> Produced(t.execs, c, x, r) {
      ProducedGrows(s.execs, t.execs, c, x, r);
    }
    forall c, x | c in t.clients && x in t.clients[c].calls && x in t.clients[c].packed && t.clients[c].calls[x].Some?
      ensures ResultOk(t, c, t.clients[c].packed[x], t.clients[c].calls[x].value)
    {
      var q, r := t.clients[c].packed[x], t.clients[c].calls[x].value;
      assert ResultOk(s, c, q, r);
      ProducedGrows(s.execs, t.execs, c, q.xid, r);
    }
  }

  lemma RecordKeepsWindows(srv: Server, c: nat, e: Event<Reply>)
    requires srv.windows.Keys == srv.history.Keys
    requires forall d :: d in srv.windows ==>
      srv.windows[d] == After(srv.history[d]) && WellStamped(srv.history[d])
    requires e.Req? ==> e.rep < e.xid
    ensures var w := match e {
        case Req(x, r) => Check(WindowOf(srv, c), x, r).list
        case Ans(x, r) => AddReply(WindowOf(srv, c), x, r)
      };
      var srv' := Record(srv, c, w, e);
      && srv'.windows.Keys == srv'.history.Keys
      && forall d :: d in srv'.windows ==>
        srv'.windows[d] == After(srv'.history[d]) && WellStamped(srv'.history[d])
  {
    var h := HistoryOf(srv, c);
    assert WindowOf(srv, c) == After(h);
    assert (h + [e])[..|h|] == h;
  }

  lemma ReturnKeepsMemory(s: State, i: nat, r: Reply)
    requires RememberedOk(s) && StoredOk(s) && Enabled(s, Return(i, r))
    ensures RememberedOk(Apply(s, Return(i, r))) && StoredOk(Apply(s, Return(i, r)))
  {
    var t := Apply(s, Return(i, r));
    var e := s.execs[i];
    forall j | 0 <= j < |t.execs| && t.execs[j].srv == t.server.nonce
      ensures Reported(t, t.execs[j].clt, t.execs[j].xid)
           || Find(WindowOf(t.server, t.execs[j].clt), t.execs[j].xid).Some?
    {
      FindAddReply(WindowOf(s.server, e.clt), e.xid, r, t.execs[j].xid);
      assert s.execs[j].srv == s.server.nonce;
    }
    forall c, x, r' | Find(WindowOf(t.server, c), x) == Some(Entry(x, Some(r')))
      ensures Produced(t.execs, c, x, r')
    {
      FindAddReply(WindowOf(s.server, e.clt), e.xid, r, x);
      ProducedGrows(s.execs, t.execs, c, x, r');
      assert Ran(t.execs, i, e.clt, e.xid, r);
    }
  }

  lemma ReturnKeepsLog(s: State, i: nat, r: Reply)
    requires ExecsOk(s) && OnceOk(s) && Enabled(s, Return(i, r))
    ensures ExecsOk(Apply(s, Return(i, r))) && OnceOk(Apply(s, Return(i, r)))
  {
    var t := Apply(s, Return(i, r));
    forall j | 0 <= j < |t.execs| ensures ExecOk(t, t.execs[j]) { assert ExecOk(s, s.execs[j]); }
    forall j, k | 0 <= j < k < |t.execs| && SameCall(t.execs[j], t.execs[k])
      ensures Reported(t, t.execs[j].clt, t.execs[j].xid)
    {
      assert SameCall(s.execs[j], s.execs[k]);
    }
  }

  lemma ReturnKeeps(s: State, i: nat, r: Reply)
    requires Inv(s) && Enabled(s, Return(i, r))
    ensures Inv(Apply(s, Return(i, r)))
  {
    var t := Apply(s, Return(i, r));
    ReturnKeepsMemory(s, i, r);
    ReturnKeepsLog(s, i, r);
    RecordKeepsWindows(s.server, s.execs[i].clt, Ans(s.execs[i].xid, r));
    LogGrows(s, t);
  }

  /** Run `i` is for the call of request `q`, in the present incarnation. */
  ghost predicate RunsNow(s: State, i: int, q: Request) {
    0 <= i < |s.execs| && s.execs[i].clt == q.clt && s.execs[i].xid == q.xid && s.execs[i].srv == s.server.nonce
  }

  function Recorded(s: State, q: Request): (t: State) {
    var v := Check(WindowOf(s.server, q.clt), q.xid, q.rep);
    s.(server := Record(s.server, q.clt, v.list, Req(q.xid, q.rep)))
  }

  /** Garbage collection spares every call that its client has not reported. */
  lemma SweepSparesUnreported(s: State, q: Request, e: Exec)
    requires Inv(s) && q in s.requests && e in s.execs
    requires e.clt == q.clt && !Reported(s, e.clt, e.xid)
    ensures q.rep < q.xid && q.rep < e.xid
  {
    var cl := s.clients[q.clt];
    assert ClientOk(q.clt, cl) && Known(s, q.clt, q.xid) && PackedOk(q.clt, cl, q.xid, q);
    var i :| 0 <= i < |s.execs| && s.execs[i] == e;
    assert ExecOk(s, s.execs[i]);
  }

  lemma RequestIsWellStamped(s: State, q: Request)
    requires Inv(s) && q in s.requests
    ensures q.rep < q.xid && q.rep <= s.clients[q.clt].window[0]
  {
    assert Known(s, q.clt, q.xid) && ClientOk(q.clt, s.clients[q.clt]);
    assert PackedOk(q.clt, s.clients[q.clt], q.xid, q);
  }

  lemma FilterKeepsMemory(s: State, q: Request)
    requires Inv(s) && q in s.requests
    ensures RememberedOk(Recorded(s, q)) && StoredOk(Recorded(s, q))
  {
    var t := Recorded(s, q);
    var w := WindowOf(s.server, q.clt);
    RequestIsWellStamped(s, q);
    forall j | 0 <= j < |t.execs| && t.execs[j].srv == t.server.nonce
      ensures Reported(t, t.execs[j].clt, t.execs[j].xid)
           || Find(WindowOf(t.server, t.execs[j].clt), t.execs[j].xid).Some?
    {
      var e := s.execs[j];
      if e.clt == q.clt && !Reported(s, e.clt, e.xid) {
        SweepSparesUnreported(s, q, e);
        FindCheck(w, q.xid, q.rep, e.xid);
      }
    }
    forall c, x, r | Find(WindowOf(t.server, c), x) == Some(Entry(x, Some(r)))
      ensures Produced(t.execs, c, x, r)
    {
      FindCheck(w, q.xid, q.rep, x);
      assert Find(WindowOf(s.server, c), x) == Some(Entry(x, Some(r)));
    }
  }

  lemma FilterKeeps(s: State, q: Request)
    requires Inv(s) && q in s.requests
    ensures Inv(Recorded(s, q))
  {
    var t := Recorded(s, q);
    RequestIsWellStamped(s, q);
    FilterKeepsMemory(s, q);
    RecordKeepsWindows(s.server, q.clt, Req(q.xid, q.rep));
    LogGrows(s, t);
    assert ExecsOk(t) by {
      forall j | 0 <= j < |t.execs| ensures ExecOk(t, t.execs[j]) { assert ExecOk(s, s.execs[j]); }
    }
  }

  /** What the duplicate filter says about a request on the network. */
  lemma FilterVerdict(s: State, q: Request)
    requires Inv(s) && q in s.requests
    ensures var v := Check(WindowOf(s.server, q.clt), q.xid, q.rep);
      && v.status != Forgotten
      && Find(v.list, q.xid).Some?
      && (v.status == Done ==> Produced(s.execs, q.clt, q.xid, v.reply.value))
      && (v.status == New ==> forall i :: RunsNow(s, i, q) ==> Reported(s, q.clt, q.xid))
  {
    var w := WindowOf(s.server, q.clt);
    RequestIsWellStamped(s, q);
    CheckAsFind(w, q.xid, q.rep);
    FindCheck(w, q.xid, q.rep, q.xid);
  }

  lemma AnswerKeeps(s: State, q: Request, r: Reply)
    requires Inv(s) && q in s.requests
    requires r == OldServer() || Produced(s.execs, q.clt, q.xid, r)
    ensures Inv(Answer(s, q, r))
  {
    var t := Answer(s, q, r);
    assert ExecsOk(t) by {
      forall j | 0 <= j < |t.execs| ensures ExecOk(t, t.execs[j]) { assert ExecOk(s, s.execs[j]); }
    }
  }

  lemma NewRunKeepsLog(s: State, q: Request)
    requires ExecsOk(s) && OnceOk(s) && RequestsOk(s) && NoncesOk(s)
    requires q in s.requests && (q.srv == 0 || q.srv == s.server.nonce)
    requires forall i :: RunsNow(s, i, q) ==> Reported(s, q.clt, q.xid)
    ensures ExecsOk(WithRun(s, q)) && OnceOk(WithRun(s, q))
  {
    var t := WithRun(s, q);
    forall j | 0 <= j < |t.execs| ensures ExecOk(t, t.execs[j]) {
      if j < |s.execs| { assert ExecOk(s, s.execs[j]); }
    }
    forall j, k | 0 <= j < k < |t.execs| && SameCall(t.execs[j], t.execs[k])
      ensures Reported(t, t.execs[j].clt, t.execs[j].xid)
    {
      if k < |s.execs| { assert SameCall(s.execs[j], s.execs[k]); } else { assert RunsNow(s, j, q); }
    }
  }

  lemma NewRunKeepsMemory(s: State, q: Request)
    requires StoredOk(s) && RememberedOk(s) && Find(WindowOf(s.server, q.clt), q.xid).Some?
    ensures StoredOk(WithRun(s, q)) && RememberedOk(WithRun(s, q))
  {
    var t := WithRun(s, q);
    forall c, x, r | Find(WindowOf(t.server, c), x) == Some(Entry(x, Some(r)))
      ensures Produced(t.execs, c, x, r)
    {
      ProducedGrows(s.execs, t.execs, c, x, r);
    }
  }

  lemma NewRunKeeps(s: State, q: Request)
    requires Inv(s) && q in s.requests && (q.srv == 0 || q.srv == s.server.nonce)
    requires Find(WindowOf(s.server, q.clt), q.xid).Some?
    requires forall i :: RunsNow(s, i, q) ==> Reported(s, q.clt, q.xid)
    ensures Inv(WithRun(s, q))
  {
    NewRunKeepsLog(s, q);
    NewRunKeepsMemory(s, q);
    LogGrows(s, WithRun(s, q));
  }

  lemma DispatchKeeps(s: State, q: Request)
    requires Inv(s) && Enabled(s, Dispatch(q))
    ensures Inv(Apply(s, Dispatch(q)))
  {
    if q.srv != 0 && q.srv != s.server.nonce {
      AnswerKeeps(s, q, OldServer());
    } else if q.proc in s.server.procs {
      FilterKeeps(s, q);
      FilterVerdict(s, q);
      var t := Recorded(s, q);
      var v := Check(WindowOf(s.server, q.clt), q.xid, q.rep);
      match v.status
      case New =>
        forall i | RunsNow(t, i, q) ensures Reported(t, q.clt, q.xid) { assert RunsNow(s, i, q); }
        NewRunKeeps(t, q);
      case InProgress =>
      case Done => AnswerKeeps(t, q, v.reply.value);
      case Forgotten =>
    }
  }

  lemma ExecsFrame(s: State, t: State)
    requires ExecsOk(s) && t.clients == s.clients && t.execs == s.execs && s.nonces <= t.nonces
    ensures ExecsOk(t)
  {
    forall j | 0 <= j < |t.execs| ensures ExecOk(t, t.execs[j]) { assert ExecOk(s, s.execs[j]); }
  }

  lemma TransmitKeeps(s: State, c: nat, x: nat)
    requires Inv(s) && Enabled(s, Transmit(c, x))
    ensures Inv(Apply(s, Transmit(c, x)))
  {
    assert ClientOk(c, s.clients[c]) && PackedOk(c, s.clients[c], x, s.clients[c].packed[x]);
    ExecsFrame(s, Apply(s, Transmit(c, x)));
  }

  lemma SendReplyKeeps(s: State, i: nat)
    requires Inv(s) && Enabled(s, SendReply(i))
    ensures Inv(Apply(s, SendReply(i)))
  {
    assert ExecOk(s, s.execs[i]);
    assert Ran(s.execs, i, s.execs[i].clt, s.execs[i].xid, s.execs[i].outcome.value);
    ExecsFrame(s, Apply(s, SendReply(i)));
  }

  lemma RestartKeeps(s: State, n: nat, procs: set<nat>)
    requires Inv(s) && Enabled(s, Restart(n, procs))
    ensures Inv(Apply(s, Restart(n, procs)))
  {
    var t := Apply(s, Restart(n, procs));
    ExecsFrame(s, t);
    LogGrows(s, t);
    assert RememberedOk(t) by {
      forall j | 0 <= j < |t.execs| ensures t.execs[j].srv != n { assert ExecOk(s, s.execs[j]); }
    }
  }
}
