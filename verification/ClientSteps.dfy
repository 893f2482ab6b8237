/** What the steps of an RPC client do to the invariant of module RpcProtocol (rpc/rpc.cc:144-253, 280-313). */
module ClientSteps {
  import opened Common
  import opened ReplyWindow
  import opened RpcProtocol
  import XidWindow
  import Wire

  /** A step that changes one client, whose packed requests and reports only grow. */
  ghost predicate ClientStep(s: State, t: State, c: nat) {
    && c in s.clients && c in t.clients
    && t == s.(clients := s.clients[c := t.clients[c]])
    && ClientOk(c, t.clients[c])
    && s.clients[c].reported <= t.clients[c].reported
    && forall x :: x in s.clients[c].packed ==>
      x in t.clients[c].packed && t.clients[c].packed[x] == s.clients[c].packed[x]
  }

  lemma ClientStepKeepsLog(s: State, t: State, c: nat)
    requires RequestsOk(s) && ExecsOk(s) && OnceOk(s) && ClientStep(s, t, c)
    ensures RequestsOk(t) && ExecsOk(t) && OnceOk(t)
  {
    assert forall d, x :: Known(s, d, x) ==> Known(t, d, x) && t.clients[d].packed[x] == s.clients[d].packed[x];
    forall i | 0 <= i < |t.execs| ensures ExecOk(t, t.execs[i]) { assert ExecOk(s, s.execs[i]); }
    assert forall d, x :: Reported(s, d, x) ==> Reported(t, d, x);
  }

  lemma ClientStepKeepsMemory(s: State, t: State, c: nat)
    requires RememberedOk(s) && StoredOk(s) && RepliesOk(s) && ClientStep(s, t, c)
    ensures RememberedOk(t) && StoredOk(t) && RepliesOk(t)
  {
    assert forall d, x :: Known(s, d, x) ==> Known(t, d, x);
    assert forall d, x :: Reported(s, d, x) ==> Reported(t, d, x);
  }

  lemma ClientStepKeeps(s: State, t: State, c: nat)
    requires Inv(s) && ClientStep(s, t, c) && ResultsOk(t)
    ensures Inv(t)
  {
    ClientStepKeepsLog(s, t, c);
    ClientStepKeepsMemory(s, t, c);
    assert ClientsOk(t) && WindowsOk(t) && NoncesOk(t);
  }

  lemma StartClientOk(c: nat, cl: Client, proc: nat, args: seq<byte>)
    requires ClientOk(c, cl) && (proc == BIND <==> !cl.bound)
    ensures ClientOk(c, ApplyStart(cl, Pack(cl, c, proc, args)))
  {
    assert cl.window[0] < cl.next by {
      if cl.window[0] > 0 { assert cl.window[0] in cl.reported; }
    }
  }

  lemma StartKeeps(s: State, c: nat, proc: nat, args: seq<byte>)
    requires Inv(s) && Enabled(s, Start(c, proc, args))
    ensures Inv(Apply(s, Start(c, proc, args)))
  {
    var t := Apply(s, Start(c, proc, args));
    assert ClientOk(c, s.clients[c]);
    StartClientOk(c, s.clients[c], proc, args);
    assert ClientStep(s, t, c);
    assert ResultsOk(t) by { assert forall d, q, r :: ResultOk(t, d, q, r) == ResultOk(s, d, q, r); }
    ClientStepKeeps(s, t, c);
  }

  lemma ReportKeeps(c: nat, cl: Client, x: nat)
    requires ClientOk(c, cl) && x in cl.packed && (x in cl.calls ==> cl.calls[x].Some?)
    ensures ClientOk(c, Report(cl, x))
  {
    XidWindow.UpdateRepresents(cl.window, cl.reported, x);
  }

  /** For an unreported call the handler has run at most once per incarnation, so what one run
      produced is what the first run produced. */
  lemma UnreportedRanOnce(s: State, c: nat, x: nat, r: Reply)
    requires Inv(s) && Known(s, c, x) && !Reported(s, c, x)
    requires s.clients[c].packed[x].proc != BIND
    requires Produced(s.execs, c, x, r)
    ensures FirstProduced(s.execs, c, x, r)
  {
    var i :| Ran(s.execs, i, c, x, r);
    assert ClientOk(c, s.clients[c]) && PackedOk(c, s.clients[c], x, s.clients[c].packed[x]);
    assert ExecOk(s, s.execs[i]);
    forall j | 0 <= j < i ensures !(s.execs[j].clt == c && s.execs[j].xid == x) {
      assert ExecOk(s, s.execs[j]);
      var e, f := s.execs[j], s.execs[i];
      assert e.clt != c || e.xid != x || SameCall(e, f);
    }
  }

  /** A reply accepted for an outstanding call is `oldsrv_failure` or what the first run of its
      handler returned. */
  lemma AcceptedResultOk(s: State, m: Message)
    requires Inv(s) && m in s.replies && !Reported(s, m.clt, m.xid)
    ensures Known(s, m.clt, m.xid)
    ensures ResultOk(s, m.clt, s.clients[m.clt].packed[m.xid], m.reply)
  {
    var cl := s.clients[m.clt];
    assert ClientOk(m.clt, cl) && PackedOk(m.clt, cl, m.xid, cl.packed[m.xid]);
    if m.reply != OldServer() && cl.packed[m.xid].proc != BIND {
      UnreportedRanOnce(s, m.clt, m.xid, m.reply);
    }
  }

  lemma GotReplyClientOk(s: State, m: Message)
    requires Inv(s) && Enabled(s, GotReply(m))
    ensures ClientOk(m.clt, ApplyGotReply(s.clients[m.clt], m))
  {
    var c, cl := m.clt, s.clients[m.clt];
    assert ClientOk(c, cl) && Known(s, c, m.xid);
    if m.xid in cl.calls && cl.calls[m.xid].None? {
      var cl' := cl.(calls := cl.calls[m.xid := Some(m.reply)]);
      ReportKeeps(c, cl', m.xid);
      assert ApplyGotReply(cl, m) == Report(cl', m.xid);
    } else {
      ReportKeeps(c, cl, m.xid);
    }
  }

  lemma GotReplyKeeps(s: State, m: Message)
    requires Inv(s) && Enabled(s, GotReply(m))
    ensures Inv(Apply(s, GotReply(m)))
  {
    GotReplyClientOk(s, m);
    GotReplyResultsOk(s, m);
    ClientStepKeeps(s, Apply(s, GotReply(m)), m.clt);
  }

  lemma GotReplyResultsOk(s: State, m: Message)
    requires Inv(s) && Enabled(s, GotReply(m))
    ensures ResultsOk(Apply(s, GotReply(m)))
  {
    assert ClientOk(m.clt, s.clients[m.clt]);
    if !Reported(s, m.clt, m.xid) { AcceptedResultOk(s, m); }
  }

  lemma BindReplyDecodes(q: Request, n: nat)
    requires q.proc == BIND && n < Wire.COUNT_LIMIT
    ensures BoundTo(q, Some(BindReply(n))) == {n}
  {
    var r := BindReply(n);
    Wire.SmallCountsFit(n);
    assert r.data[0..4] == r.data;
    Wire.ReadWhatWasWritten(Wire.Cursor(r.data, 0, true), n, 4);
  }

  /** A bind call that succeeded returned the nonce of an incarnation that existed. */
  lemma BindGotNonce(s: State, c: nat, x: nat)
    requires Inv(s) && Enabled(s, Finish(c, x))
    ensures 0 !in BoundTo(s.clients[c].packed[x], s.clients[c].calls[x])
  {
    var q, result := s.clients[c].packed[x], s.clients[c].calls[x];
    assert ClientOk(c, s.clients[c]) && PackedOk(c, s.clients[c], x, q);
    if BoundTo(q, result) != {} {
      var r := result.value;
      assert ResultOk(s, c, q, r);
      var i :| Ran(s.execs, i, c, x, r);
      assert ExecOk(s, s.execs[i]);
      assert r == BindReply(s.execs[i].srv);
      BindReplyDecodes(q, s.execs[i].srv);
    }
  }

  lemma FinishClientOk(s: State, c: nat, x: nat)
    requires Inv(s) && Enabled(s, Finish(c, x))
    ensures ClientOk(c, ApplyFinish(s.clients[c], x))
  {
    var cl := s.clients[c];
    assert ClientOk(c, cl);
    BindGotNonce(s, c, x);
    var cl' := cl.(calls := cl.calls - {x}, bindResults := cl.bindResults + BoundTo(cl.packed[x], cl.calls[x]));
    ReportKeeps(c, cl', x);
    assert ApplyFinish(cl, x) == Report(cl', x);
  }

  lemma FinishKeeps(s: State, c: nat, x: nat)
    requires Inv(s) && Enabled(s, Finish(c, x))
    ensures Inv(Apply(s, Finish(c, x)))
  {
    var t := Apply(s, Finish(c, x));
    FinishClientOk(s, c, x);
    assert ClientStep(s, t, c);
    assert ResultsOk(t) by { assert forall d, q, r :: ResultOk(t, d, q, r) == ResultOk(s, d, q, r); }
    ClientStepKeeps(s, t, c);
  }

  lemma StoreNonceKeeps(s: State, c: nat, n: nat)
    requires Inv(s) && Enabled(s, StoreNonce(c, n))
    ensures Inv(Apply(s, StoreNonce(c, n)))
  {
    assert ClientOk(c, s.clients[c]);
    ClientStepKeeps(s, Apply(s, StoreNonce(c, n)), c);
  }
}
