/**
 A concrete run of the protocol in module RpcProtocol in which the server runs the handler of one call twice in
 one incarnation, because it keeps no record of acknowledged xids (rpc/rpc.cc:602-643).
 */
module SecondRun {
  import opened Common
  import opened ReplyWindow
  import opened RpcProtocol
  import opened ClientSteps
  import opened ServerSteps
  import opened RpcResults
  import XidWindow

  /** What matters of a reachable state with client 5 and incarnation 9. */
  datatype Shot = Shot(
    cl: Client, h: seq<Event<Reply>>, execs: seq<Exec>, requests: set<Request>, replies: set<Message>)

  ghost predicate Shows(s: State, p: Shot) {
    && Reachable(s) && 5 in s.clients && s.clients[5] == p.cl
    && s.server.nonce == 9 && s.server.procs == {BIND, 7} && HistoryOf(s.server, 5) == p.h
    && s.execs == p.execs && p.requests <= s.requests && p.replies <= s.replies
  }

  ghost predicate Shown(p: Shot) { exists s :: Shows(s, p) }

  lemma ClientShot(p: Shot, step: Step, cl: Client)
    requires Shown(p) && |p.cl.window| > 0
    requires match step
      case Start(c, proc, args) =>
        c == 5 && (proc == BIND <==> !p.cl.bound) && cl == ApplyStart(p.cl, Pack(p.cl, 5, proc, args))
      case GotReply(m) => m in p.replies && m.clt == 5 && cl == ApplyGotReply(p.cl, m)
      case Finish(c, x) => c == 5 && x in p.cl.calls && x in p.cl.packed && cl == ApplyFinish(p.cl, x)
      case StoreNonce(c, n) => c == 5 && n in p.cl.bindResults
        && cl == p.cl.(bound := true, srv := n, bindResults := p.cl.bindResults - {n})
      case _ => false
    ensures Shown(p.(cl := cl))
  {
    var s :| Shows(s, p);
    StepIsReachable(s, step);
    assert Shows(Apply(s, step), p.(cl := cl));
  }

  lemma TransmitShot(p: Shot, x: nat)
    requires Shown(p) && x in p.cl.calls && x in p.cl.packed
    ensures Shown(p.(requests := p.requests + {p.cl.packed[x]}))
  {
    var s :| Shows(s, p);
    StepIsReachable(s, Transmit(5, x));
    assert Shows(Apply(s, Transmit(5, x)), p.(requests := p.requests + {p.cl.packed[x]}));
  }

  lemma DispatchShot(p: Shot, q: Request)
    requires Shown(p) && q in p.requests && q.clt == 5 && (q.srv == 0 || q.srv == 9) && q.proc in {BIND, 7}
    requires !Live(p.h, q.xid)
    ensures Shown(p.(h := p.h + [Req(q.xid, q.rep)], execs := p.execs + [Exec(5, q.xid, 9, q.proc, q.args, None)]))
  {
    var s :| Shows(s, p);
    StepIsReachable(s, Dispatch(q));
    RunsExactlyWhenNotLive(s, q);
    ReachableIsInv(s);
    FilterVerdict(s, q);
    assert Shows(Apply(s, Dispatch(q)),
                 p.(h := p.h + [Req(q.xid, q.rep)], execs := p.execs + [Exec(5, q.xid, 9, q.proc, q.args, None)]));
  }

  lemma ReturnShot(p: Shot, i: nat, r: Reply)
    requires Shown(p) && i < |p.execs| && p.execs[i].clt == 5 && p.execs[i].srv == 9
    requires p.execs[i].outcome.None? && HandlerMayReturn(p.execs[i].proc, 9, r)
    ensures var e := p.execs[i].(outcome := Some(r));
      Shown(p.(h := p.h + [Ans(e.xid, r)], execs := p.execs[i := e], replies := p.replies + {Message(5, e.xid, r)}))
  {
    var s :| Shows(s, p);
    var e := p.execs[i].(outcome := Some(r));
    StepIsReachable(s, Return(i, r));
    var t := Apply(s, Return(i, r));
    StepIsReachable(t, SendReply(i));
    var replies := p.replies + {Message(5, e.xid, r)};
    assert Shows(Apply(t, SendReply(i)), p.(h := p.h + [Ans(e.xid, r)], execs := p.execs[i := e], replies := replies));
  }

  const DEMO_BIND := Request(5, 1, BIND, 0, 0, [])
  const DEMO_CALL2 := Request(5, 2, 7, 9, 1, [])
  const DEMO_CALL3 := Request(5, 3, 7, 9, 2, [])
  const DEMO_CLIENT := Client(2, false, 0, map[1 := None], [0], {}, {}, map[1 := DEMO_BIND])

  lemma DemoWindows()
    ensures XidWindow.Update([0], 1) == [1]
    ensures XidWindow.Update([1], 1) == [1]
    ensures XidWindow.Update([1], 2) == [2]
  {
    assert XidWindow.Insert([0], 1) == [0, 1] && XidWindow.Insert([1], 2) == [1, 2];
    assert XidWindow.PopFront([0, 1], 1) == ([1], 0) && XidWindow.PopFront([1, 2], 1) == ([2], 0);
  }

  /** The bind handler of client 5 runs. */
  function BindingShot(): (p: Shot) {
    Shot(DEMO_CLIENT, [Req(1, 0)], [Exec(5, 1, 9, BIND, [], None)], {DEMO_BIND}, {})
  }

  lemma BindingIsShown()
    ensures Shown(BindingShot())
  {
    var s0 := State(map[5 := FRESH_CLIENT], Server(9, {BIND, 7}, map[], map[]), {}, {}, [], {9});
    var steps: seq<Step> := [];
    assert IsRun([s0], steps);
    var p := Shot(FRESH_CLIENT, [], [], {}, {});
    assert Shows(s0, p);
    assert ApplyStart(FRESH_CLIENT, DEMO_BIND) == DEMO_CLIENT;
    ClientShot(p, Start(5, BIND, []), DEMO_CLIENT);
    p := p.(cl := DEMO_CLIENT);
    TransmitShot(p, 1);
    p := p.(requests := p.requests + {DEMO_BIND});
    DispatchShot(p, DEMO_BIND);
    assert [] + [Req(1, 0)] == BindingShot().h;
    assert [] + [Exec(5, 1, 9, BIND, [], None)] == BindingShot().execs;
    assert {} + {DEMO_BIND} == BindingShot().requests;
  }

  /** Client 5 as `cl`, its bind call answered. */
  function AnsweredShot(cl: Client): (p: Shot) {
    var r := BindReply(9);
    Shot(cl, [Req(1, 0), Ans(1, r)], [Exec(5, 1, 9, BIND, [], Some(r))], {DEMO_BIND}, {Message(5, 1, r)})
  }

  lemma AnsweredIsShown()
    ensures Shown(AnsweredShot(DEMO_CLIENT))
  {
    BindingIsShown();
    var p, r := BindingShot(), BindReply(9);
    ReturnShot(p, 0, r);
    assert p.h + [Ans(1, r)] == [Req(1, 0), Ans(1, r)];
    assert p.execs[0 := Exec(5, 1, 9, BIND, [], Some(r))] == [Exec(5, 1, 9, BIND, [], Some(r))];
    assert p.replies + {Message(5, 1, r)} == {Message(5, 1, r)};
  }

  const BOUND_CLIENT := Client(2, true, 9, map[], [1], {}, {1}, map[1 := DEMO_BIND])

  const ACCEPTED_CLIENT := DEMO_CLIENT.(calls := map[1 := Some(BindReply(9))], window := [1], reported := {1})

  lemma AcceptedIsShown()
    ensures Shown(AnsweredShot(ACCEPTED_CLIENT))
  {
    AnsweredIsShown();
    DemoWindows();
    var m := Message(5, 1, BindReply(9));
    assert ApplyGotReply(DEMO_CLIENT, m) == ACCEPTED_CLIENT;
    ClientShot(AnsweredShot(DEMO_CLIENT), GotReply(m), ACCEPTED_CLIENT);
  }

  lemma BoundIsShown()
    ensures Shown(AnsweredShot(BOUND_CLIENT))
  {
    AcceptedIsShown();
    DemoWindows();
    BindReplyDecodes(DEMO_BIND, 9);
    var cl := ACCEPTED_CLIENT.(calls := map[], bindResults := {9});
    assert ApplyFinish(ACCEPTED_CLIENT, 1) == cl;
    ClientShot(AnsweredShot(ACCEPTED_CLIENT), Finish(5, 1), cl);
    ClientShot(AnsweredShot(cl), StoreNonce(5, 9), BOUND_CLIENT);
  }

  const DEMO_PACKED := map[1 := DEMO_BIND, 2 := DEMO_CALL2]

  /** Call 2 has run its handler; client 5 is `cl`. */
  function CalledShot(cl: Client): (p: Shot) {
    var p := AnsweredShot(cl);
    p.(h := p.h + [Req(2, 1)], execs := p.execs + [Exec(5, 2, 9, 7, [], None)], requests := {DEMO_BIND, DEMO_CALL2})
  }

  lemma Call2IsShown()
    ensures Shown(CalledShot(Client(3, true, 9, map[2 := None], [1], {}, {1}, DEMO_PACKED)))
  {
    BoundIsShown();
    var cl := Client(3, true, 9, map[2 := None], [1], {}, {1}, DEMO_PACKED);
    assert ApplyStart(BOUND_CLIENT, DEMO_CALL2) == cl;
    ClientShot(AnsweredShot(BOUND_CLIENT), Start(5, 7, []), cl);
    var p := AnsweredShot(cl);
    TransmitShot(p, 2);
    assert p.requests + {DEMO_CALL2} == {DEMO_BIND, DEMO_CALL2};
    DispatchShot(p.(requests := {DEMO_BIND, DEMO_CALL2}), DEMO_CALL2);
  }

  /** Call 2 has timed out; call 3, which acknowledges it, is on the network. */
  lemma Call3IsShown() returns (p: Shot)
    ensures Shown(p) && p.execs == CalledShot(BOUND_CLIENT).execs
    ensures DEMO_CALL2 in p.requests && DEMO_CALL3 in p.requests
  {
    Call2IsShown();
    DemoWindows();
    var cl0 := Client(3, true, 9, map[2 := None], [1], {}, {1}, DEMO_PACKED);
    var cl1 := Client(3, true, 9, map[], [2], {}, {1, 2}, DEMO_PACKED);
    assert ApplyFinish(cl0, 2) == cl1;
    ClientShot(CalledShot(cl0), Finish(5, 2), cl1);
    var cl2 := Client(4, true, 9, map[3 := None], [2], {}, {1, 2}, DEMO_PACKED[3 := DEMO_CALL3]);
    assert ApplyStart(cl1, DEMO_CALL3) == cl2;
    ClientShot(CalledShot(cl1), Start(5, 7, []), cl2);
    TransmitShot(CalledShot(cl2), 3);
    p := CalledShot(cl2).(requests := CalledShot(cl2).requests + {DEMO_CALL3});
  }

  /** "Never twice in a whole run" does not hold: call 2 of client 5 times out after one run, call
      3 acknowledges it, and a delayed copy of its request runs the handler again. */
  lemma HandlerMayRunTwice()
    ensures exists s, i, j ::
      Reachable(s) && 0 <= i < j < |s.execs| && SameCall(s.execs[i], s.execs[j]) && s.execs[i].proc != BIND
  {
    var p := Call3IsShown();
    var s :| Shows(s, p);
    var u := RunsAgain(s, DEMO_CALL2, DEMO_CALL3, 1);
  }
}
