/**
 The at-most-once RPC protocol: `rpcc` clients and one `rpcs` server (rpc/rpc.cc) over a network
 that may lose, duplicate, delay and reorder messages, with server restarts.

 Every step is one critical section, one message arrival or one handler return.  Messages are never
 removed from the network, so any message may arrive any number of times, in any order, or never.
 Each client has its own non-zero nonce, and each server incarnation has a fresh non-zero nonce.

 `reported`, `packed`, `history`, `execs` and `nonces` record the past; no step's guard or effect on
 the other fields depends on them, except that a restart draws a nonce not drawn before.
 */
module RpcProtocol {
  import opened Common
  import opened ReplyWindow
  import XidWindow
  import Wire

  const BIND: nat := 1
  const UNMARSHAL_ARGS_FAILURE := -2
  const ATMOSTONCE_FAILURE := -4
  const OLDSRV_FAILURE := -5

  // ---------------------------------------------------------------- state

  /** A request as packed by `call1` (rpc/rpc.cc:178-179). */
  datatype Request = Request(clt: nat, xid: nat, proc: nat, srv: nat, rep: nat, args: seq<byte>)

  /** Return code and result bytes of a reply. */
  datatype Reply = Reply(ret: int, data: seq<byte>)

  /** A reply on a connection to client `clt`. */
  datatype Message = Message(clt: nat, xid: nat, reply: Reply)

  /** `calls` holds the outstanding calls; a call is done when it has a reply.  `bindResults` are
      server nonces that a finished bind call has returned but `bind` has not stored yet. */
  datatype Client = Client(
    next: nat,
    bound: bool,
    srv: nat,
    calls: map<nat, Option<Reply>>,
    window: seq<nat>,
    bindResults: set<nat>,
    reported: set<nat>,
    packed: map<nat, Request>)

  datatype Server = Server(
    nonce: nat,
    procs: set<nat>,
    windows: map<nat, seq<Entry<Reply>>>,
    history: map<nat, seq<Event<Reply>>>)

  /** One run of a handler on the arguments `args`, in incarnation `srv` of the server. */
  datatype Exec = Exec(clt: nat, xid: nat, srv: nat, proc: nat, args: seq<byte>, outcome: Option<Reply>)

  datatype State = State(
    clients: map<nat, Client>,
    server: Server,
    requests: set<Request>,
    replies: set<Message>,
    execs: seq<Exec>,
    nonces: set<nat>)

  datatype Step =
    | Start(clt: nat, proc: nat, args: seq<byte>)   // call1 up to the packed header
    | Transmit(clt: nat, xid: nat)                  // first transmission or retransmission
    | Dispatch(req: Request)                        // the server receives a request
    | Return(exec: nat, reply: Reply)               // a handler returns, add_reply
    | SendReply(exec: nat)                          // its reply goes out
    | GotReply(msg: Message)                        // the client receives a reply
    | Finish(clt: nat, xid: nat)                    // call1 after its wait, done or timed out
    | StoreNonce(clt: nat, srv: nat)                // the end of bind
    | Restart(nonce: nat, procs: set<nat>)          // a new server incarnation

  // ---------------------------------------------------------------- replies

  function BindReply(nonce: nat): (r: Reply) { Reply(0, Wire.BigEndian(nonce, 4)) }

  function OldServer(): (r: Reply) { Reply(OLDSRV_FAILURE, []) }

  function TooOld(): (r: Reply) { Reply(ATMOSTONCE_FAILURE, []) }

  /** What the assertion after the handler call lets through (rpc/rpc.cc:513-515); the bind handler
      returns the incarnation's nonce. */
  predicate HandlerMayReturn(proc: nat, srv: nat, r: Reply) {
    && (r.ret >= 0 || r.ret == UNMARSHAL_ARGS_FAILURE)
    && (proc == BIND ==> r == BindReply(srv) || r.ret == UNMARSHAL_ARGS_FAILURE)
  }

  /** The nonce a finished bind call got, if it succeeded (rpc/rpc.cc:148-152, rpc/rpc.h:128-133). */
  function BoundTo(q: Request, result: Option<Reply>): (r: set<nat>) {
    if q.proc == BIND && result.Some? && result.value.ret == 0 && |result.value.data| == 4
    then {Wire.ReadBE(Wire.Cursor(result.value.data, 0, true), 4).0}
    else {}
  }

  // ---------------------------------------------------------------- steps

  function WindowOf(srv: Server, clt: nat): (w: seq<Entry<Reply>>) {
    if clt in srv.windows then srv.windows[clt] else []
  }

  function HistoryOf(srv: Server, clt: nat): (h: seq<Event<Reply>>) {
    if clt in srv.history then srv.history[clt] else []
  }

  function Record(srv: Server, clt: nat, w: seq<Entry<Reply>>, e: Event<Reply>): (r: Server) {
    srv.(windows := srv.windows[clt := w], history := srv.history[clt := HistoryOf(srv, clt) + [e]])
  }

  /** Mark `xid` as finished at the client. */
  function Report(cl: Client, xid: nat): (r: Client)
    requires |cl.window| > 0
  {
    cl.(window := XidWindow.Update(cl.window, xid), reported := cl.reported + {xid})
  }

  predicate Enabled(s: State, step: Step) {
    match step
    case Start(c, proc, args) =>
      c in s.clients && |s.clients[c].window| > 0 && (proc == BIND <==> !s.clients[c].bound)
    case Transmit(c, x) =>
      c in s.clients && x in s.clients[c].calls && x in s.clients[c].packed
    case Dispatch(q) => q in s.requests
    case Return(e, r) =>
      && e < |s.execs| && s.execs[e].srv == s.server.nonce && s.execs[e].outcome.None?
      && HandlerMayReturn(s.execs[e].proc, s.execs[e].srv, r)
    case SendReply(e) =>
      e < |s.execs| && s.execs[e].srv == s.server.nonce && s.execs[e].outcome.Some?
    case GotReply(m) =>
      m in s.replies && m.clt in s.clients && |s.clients[m.clt].window| > 0
    case Finish(c, x) =>
      c in s.clients && x in s.clients[c].calls && x in s.clients[c].packed && |s.clients[c].window| > 0
    case StoreNonce(c, n) => c in s.clients && n in s.clients[c].bindResults
    case Restart(n, procs) => n !in s.nonces && 0 < n < Wire.COUNT_LIMIT && BIND in procs
  }

  function Pack(cl: Client, c: nat, proc: nat, args: seq<byte>): (q: Request)
    requires |cl.window| > 0
  {
    Request(c, cl.next, proc, cl.srv, cl.window[0], args)
  }

  function ApplyStart(cl: Client, q: Request): (r: Client) {
    cl.(next := cl.next + 1, calls := cl.calls[q.xid := None], packed := cl.packed[q.xid := q])
  }

  function ApplyGotReply(cl: Client, m: Message): (r: Client)
    requires |cl.window| > 0
  {
    var cl := Report(cl, m.xid);
    if m.xid in cl.calls && cl.calls[m.xid].None?
    then cl.(calls := cl.calls[m.xid := Some(m.reply)])
    else cl
  }

  function ApplyFinish(cl: Client, x: nat): (r: Client)
    requires |cl.window| > 0 && x in cl.calls && x in cl.packed
  {
    Report(cl, x).(calls := cl.calls - {x},
                   bindResults := cl.bindResults + BoundTo(cl.packed[x], cl.calls[x]))
  }

  function Answer(s: State, q: Request, r: Reply): (t: State) {
    s.(replies := s.replies + {Message(q.clt, q.xid, r)})
  }

  function WithRun(s: State, q: Request): (t: State) {
    s.(execs := s.execs + [Exec(q.clt, q.xid, s.server.nonce, q.proc, q.args, None)])
  }

  /** The verdict of the duplicate filter turned into action (rpc/rpc.cc:507-557). */
  function Act(s: State, q: Request, v: Verdict<Reply>): (t: State)
    requires v.status == Done ==> v.reply.Some?
  {
    match v.status
    case New => WithRun(s, q)
    case InProgress => s
    case Done => Answer(s, q, v.reply.value)
    case Forgotten => Answer(s, q, TooOld())
  }

  function ApplyDispatch(s: State, q: Request): (t: State) {
    if q.srv != 0 && q.srv != s.server.nonce then Answer(s, q, OldServer())
    else if q.proc !in s.server.procs then s
    else
      var v := Check(WindowOf(s.server, q.clt), q.xid, q.rep);
      Act(s.(server := Record(s.server, q.clt, v.list, Req(q.xid, q.rep))), q, v)
  }

  function ApplyReturn(s: State, i: nat, r: Reply): (t: State)
    requires i < |s.execs|
  {
    var e := s.execs[i];
    s.(execs := s.execs[i := e.(outcome := Some(r))],
       server := Record(s.server, e.clt, AddReply(WindowOf(s.server, e.clt), e.xid, r), Ans(e.xid, r)))
  }

  function Apply(s: State, step: Step): (t: State)
    requires Enabled(s, step)
  {
    match step
    case Start(c, proc, args) =>
      s.(clients := s.clients[c := ApplyStart(s.clients[c], Pack(s.clients[c], c, proc, args))])
    case Transmit(c, x) => s.(requests := s.requests + {s.clients[c].packed[x]})
    case Dispatch(q) => ApplyDispatch(s, q)
    case Return(i, r) => ApplyReturn(s, i, r)
    case SendReply(i) =>
      s.(replies := s.replies + {Message(s.execs[i].clt, s.execs[i].xid, s.execs[i].outcome.value)})
    case GotReply(m) => s.(clients := s.clients[m.clt := ApplyGotReply(s.clients[m.clt], m)])
    case Finish(c, x) => s.(clients := s.clients[c := ApplyFinish(s.clients[c], x)])
    case StoreNonce(c, n) =>
      var cl := s.clients[c];
      s.(clients := s.clients[c := cl.(bound := true, srv := n, bindResults := cl.bindResults - {n})])
    case Restart(n, procs) =>
      s.(server := Server(n, procs, map[], map[]), nonces := s.nonces + {n})
  }

  const FRESH_CLIENT := Client(1, false, 0, map[], [0], {}, {}, map[])

  ghost predicate Init(s: State) {
    && (forall c :: c in s.clients ==> c != 0 && s.clients[c] == FRESH_CLIENT)
    && 0 < s.server.nonce < Wire.COUNT_LIMIT && BIND in s.server.procs
    && s.server.windows == map[] && s.server.history == map[]
    && s.requests == {} && s.replies == {} && s.execs == []
    && s.nonces == {s.server.nonce}
  }

  /** `states` is the run that takes `steps` from its first state. */
  ghost predicate IsRun(states: seq<State>, steps: seq<Step>) {
    && |states| == |steps| + 1
    && Init(states[0])
    && forall i {:trigger steps[i]} ::
         0 <= i < |steps| ==> Enabled(states[i], steps[i]) && states[i + 1] == Apply(states[i], steps[i])
  }

  // ---------------------------------------------------------------- invariant

  ghost predicate ClientOk(c: nat, cl: Client) {
    && XidWindow.Represents(cl.window, cl.reported)
    && (forall x :: x in cl.reported ==> 1 <= x < cl.next)
    && (forall x :: x in cl.packed <==> 1 <= x < cl.next)
    && cl.next >= 1
    && (forall x :: x in cl.packed ==> PackedOk(c, cl, x, cl.packed[x]))
    && (forall x :: x in cl.calls ==> x in cl.packed && (cl.calls[x].None? ==> x !in cl.reported))
    && (cl.bound <==> cl.srv != 0)
    && 0 !in cl.bindResults
  }

  /** A request acknowledges only smaller xids, and no more than the client acknowledges now. */
  ghost predicate PackedOk(c: nat, cl: Client, x: nat, q: Request)
    requires |cl.window| > 0
  {
    q.clt == c && q.xid == x && q.rep < x && q.rep <= cl.window[0] && (q.proc == BIND <==> q.srv == 0)
  }

  ghost predicate ClientsOk(s: State) {
    forall c :: c in s.clients ==> ClientOk(c, s.clients[c])
  }

  ghost predicate Known(s: State, c: nat, x: nat) {
    c in s.clients && x in s.clients[c].packed
  }

  ghost predicate Reported(s: State, c: nat, x: nat) {
    c in s.clients && x in s.clients[c].reported
  }

  ghost predicate RequestsOk(s: State) {
    forall q :: q in s.requests ==> Known(s, q.clt, q.xid) && s.clients[q.clt].packed[q.xid] == q
  }

  ghost predicate ExecOk(s: State, e: Exec) {
    && Known(s, e.clt, e.xid)
    && (var q := s.clients[e.clt].packed[e.xid];
        e.proc == q.proc && e.args == q.args && (q.srv != 0 ==> e.srv == q.srv))
    && e.srv in s.nonces
    && (e.outcome.Some? ==> HandlerMayReturn(e.proc, e.srv, e.outcome.value))
  }

  ghost predicate ExecsOk(s: State) {
    forall i :: 0 <= i < |s.execs| ==> ExecOk(s, s.execs[i])
  }

  predicate SameCall(e: Exec, f: Exec) { e.clt == f.clt && e.xid == f.xid && e.srv == f.srv }

  /** Two runs of one call in one incarnation only after the client has reported it finished. */
  ghost predicate OnceOk(s: State) {
    forall i, j :: 0 <= i < j < |s.execs| && SameCall(s.execs[i], s.execs[j]) ==>
      Reported(s, s.execs[i].clt, s.execs[i].xid)
  }

  ghost predicate WindowsOk(s: State) {
    && s.server.windows.Keys == s.server.history.Keys
    && forall c :: c in s.server.windows ==>
      s.server.windows[c] == After(s.server.history[c]) && WellStamped(s.server.history[c])
  }

  /** While a call is unreported, the incarnation that ran it remembers it. */
  ghost predicate RememberedOk(s: State) {
    forall i :: 0 <= i < |s.execs| && s.execs[i].srv == s.server.nonce ==>
      Reported(s, s.execs[i].clt, s.execs[i].xid)
      || Find(WindowOf(s.server, s.execs[i].clt), s.execs[i].xid).Some?
  }

  ghost predicate Ran(execs: seq<Exec>, i: int, c: nat, x: nat, r: Reply) {
    0 <= i < |execs| && execs[i].clt == c && execs[i].xid == x && execs[i].outcome == Some(r)
  }

  /** Some run of the handler for call `x` of client `c` returned `r`. */
  ghost predicate Produced(execs: seq<Exec>, c: nat, x: nat, r: Reply) {
    exists i :: Ran(execs, i, c, x, r)
  }

  /** The first run of the handler for that call returned `r`. */
  ghost predicate FirstProduced(execs: seq<Exec>, c: nat, x: nat, r: Reply) {
    exists i :: Ran(execs, i, c, x, r)
      && forall j :: 0 <= j < i ==> !(execs[j].clt == c && execs[j].xid == x)
  }

  ghost predicate StoredOk(s: State) {
    forall c, x, r :: Find(WindowOf(s.server, c), x) == Some(Entry(x, Some(r))) ==> Produced(s.execs, c, x, r)
  }

  ghost predicate RepliesOk(s: State) {
    forall m :: m in s.replies ==>
      Known(s, m.clt, m.xid) && (m.reply == OldServer() || Produced(s.execs, m.clt, m.xid, m.reply))
  }

  ghost predicate ResultOk(s: State, c: nat, q: Request, r: Reply) {
    r == OldServer() ||
    (if q.proc == BIND then Produced(s.execs, c, q.xid, r) else FirstProduced(s.execs, c, q.xid, r))
  }

  ghost predicate ResultsOk(s: State) {
    forall c, x :: c in s.clients && x in s.clients[c].calls && x in s.clients[c].packed ==>
      (s.clients[c].calls[x].Some? ==> ResultOk(s, c, s.clients[c].packed[x], s.clients[c].calls[x].value))
  }

  ghost predicate NoncesOk(s: State) {
    s.server.nonce in s.nonces && forall n :: n in s.nonces ==> 0 < n < Wire.COUNT_LIMIT
  }

  ghost predicate Inv(s: State) {
    && ClientsOk(s) && RequestsOk(s) && ExecsOk(s) && OnceOk(s) && WindowsOk(s)
    && RememberedOk(s) && StoredOk(s) && RepliesOk(s) && ResultsOk(s) && NoncesOk(s)
  }
}
