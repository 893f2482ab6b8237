/**
 Framing on a TCP connection: `connection::send`, `write_cb`, `read_cb`, `writepdu` and `readpdu`
 (rpc/connection.cc:104-277).

 A PDU starts with a four-byte field that the writing side fills with the PDU's size.  Any number of
 threads share the single write slot `wpdu_`; writes and reads move as many bytes as the socket
 happens to take or give; the receiver may refuse a complete PDU, which is then offered again.
 */
module Connection {
  import opened Common
  import Wire

  const MAX_PDU := 0xa0_0000
  const INT_LIMIT := 0x8000_0000

  /** `charbuf`: the PDU being written, or the bytes of the PDU read so far. */
  datatype Charbuf = Charbuf(buf: Option<seq<byte>>, sz: int, solong: int)

  const EMPTY := Charbuf(None, 0, 0)

  /** The outcome of one `write`: some bytes taken, EAGAIN, or another error. */
  datatype WriteResult = Wrote(n: nat) | WouldBlock | WriteFailed

  /** The outcome of one `read`: some bytes given, EAGAIN, or end of file or another error. */
  datatype ReadResult = Got(n: nat) | NoData | ReadFailed

  /** The PDU with its size filled in. */
  function Stamp(b: seq<byte>): (r: seq<byte>)
    requires |b| >= 4
    ensures |r| == |b|
  {
    Wire.BigEndian(|b|, 4) + b[4..]
  }

  /** A PDU as `marshall` makes them: more than the size field, less than INT_MAX bytes. */
  predicate Sendable(b: seq<byte>) { 4 < |b| < INT_LIMIT }

  // ---------------------------------------------------------------- writepdu

  predicate CanWrite(w: Charbuf, r: WriteResult) {
    && w.buf.Some? && |w.buf.value| >= 4 && w.sz == |w.buf.value| && 0 <= w.solong <= w.sz
    && (r.Wrote? ==> r.n <= w.sz - w.solong)
  }

  datatype Written = Written(ok: bool, w: Charbuf, bytes: seq<byte>)

  function WritePdu(w: Charbuf, r: WriteResult): (res: Written)
    requires CanWrite(w, r)
  {
    if w.solong == w.sz then Written(true, w, [])
    else
      var w := if w.solong == 0 then w.(buf := Some(Stamp(w.buf.value))) else w;
      match r
      case WouldBlock => Written(true, w, [])
      case WriteFailed => Written(false, w.(solong := -1, sz := 0), [])
      case Wrote(n) => Written(true, w.(solong := w.solong + n), w.buf.value[w.solong..w.solong + n])
  }

  /** What a critical section of the writing side leaves; `result` is what `send` returns, once it
      returns. */
  datatype SendOut = SendOut(dead: bool, w: Charbuf, bytes: seq<byte>, result: Option<bool>)

  /** `send`, from the moment it has the slot to its return or its wait for completion. */
  function TakeSlot(b: seq<byte>, r: WriteResult): (res: SendOut)
    requires Sendable(b) && CanWrite(Charbuf(Some(b), |b|, 0), r)
  {
    var out := WritePdu(Charbuf(Some(b), |b|, 0), r);
    if !out.ok then SendOut(true, EMPTY, out.bytes, Some(false))
    else if out.w.solong == out.w.sz then SendOut(false, EMPTY, out.bytes, Some(true))
    else SendOut(false, out.w, out.bytes, None)
  }

  /** `write_cb` on a live connection with a PDU in the slot. */
  function WriteCb(w: Charbuf, r: WriteResult): (res: SendOut)
    requires CanWrite(w, r)
  {
    var out := WritePdu(w, r);
    SendOut(!out.ok, out.w, out.bytes, None)
  }

  // ---------------------------------------------------------------- readpdu

  datatype ReadOut = ReadOut(ok: bool, r: Charbuf, used: nat)

  function SizeField(avail: seq<byte>): (n: nat)
    requires |avail| >= 4
  {
    Wire.ReadBE(Wire.Cursor(avail[..4], 0, true), 4).0
  }

  /** The reads that can happen with `avail` unread bytes in the socket.  A size field that is not
      above 4, or is negative as an int, is outside the model; `HeaderIsSane` shows it never arrives. */
  predicate CanRead(r: Charbuf, avail: seq<byte>, hdr: ReadResult, body: ReadResult) {
    if r.sz == 0 then
      && !hdr.NoData?
      && (hdr.Got? ==> 1 <= hdr.n <= 4 && hdr.n <= |avail|)
      && (hdr.Got? && hdr.n == 4 ==>
        var sz := SizeField(avail);
        4 < sz < INT_LIMIT && (body.Got? ==> 1 <= body.n <= sz - 4 && body.n <= |avail| - 4))
    else
      && r.buf.Some? && 0 <= r.solong < r.sz
      && (body.Got? ==> 1 <= body.n <= r.sz - r.solong && body.n <= |avail|)
  }

  function ReadBody(r: Charbuf, avail: seq<byte>, body: ReadResult): (res: ReadOut)
    requires r.buf.Some? && (body.Got? ==> body.n <= |avail|)
  {
    match body
    case NoData => ReadOut(true, r, 0)
    case ReadFailed => ReadOut(false, EMPTY, 0)
    case Got(n) => ReadOut(true, r.(buf := Some(r.buf.value + avail[..n]), solong := r.solong + n), n)
  }

  function ReadPdu(r: Charbuf, avail: seq<byte>, hdr: ReadResult, body: ReadResult): (res: ReadOut)
    requires CanRead(r, avail, hdr, body)
  {
    if r.sz != 0 then ReadBody(r, avail, body)
    else if hdr.ReadFailed? then ReadOut(false, r, 0)
    else if hdr.n != 4 then ReadOut(false, r, hdr.n)
    else
      var sz := SizeField(avail);
      if sz > MAX_PDU then ReadOut(false, r, 4)
      else
        var res := ReadBody(Charbuf(Some(avail[..4]), sz, 4), avail[4..], body);
        res.(used := res.used + 4)
  }

  /** What `read_cb` leaves: liveness, buffer, bytes used, and the PDU delivered, if any. */
  datatype ReadCbOut = ReadCbOut(dead: bool, r: Charbuf, used: nat, pdu: Option<seq<byte>>)

  predicate NeedsRead(r: Charbuf) { r.buf.None? || r.solong < r.sz }

  predicate Complete(r: Charbuf) { r.buf.Some? && r.sz == r.solong }

  function ReadCb(r: Charbuf, avail: seq<byte>, hdr: ReadResult, body: ReadResult, accept: bool): (res: ReadCbOut)
    requires NeedsRead(r) ==> CanRead(r, avail, hdr, body)
  {
    var out := if NeedsRead(r) then ReadPdu(r, avail, hdr, body) else ReadOut(true, r, 0);
    if Complete(out.r) && accept
    then ReadCbOut(!out.ok, EMPTY, out.used, Some(out.r.buf.value))
    else ReadCbOut(!out.ok, out.r, out.used, None)
  }

  // ---------------------------------------------------------------- the connection object

  /** One endpoint.  Each method is what happens while `m_` is held. */
  class Endpoint {
    var dead: bool
    var wpdu: Charbuf
    var rpdu: Charbuf

    constructor ()
      ensures !dead && wpdu == EMPTY && rpdu == EMPTY
    {
      dead, wpdu, rpdu := false, EMPTY, EMPTY;
    }

    method Writepdu(r: WriteResult) returns (ok: bool, bytes: seq<byte>)
      requires CanWrite(wpdu, r)
      modifies this`wpdu
      ensures Written(ok, wpdu, bytes) == WritePdu(old(wpdu), r)
    {
      ok, bytes := true, [];
      if wpdu.solong == wpdu.sz {
        return;
      }
      if wpdu.solong == 0 {
        wpdu := wpdu.(buf := Some(Stamp(wpdu.buf.value)));
      }
      match r
      case WouldBlock =>
      case WriteFailed =>
        wpdu := wpdu.(solong := -1, sz := 0);
        ok := false;
      case Wrote(n) =>
        bytes := wpdu.buf.value[wpdu.solong..wpdu.solong + n];
        wpdu := wpdu.(solong := wpdu.solong + n);
    }

    method Readpdu(avail: seq<byte>, hdr: ReadResult, body: ReadResult) returns (ok: bool, used: nat)
      requires CanRead(rpdu, avail, hdr, body)
      modifies this`rpdu
      ensures ReadOut(ok, rpdu, used) == ReadPdu(old(rpdu), avail, hdr, body)
    {
      ok, used := true, 0;
      if rpdu.sz == 0 {
        if hdr.ReadFailed? {
          return false, 0;
        }
        if hdr.n != 4 {
          return false, hdr.n;
        }
        var sz := SizeField(avail);
        if sz > MAX_PDU {
          return false, 4;
        }
        rpdu := Charbuf(Some(avail[..4]), sz, 4);
        used := 4;
      }
      match body
      case NoData =>
      case ReadFailed =>
        rpdu := EMPTY;
        ok := false;
      case Got(n) =>
        assert used == 4 ==> avail[4..][..n] == avail[used..used + n];
        rpdu := rpdu.(buf := Some(rpdu.buf.value + avail[used..used + n]), solong := rpdu.solong + n);
        used := used + n;
    }

    method Readcb(avail: seq<byte>, hdr: ReadResult, body: ReadResult, accept: bool)
      returns (used: nat, pdu: Option<seq<byte>>)
      requires !dead && NeedsRead(rpdu) ==> CanRead(rpdu, avail, hdr, body)
      modifies this
      ensures ReadCbOut(dead, rpdu, used, pdu) ==
        if old(dead) then ReadCbOut(true, old(rpdu), 0, None) else ReadCb(old(rpdu), avail, hdr, body, accept)
      ensures wpdu == old(wpdu)
    {
      var ok := true;
      used, pdu := 0, None;
      if dead { return; }
      if NeedsRead(rpdu) {
        ok, used := Readpdu(avail, hdr, body);
      }
      if !ok {
        dead := true;
      }
      if Complete(rpdu) && accept {
        pdu := Some(rpdu.buf.value);
        rpdu := EMPTY;
      }
    }

    method BeginSend(b: seq<byte>, r: WriteResult) returns (bytes: seq<byte>, result: Option<bool>)
      requires !dead && wpdu.buf.None? && Sendable(b) && CanWrite(Charbuf(Some(b), |b|, 0), r)
      modifies this
      ensures SendOut(dead, wpdu, bytes, result) == TakeSlot(b, r)
      ensures rpdu == old(rpdu)
    {
      wpdu := Charbuf(Some(b), |b|, 0);
      var ok;
      ok, bytes := Writepdu(r);
      result := None;
      if !ok {
        dead := true;
      } else if wpdu.solong != wpdu.sz {
        return;
      }
      result := Some(!dead && wpdu.solong == wpdu.sz);
      wpdu := EMPTY;
    }

    /** `!alive` is the failed assertion that the connection is not dead. */
    method Writecb(r: WriteResult) returns (alive: bool, bytes: seq<byte>)
      requires !dead && wpdu.sz != 0 ==> CanWrite(wpdu, r)
      modifies this
      ensures alive <==> !old(dead)
      ensures if !alive || old(wpdu).sz == 0 then dead == old(dead) && wpdu == old(wpdu) && bytes == []
              else SendOut(dead, wpdu, bytes, None) == WriteCb(old(wpdu), r)
      ensures rpdu == old(rpdu)
    {
      alive, bytes := !dead, [];
      if dead { return; }
      if wpdu.sz == 0 {
        return;
      }
      var ok;
      ok, bytes := Writepdu(r);
      if !ok {
        dead := true;
      }
    }

    /** `send` after its wait for completion. */
    method EndSend() returns (result: bool)
      requires dead || wpdu.solong < 0 || wpdu.solong == wpdu.sz
      modifies this`wpdu
      ensures result == (!dead && old(wpdu).solong == old(wpdu).sz)
      ensures wpdu == EMPTY
    {
      result := !dead && wpdu.solong == wpdu.sz;
      wpdu := EMPTY;
    }
  }

  // ---------------------------------------------------------------- both ends and the stream

  /** A thread inside `send`: waiting for the slot, or owning it and waiting for completion. */
  datatype Phase = Waiting(b: seq<byte>) | Owner

  /** The writing endpoint, the TCP stream, and the reading endpoint.  `sent` lists the stamped PDUs
      in the order in which their senders got the slot, and `acked` those whose `send` returned true. */
  datatype State = State(
    senders: map<nat, Phase>,
    wdead: bool, wpdu: Charbuf,
    sent: seq<seq<byte>>, acked: set<nat>,
    wire: seq<byte>, pos: nat,
    rdead: bool, rpdu: Charbuf,
    delivered: seq<seq<byte>>)

  datatype Step =
    | Enter(thread: nat, b: seq<byte>)
    | Begin(thread: nat, w: WriteResult)
    | Write(w: WriteResult)
    | End(thread: nat)
    | Read(hdr: ReadResult, body: ReadResult, accept: bool)
    | KillWriter
    | KillReader

  predicate Enabled(s: State, step: Step) {
    match step
    case Enter(t, b) => t !in s.senders && Sendable(b)
    case Begin(t, r) =>
      && t in s.senders && s.senders[t].Waiting? && (s.wdead || s.wpdu.buf.None?)
      && (!s.wdead ==> var b := s.senders[t].b; Sendable(b) && CanWrite(Charbuf(Some(b), |b|, 0), r))
    case Write(r) => !s.wdead && s.wpdu.sz != 0 && CanWrite(s.wpdu, r)
    case End(t) =>
      t in s.senders && s.senders[t].Owner? && (s.wdead || s.wpdu.solong < 0 || s.wpdu.solong == s.wpdu.sz)
    case Read(hdr, body, accept) =>
      && !s.rdead && s.pos <= |s.wire|
      && (NeedsRead(s.rpdu) ==> CanRead(s.rpdu, s.wire[s.pos..], hdr, body))
    case KillWriter => true
    case KillReader => true
  }

  function ApplyBegin(s: State, t: nat, r: WriteResult): (s': State)
    requires Enabled(s, Begin(t, r))
  {
    if s.wdead then s.(senders := s.senders - {t})
    else
      var b := s.senders[t].b;
      var out := TakeSlot(b, r);
      s.(senders := if out.result.Some? then s.senders - {t} else s.senders[t := Owner],
         wdead := out.dead, wpdu := out.w, sent := s.sent + [Stamp(b)], wire := s.wire + out.bytes,
         acked := if out.result == Some(true) then s.acked + {|s.sent|} else s.acked)
  }

  function ApplyEnd(s: State, t: nat): (s': State)
    requires Enabled(s, End(t))
  {
    var ok := !s.wdead && s.wpdu.solong == s.wpdu.sz;
    s.(senders := s.senders - {t}, wpdu := EMPTY,
       acked := if ok && |s.sent| > 0 then s.acked + {|s.sent| - 1} else s.acked)
  }

  function ApplyRead(s: State, hdr: ReadResult, body: ReadResult, accept: bool): (s': State)
    requires Enabled(s, Read(hdr, body, accept))
  {
    var out := ReadCb(s.rpdu, s.wire[s.pos..], hdr, body, accept);
    s.(rdead := out.dead, rpdu := out.r, pos := s.pos + out.used,
       delivered := if out.pdu.Some? then s.delivered + [out.pdu.value] else s.delivered)
  }

  function Apply(s: State, step: Step): (s': State)
    requires Enabled(s, step)
  {
    match step
    case Enter(t, b) => s.(senders := s.senders[t := Waiting(b)])
    case Begin(t, r) => ApplyBegin(s, t, r)
    case Write(r) =>
      var out := WriteCb(s.wpdu, r);
      s.(wdead := out.dead, wpdu := out.w, wire := s.wire + out.bytes)
    case End(t) => ApplyEnd(s, t)
    case Read(hdr, body, accept) => ApplyRead(s, hdr, body, accept)
    case KillWriter => s.(wdead := true)
    case KillReader => s.(rdead := true)
  }

  const START := State(map[], false, EMPTY, [], {}, [], 0, false, EMPTY, [])

  ghost predicate IsRun(states: seq<State>, steps: seq<Step>) {
    && |states| == |steps| + 1
    && states[0] == START
    && forall i {:trigger steps[i]} ::
         0 <= i < |steps| ==> Enabled(states[i], steps[i]) && states[i + 1] == Apply(states[i], steps[i])
  }

  // ---------------------------------------------------------------- concatenated PDUs

  function Flatten(ps: seq<seq<byte>>): (bs: seq<byte>) {
    if ps == [] then [] else Flatten(ps[..|ps| - 1]) + ps[|ps| - 1]
  }

  lemma FlattenAppend(ps: seq<seq<byte>>, p: seq<byte>)
    ensures Flatten(ps + [p]) == Flatten(ps) + p
  {
    assert (ps + [p])[..|ps|] == ps;
  }

  /** PDU `d` sits in the stream right behind the ones before it. */
  lemma {:induction false} FlattenAt(ps: seq<seq<byte>>, d: nat)
    requires d < |ps|
    ensures Flatten(ps[..d]) + ps[d] <= Flatten(ps)
    ensures Flatten(ps[..d + 1]) == Flatten(ps[..d]) + ps[d]
  {
    assert ps[..d + 1][..d] == ps[..d];
    if d + 1 == |ps| {
      assert ps[..d + 1] == ps;
    } else {
      var front := ps[..|ps| - 1];
      FlattenAt(front, d);
      assert front[..d] == ps[..d];
    }
  }

  lemma MoreIsLonger(ps: seq<seq<byte>>, more: seq<seq<byte>>)
    requires ps <= more && forall p :: p in more ==> |p| > 0
    ensures ps == more || |Flatten(ps)| < |Flatten(more)|
  {
    var d := |ps|;
    if d < |more| {
      assert more[d] in more && more[..d] == ps;
      FlattenAt(more, d);
    }
  }

  lemma PrefixHolds(ps: seq<seq<byte>>, more: seq<seq<byte>>, k: nat)
    requires ps <= more && k < |more|
    ensures k < |ps| ==> more[k] in ps
  {
    if k < |ps| { assert more[k] == ps[k]; }
  }

  // ---------------------------------------------------------------- invariant

  predicate Stamped(p: seq<byte>) { Sendable(p) && p[..4] == Wire.BigEndian(|p|, 4) }

  /** The slot holds PDU `p`, stamped once its first byte has gone out. */
  predicate InSlot(w: Charbuf, p: seq<byte>) {
    && w.buf.Some? && Sendable(w.buf.value) && Stamp(w.buf.value) == p
    && w.sz == |w.buf.value| && 0 <= w.solong <= w.sz
    && (w.solong > 0 ==> w.buf.value == p)
  }

  /** The bytes a live connection has written are the accepted PDUs in order, each whole, except
      that the one in the slot is written up to `solong`. */
  ghost predicate Streams(w: Charbuf, sent: seq<seq<byte>>, wire: seq<byte>) {
    if w.buf.None? then wire == Flatten(sent)
    else
      && |sent| > 0 && InSlot(w, sent[|sent| - 1])
      && wire == Flatten(sent[..|sent| - 1]) + sent[|sent| - 1][..w.solong]
  }

  /** A dead connection stopped somewhere in them. */
  ghost predicate WriterOk(s: State) {
    && (forall p :: p in s.sent ==> Stamped(p))
    && s.wire <= Flatten(s.sent)
    && (s.wpdu.buf.None? ==> s.wpdu == EMPTY)
    && (!s.wdead ==> Streams(s.wpdu, s.sent, s.wire))
  }

  /** One thread owns the slot exactly while it is taken. */
  ghost predicate OwnerOk(s: State) {
    && (forall t :: t in s.senders && s.senders[t].Owner? ==> s.wpdu.buf.Some?)
    && (forall t, u :: t in s.senders && u in s.senders && s.senders[t].Owner? && s.senders[u].Owner? ==> t == u)
    && (s.wpdu.buf.Some? ==> exists t :: t in s.senders && s.senders[t].Owner?)
    && (forall t :: t in s.senders && s.senders[t].Waiting? ==> Sendable(s.senders[t].b))
  }

  ghost predicate AckedOk(s: State) {
    forall i :: i in s.acked ==> i < |s.sent| && Flatten(s.sent[..i + 1]) <= s.wire
  }

  /** The buffer holds the start of PDU `p`. */
  predicate Holds(r: Charbuf, p: seq<byte>) {
    && r.buf.Some? && r.sz == |p| <= MAX_PDU && 4 <= r.solong <= r.sz
    && r.buf.value == p[..r.solong]
  }

  /** A live reader has consumed whole delivered PDUs and the start of the next one. */
  ghost predicate ReaderOk(s: State) {
    && s.delivered <= s.sent
    && s.pos <= |s.wire|
    && (forall p :: p in s.delivered ==> |p| <= MAX_PDU)
    && (!s.rdead ==> HoldsNext(s, s.rpdu, s.pos))
  }

  ghost predicate HoldsNext(s: State, r: Charbuf, pos: nat) {
    if r.buf.None? then r == EMPTY && pos == |Flatten(s.delivered)|
    else
      && |s.delivered| < |s.sent| && Holds(r, s.sent[|s.delivered|])
      && pos == |Flatten(s.delivered)| + r.solong
  }

  ghost predicate Inv(s: State) { WriterOk(s) && OwnerOk(s) && AckedOk(s) && ReaderOk(s) }

  // ---------------------------------------------------------------- the writing side

  lemma StampIsStamped(b: seq<byte>)
    requires Sendable(b)
    ensures Stamped(Stamp(b)) && Stamp(Stamp(b)) == Stamp(b)
  {
  }

  /** One `writepdu` continues the stamped PDU exactly where the last one stopped. */
  lemma WriteContinues(w: Charbuf, r: WriteResult, p: seq<byte>)
    requires CanWrite(w, r) && InSlot(w, p)
    ensures var out := WritePdu(w, r);
      if !out.ok then out.bytes == []
      else
        && InSlot(out.w, p) && w.solong <= out.w.solong
        && p[..w.solong] + out.bytes == p[..out.w.solong]
  {
    StampIsStamped(w.buf.value);
  }

  lemma PrefixOfConcat(a: seq<byte>, p: seq<byte>, n: nat, all: seq<byte>)
    requires n <= |p| && a + p <= all
    ensures a + p[..n] <= all
  {
    assert a + p[..n] == (a + p)[..|a| + n];
  }

  lemma JoinBytes(front: seq<byte>, a: seq<byte>, b: seq<byte>, c: seq<byte>)
    requires a + b == c
    ensures (front + a) + b == front + c
  {
  }

  lemma StreamContinues(w: Charbuf, r: WriteResult, sent: seq<seq<byte>>, wire: seq<byte>)
    requires CanWrite(w, r) && Streams(w, sent, wire)
    ensures var out := WritePdu(w, r);
      && (out.ok ==> Streams(out.w, sent, wire + out.bytes))
      && wire + out.bytes <= Flatten(sent)
  {
    var k := |sent| - 1;
    var out := WritePdu(w, r);
    WriteContinues(w, r, sent[k]);
    FlattenAt(sent, k);
    var last := if out.ok then out.w.solong else w.solong;
    assert sent[k][..w.solong] + out.bytes == sent[k][..last];
    JoinBytes(Flatten(sent[..k]), sent[k][..w.solong], out.bytes, sent[k][..last]);
    PrefixOfConcat(Flatten(sent[..k]), sent[k], last, Flatten(sent));
  }

  /** A slot whose PDU is completely written may be emptied. */
  lemma StreamFinishes(w: Charbuf, sent: seq<seq<byte>>, wire: seq<byte>)
    requires w.buf.Some? && Streams(w, sent, wire) && w.solong == w.sz
    ensures wire == Flatten(sent)
  {
    var k := |sent| - 1;
    FlattenAt(sent, k);
    assert sent[..k + 1] == sent;
    assert sent[k][..|sent[k]|] == sent[k];
  }

  /** Steps of the writing side only add to `sent` and to the stream, so nothing changes for the
      reader and for the PDUs already acknowledged. */
  lemma GrowthKeeps(s: State, s': State)
    requires ReaderOk(s) && AckedOk(s)
    requires s.sent <= s'.sent && s.wire <= s'.wire && s'.acked == s.acked
    requires s'.pos == s.pos && s'.rdead == s.rdead && s'.rpdu == s.rpdu && s'.delivered == s.delivered
    ensures ReaderOk(s') && AckedOk(s')
  {
    forall i | i in s.acked ensures Flatten(s'.sent[..i + 1]) <= s'.wire {
      assert s'.sent[..i + 1] == s.sent[..i + 1];
    }
  }

  lemma LastPdu(s: State, b: seq<byte>)
    requires Sendable(b)
    ensures var sent' := s.sent + [Stamp(b)];
      && Flatten(sent') == Flatten(s.sent) + Stamp(b)
      && sent'[..|sent'| - 1] == s.sent && sent'[|sent'| - 1] == Stamp(b)
      && s.sent <= sent' && Stamped(Stamp(b))
  {
    FlattenAppend(s.sent, Stamp(b));
    StampIsStamped(b);
  }

  lemma BeginKeepsWriter(s: State, t: nat, r: WriteResult)
    requires WriterOk(s) && Enabled(s, Begin(t, r)) && !s.wdead
    ensures var s' := Apply(s, Begin(t, r));
      && WriterOk(s') && s.sent <= s'.sent && s.wire <= s'.wire
      && (s'.acked != s.acked ==> s'.wire == Flatten(s'.sent))
  {
    var b := s.senders[t].b;
    var w := Charbuf(Some(b), |b|, 0);
    var sent := s.sent + [Stamp(b)];
    LastPdu(s, b);
    assert s.wire + Stamp(b)[..0] == s.wire;
    StreamContinues(w, r, sent, s.wire);
    var out := WritePdu(w, r);
    if out.ok && out.w.solong == out.w.sz { StreamFinishes(out.w, sent, s.wire + out.bytes); }
  }

  lemma BeginKeepsAcked(s: State, t: nat, r: WriteResult)
    requires WriterOk(s) && AckedOk(s) && ReaderOk(s) && Enabled(s, Begin(t, r)) && !s.wdead
    ensures AckedOk(Apply(s, Begin(t, r))) && ReaderOk(Apply(s, Begin(t, r)))
  {
    var s' := Apply(s, Begin(t, r));
    BeginKeepsWriter(s, t, r);
    var unacked := s'.(acked := s.acked);
    GrowthKeeps(s, unacked);
    assert s'.acked == s.acked || s'.acked == s.acked + {|s'.sent| - 1};
    LastIsAcked(unacked, s');
  }

  lemma LastIsAcked(s: State, s': State)
    requires AckedOk(s) && ReaderOk(s) && s' == s.(acked := s'.acked)
    requires s'.acked != s.acked ==> |s.sent| > 0 && s'.acked == s.acked + {|s.sent| - 1} && s.wire == Flatten(s.sent)
    ensures AckedOk(s') && ReaderOk(s')
  {
    assert s.sent[..|s.sent|] == s.sent;
  }

  lemma BeginKeepsOwner(s: State, t: nat, r: WriteResult)
    requires OwnerOk(s) && Enabled(s, Begin(t, r))
    ensures OwnerOk(Apply(s, Begin(t, r)))
  {
    var s' := Apply(s, Begin(t, r));
    if s.wdead {
      if s.wpdu.buf.Some? {
        var u :| u in s.senders && s.senders[u].Owner?;
        assert u in s'.senders && s'.senders[u].Owner?;
      }
    } else {
      assert forall u :: u in s.senders ==> !s.senders[u].Owner?;
      if s'.wpdu.buf.Some? { assert t in s'.senders && s'.senders[t].Owner?; }
    }
  }

  lemma BeginKeeps(s: State, t: nat, r: WriteResult)
    requires Inv(s) && Enabled(s, Begin(t, r))
    ensures Inv(Apply(s, Begin(t, r)))
  {
    var s' := Apply(s, Begin(t, r));
    BeginKeepsOwner(s, t, r);
    if s.wdead {
      GrowthKeeps(s, s');
    } else {
      BeginKeepsWriter(s, t, r);
      BeginKeepsAcked(s, t, r);
    }
  }

  lemma WriteKeeps(s: State, r: WriteResult)
    requires Inv(s) && Enabled(s, Write(r))
    ensures Inv(Apply(s, Write(r)))
  {
    var s' := Apply(s, Write(r));
    StreamContinues(s.wpdu, r, s.sent, s.wire);
    GrowthKeeps(s, s');
    assert OwnerOk(s') by {
      var t :| t in s.senders && s.senders[t].Owner?;
      assert t in s'.senders && s'.senders[t].Owner?;
    }
  }

  lemma EndKeepsWriter(s: State, t: nat)
    requires WriterOk(s) && OwnerOk(s) && AckedOk(s) && Enabled(s, End(t))
    ensures WriterOk(Apply(s, End(t))) && AckedOk(Apply(s, End(t)))
  {
    if !s.wdead { StreamFinishes(s.wpdu, s.sent, s.wire); }
    assert |s.sent| > 0 ==> s.sent[..|s.sent| - 1 + 1] == s.sent;
  }

  lemma EndKeeps(s: State, t: nat)
    requires Inv(s) && Enabled(s, End(t))
    ensures Inv(Apply(s, End(t)))
  {
    EndKeepsWriter(s, t);
    GrowthKeeps(s, Apply(s, End(t)).(acked := s.acked));
  }

  // ---------------------------------------------------------------- the reading side

  /** What the socket holds next, at offset `off` of PDU `d`. */
  lemma StreamAt(s: State, d: nat, off: nat, n: nat)
    requires WriterOk(s) && d < |s.sent| && off + n <= |s.sent[d]|
    requires s.pos == |Flatten(s.sent[..d])| + off && s.pos + n <= |s.wire|
    ensures s.wire[s.pos..][..n] == s.sent[d][off..off + n]
  {
    FlattenAt(s.sent, d);
    var all := Flatten(s.sent);
    assert s.wire[s.pos..][..n] == all[s.pos..s.pos + n];
    assert all[s.pos..s.pos + n] == (Flatten(s.sent[..d]) + s.sent[d])[s.pos..s.pos + n];
  }

  /** Unread bytes at a PDU boundary belong to a PDU that was sent. */
  lemma MoreWasSent(s: State)
    requires WriterOk(s) && ReaderOk(s) && s.pos == |Flatten(s.delivered)| && s.pos < |s.wire|
    ensures |s.delivered| < |s.sent| && s.delivered == s.sent[..|s.delivered|]
    ensures Stamped(s.sent[|s.delivered|])
  {
    assert |s.delivered| == |s.sent| ==> s.delivered == s.sent;
  }

  lemma SizeFieldIsSize(avail: seq<byte>, p: seq<byte>)
    requires Stamped(p) && |avail| >= 4 && avail[..4] == p[..4]
    ensures SizeField(avail) == |p|
  {
    var c := Wire.Cursor(avail[..4], 0, true);
    Wire.SmallCountsFit(|p|);
    assert c.buf[0..4] == c.buf;
    Wire.ReadWhatWasWritten(c, |p|, 4);
  }

  /** The size field a live reader finds is the size of the next PDU sent: the model's restriction
      on size fields excludes nothing. */
  lemma HeaderIsSane(s: State)
    requires WriterOk(s) && ReaderOk(s) && !s.rdead && s.rpdu.buf.None? && s.pos + 4 <= |s.wire|
    ensures |s.delivered| < |s.sent| && SizeField(s.wire[s.pos..]) == |s.sent[|s.delivered|]|
    ensures 4 < SizeField(s.wire[s.pos..]) < INT_LIMIT
  {
    MoreWasSent(s);
    StreamAt(s, |s.delivered|, 0, 4);
    SizeFieldIsSize(s.wire[s.pos..], s.sent[|s.delivered|]);
  }

  /** Reading body bytes continues the PDU. */
  lemma BodyContinues(s: State, r: Charbuf, d: nat, body: ReadResult)
    requires WriterOk(s) && d < |s.sent| && Holds(r, s.sent[d])
    requires s.pos == |Flatten(s.sent[..d])| + r.solong && s.pos <= |s.wire|
    requires body.Got? ==> body.n <= r.sz - r.solong && s.pos + body.n <= |s.wire|
    ensures var out := ReadBody(r, s.wire[s.pos..], body);
      && s.pos + out.used <= |s.wire|
      && if !out.ok then out.r == EMPTY
         else Holds(out.r, s.sent[d]) && out.used == out.r.solong - r.solong
  {
    if body.Got? {
      StreamAt(s, d, r.solong, body.n);
      assert s.sent[d][..r.solong] + s.sent[d][r.solong..r.solong + body.n] == s.sent[d][..r.solong + body.n];
    }
  }

  /** What `readpdu` leaves of a live reader: either it fails, or the buffer holds the start of the
      next PDU sent. */
  lemma ReadpduContinues(s: State, hdr: ReadResult, body: ReadResult)
    requires WriterOk(s) && ReaderOk(s) && !s.rdead && NeedsRead(s.rpdu)
    requires CanRead(s.rpdu, s.wire[s.pos..], hdr, body)
    ensures var out := ReadPdu(s.rpdu, s.wire[s.pos..], hdr, body);
      && s.pos + out.used <= |s.wire|
      && if !out.ok then out.r == EMPTY
         else out.r.buf.Some? && HoldsNext(s, out.r, s.pos + out.used)
  {
    var d := |s.delivered|;
    var avail := s.wire[s.pos..];
    assert s.sent[..d] == s.delivered;
    if s.rpdu.sz != 0 {
      BodyContinues(s, s.rpdu, d, body);
    } else if hdr.Got? && hdr.n == 4 && SizeField(avail) <= MAX_PDU {
      HeaderIsSane(s);
      StreamAt(s, d, 0, 4);
      var s4 := s.(pos := s.pos + 4);
      assert s4.wire[s4.pos..] == avail[4..];
      BodyContinues(s4, Charbuf(Some(avail[..4]), SizeField(avail), 4), d, body);
    }
  }

  /** A complete buffer holds exactly the next PDU sent. */
  lemma CompleteIsNext(s: State, r: Charbuf, pos: nat)
    requires s.delivered <= s.sent && r.buf.Some? && HoldsNext(s, r, pos) && Complete(r)
    ensures r.buf.value == s.sent[|s.delivered|]
    ensures s.delivered + [r.buf.value] <= s.sent
    ensures |Flatten(s.delivered + [r.buf.value])| == pos
  {
    var p := s.sent[|s.delivered|];
    assert p[..|p|] == p;
    FlattenAppend(s.delivered, p);
  }

  /** What `readpdu` leaves, or the full buffer that is offered again without reading. */
  function AfterRead(s: State, hdr: ReadResult, body: ReadResult, accept: bool): (out: ReadOut)
    requires Enabled(s, Read(hdr, body, accept))
  {
    if NeedsRead(s.rpdu) then ReadPdu(s.rpdu, s.wire[s.pos..], hdr, body) else ReadOut(true, s.rpdu, 0)
  }

  lemma AfterReadHolds(s: State, hdr: ReadResult, body: ReadResult, accept: bool)
    requires WriterOk(s) && ReaderOk(s) && Enabled(s, Read(hdr, body, accept))
    ensures var out := AfterRead(s, hdr, body, accept);
      && s.pos + out.used <= |s.wire|
      && if out.ok then out.r.buf.Some? && HoldsNext(s, out.r, s.pos + out.used) else out.r == EMPTY
  {
    if NeedsRead(s.rpdu) { ReadpduContinues(s, hdr, body); }
  }

  lemma ReadKeepsReader(s: State, hdr: ReadResult, body: ReadResult, accept: bool)
    requires WriterOk(s) && ReaderOk(s) && Enabled(s, Read(hdr, body, accept))
    ensures ReaderOk(Apply(s, Read(hdr, body, accept)))
  {
    var out, s' := AfterRead(s, hdr, body, accept), Apply(s, Read(hdr, body, accept));
    AfterReadHolds(s, hdr, body, accept);
    if Complete(out.r) && accept {
      CompleteIsNext(s, out.r, s.pos + out.used);
      assert s'.delivered == s.delivered + [out.r.buf.value] && s'.rpdu == EMPTY;
      AcceptedReader(s, s', out.r.buf.value);
    } else {
      assert s'.delivered == s.delivered && s'.rpdu == out.r;
    }
  }

  lemma AcceptedReader(s: State, s': State, p: seq<byte>)
    requires ReaderOk(s) && |p| <= MAX_PDU && s.delivered + [p] <= s.sent && s'.sent == s.sent && s'.wire == s.wire
    requires s'.delivered == s.delivered + [p] && s'.rpdu == EMPTY && s'.pos == |Flatten(s'.delivered)| <= |s.wire|
    ensures ReaderOk(s')
  {
  }

  lemma ReadKeeps(s: State, hdr: ReadResult, body: ReadResult, accept: bool)
    requires Inv(s) && Enabled(s, Read(hdr, body, accept))
    ensures Inv(Apply(s, Read(hdr, body, accept)))
  {
    ReadKeepsReader(s, hdr, body, accept);
  }

  // ---------------------------------------------------------------- runs

  lemma StepKeeps(s: State, step: Step)
    requires Inv(s) && Enabled(s, step)
    ensures Inv(Apply(s, step))
  {
    match step
    case Enter(t, b) =>
      var s' := Apply(s, step);
      GrowthKeeps(s, s');
      assert OwnerOk(s') by {
        if s.wpdu.buf.Some? {
          var u :| u in s.senders && s.senders[u].Owner?;
          assert u in s'.senders && s'.senders[u].Owner?;
        }
      }
    case Begin(t, r) => BeginKeeps(s, t, r);
    case Write(r) => WriteKeeps(s, r);
    case End(t) => EndKeeps(s, t);
    case Read(hdr, body, accept) => ReadKeeps(s, hdr, body, accept);
    case KillWriter => GrowthKeeps(s, s.(wdead := true));
    case KillReader =>
  }

  lemma {:induction false} RunKeeps(states: seq<State>, steps: seq<Step>, i: nat)
    requires IsRun(states, steps) && i < |states|
    ensures Inv(states[i])
  {
    if i == 0 {
    } else {
      RunKeeps(states, steps, i - 1);
      StepKeeps(states[i - 1], steps[i - 1]);
    }
  }

  // ---------------------------------------------------------------- main results

  /** In every schedule the PDUs delivered are, byte for byte, a prefix of the PDUs sent, and none
      is larger than the limit. */
  lemma DeliveredIsPrefixOfSent(states: seq<State>, steps: seq<Step>, i: nat)
    requires IsRun(states, steps) && i < |states|
    ensures states[i].delivered <= states[i].sent
    ensures forall p :: p in states[i].delivered ==> |p| <= MAX_PDU
  {
    RunKeeps(states, steps, i);
  }

  /** `send` returns true only when its whole PDU, and everything sent before it, is in the stream. */
  lemma TrueMeansWritten(states: seq<State>, steps: seq<Step>, i: nat, k: nat)
    requires IsRun(states, steps) && i < |states| && k in states[i].acked
    ensures k < |states[i].sent| && Flatten(states[i].sent[..k + 1]) <= states[i].wire
  {
    RunKeeps(states, steps, i);
  }

  /** The read of the size field fails or comes short, the size is above the limit, or the read of the body
      fails. */
  predicate BadRead(s: State, hdr: ReadResult, body: ReadResult)
    requires s.pos <= |s.wire| && (NeedsRead(s.rpdu) ==> CanRead(s.rpdu, s.wire[s.pos..], hdr, body))
  {
    NeedsRead(s.rpdu) &&
    if s.rpdu.sz != 0 then body.ReadFailed?
    else hdr.ReadFailed? || hdr.n != 4 || SizeField(s.wire[s.pos..]) > MAX_PDU || body.ReadFailed?
  }

  /** One read step: it kills the reader exactly when it is bad, and then delivers nothing. */
  lemma BadReadKillsIff(s: State, hdr: ReadResult, body: ReadResult, accept: bool)
    requires Enabled(s, Read(hdr, body, accept)) && ReaderOk(s)
    ensures var t := Apply(s, Read(hdr, body, accept));
      && (t.rdead <==> BadRead(s, hdr, body))
      && (t.rdead ==> t.delivered == s.delivered)
  {
  }

  /** Step `i` kills the reader: `KillReader`, or a bad read. */
  ghost predicate Killed(states: seq<State>, steps: seq<Step>, i: int)
    requires |states| == |steps| + 1
  {
    && 0 <= i < |steps| && Enabled(states[i], steps[i])
    && (steps[i] == KillReader || (steps[i].Read? && BadRead(states[i], steps[i].hdr, steps[i].body)))
  }

  lemma KillsIff(states: seq<State>, steps: seq<Step>, i: nat)
    requires IsRun(states, steps) && i < |steps|
    ensures states[i + 1].rdead <==> states[i].rdead || Killed(states, steps, i)
    ensures states[i + 1].rdead ==> states[i + 1].delivered == states[i].delivered
  {
    RunKeeps(states, steps, i);
    assert Enabled(states[i], steps[i]);
    if steps[i].Read? { BadReadKillsIff(states[i], steps[i].hdr, steps[i].body, steps[i].accept); }
  }

  /** In every schedule: the reader is dead if and only if it has been killed, by a split or oversized size field,
      a failed read, or from outside; nothing else ends the delivery. */
  lemma {:induction false} DeadIffKilled(states: seq<State>, steps: seq<Step>, j: nat)
    requires IsRun(states, steps) && j < |states|
    ensures states[j].rdead <==> exists i :: i < j && Killed(states, steps, i)
  {
    if j == 0 {
    } else {
      DeadIffKilled(states, steps, j - 1);
      KillsIff(states, steps, j - 1);
    }
  }

  lemma {:induction false} DeadReaderIsSilent(states: seq<State>, steps: seq<Step>, i: nat, j: nat)
    requires IsRun(states, steps) && i <= j < |states| && states[i].rdead
    ensures states[j].rdead && states[j].delivered == states[i].delivered
  {
    if i == j {
    } else {
      DeadReaderIsSilent(states, steps, i, j - 1);
      KillsIff(states, steps, j - 1);
    }
  }

  /** In every schedule: what has been delivered before the first kill is all that is ever delivered. */
  lemma NothingAfterKill(states: seq<State>, steps: seq<Step>, i: nat, j: nat)
    requires IsRun(states, steps) && i < j < |states| && Killed(states, steps, i)
    ensures states[j].rdead && states[j].delivered == states[i].delivered
  {
    KillsIff(states, steps, i);
    DeadReaderIsSilent(states, steps, i + 1, j);
  }

  /** In every schedule: a PDU above the limit, and everything sent behind it, is never delivered. */
  lemma OversizedIsNeverDelivered(states: seq<State>, steps: seq<Step>, j: nat, k: nat)
    requires IsRun(states, steps) && j < |states|
    requires k < |states[j].sent| && |states[j].sent[k]| > MAX_PDU
    ensures |states[j].delivered| <= k
  {
    RunKeeps(states, steps, j);
    PrefixHolds(states[j].delivered, states[j].sent, k);
  }

  /** In every schedule: a live reader that has read everything sent and holds nothing back has delivered all of
      it. */
  lemma EverythingIsDelivered(states: seq<State>, steps: seq<Step>, j: nat)
    requires IsRun(states, steps) && j < |states|
    requires var s := states[j]; !s.rdead && s.rpdu.buf.None? && s.pos == |s.wire| && s.wire == Flatten(s.sent)
    ensures states[j].delivered == states[j].sent
  {
    RunKeeps(states, steps, j);
    MoreIsLonger(states[j].delivered, states[j].sent);
  }

  /** A refused PDU is offered again before anything else is read. */
  lemma RefusedIsRetried(states: seq<State>, steps: seq<Step>, i: nat)
    requires IsRun(states, steps) && i < |steps| && steps[i].Read?
    requires Complete(states[i].rpdu)
    ensures states[i + 1].pos == states[i].pos
    ensures !states[i].rdead
    ensures var d := |states[i].delivered|;
      d < |states[i].sent| &&
      states[i + 1].delivered ==
        if steps[i].accept then states[i].delivered + [states[i].sent[d]] else states[i].delivered
  {
    RunKeeps(states, steps, i);
    CompleteIsNext(states[i], states[i].rpdu, states[i].pos);
  }
}
