/**
 The `marshall` and `unmarshall` objects (rpc/marshall.h:15-176, rpc/rpc.cc:655-876).

 A `marshall` object appends to a buffer that grows by doubling; the header is packed afterwards,
 in place, over the bytes reserved for it.
 */
module Marshalling {
  import opened Common
  import opened Wire

  const DEFAULT_RPC_SZ := 1024
  const SIZE_FIELD := 4
  const RPC_HEADER_SZ := 24

  // ---------------------------------------------------------------- headers

  datatype ReqHeader = ReqHeader(xid: int, proc: int, clt: int, srv: int, rep: int)

  datatype ReplyHeader = ReplyHeader(xid: int, ret: int)

  predicate ReqHeaderFits(h: ReqHeader) {
    && IntFits(h.xid, I32) && IntFits(h.proc, I32)
    && IntFits(h.clt, U32) && IntFits(h.srv, U32) && IntFits(h.rep, I32)
  }

  predicate ReplyHeaderFits(h: ReplyHeader) { IntFits(h.xid, I32) && IntFits(h.ret, I32) }

  function IntBytes(n: int, k: Kind): (bs: seq<byte>)
    requires Width(k) == 4 && IntFits(n, k)
    ensures |bs| == 4
  {
    BigEndian(ToUnsigned(n, k), 4)
  }

  function ReqHeaderBytes(h: ReqHeader): (bs: seq<byte>)
    requires ReqHeaderFits(h)
    ensures |bs| == 20
  {
    IntBytes(h.xid, I32) + IntBytes(h.proc, I32) + IntBytes(h.clt, U32) + IntBytes(h.srv, U32)
    + IntBytes(h.rep, I32)
  }

  function ReplyHeaderBytes(h: ReplyHeader): (bs: seq<byte>)
    requires ReplyHeaderFits(h)
    ensures |bs| == 8
  {
    IntBytes(h.xid, I32) + IntBytes(h.ret, I32)
  }

  function ReadInt(c: Cursor, k: Kind): (r: (int, Cursor))
    requires Width(k) == 4
  {
    var n := ReadBE(c, 4);
    (FromUnsigned(n.0, k), n.1)
  }

  function ReadReqHeader(c: Cursor): (r: (ReqHeader, Cursor)) {
    var xid := ReadInt(c.(ind := SIZE_FIELD), I32);
    var proc := ReadInt(xid.1, I32);
    var clt := ReadInt(proc.1, U32);
    var srv := ReadInt(clt.1, U32);
    var rep := ReadInt(srv.1, I32);
    (ReqHeader(xid.0, proc.0, clt.0, srv.0, rep.0), rep.1.(ind := RPC_HEADER_SZ))
  }

  function ReadReplyHeader(c: Cursor): (r: (ReplyHeader, Cursor)) {
    var xid := ReadInt(c.(ind := SIZE_FIELD), I32);
    var ret := ReadInt(xid.1, I32);
    (ReplyHeader(xid.0, ret.0), ret.1.(ind := RPC_HEADER_SZ))
  }

  lemma ReadIntBack(c: Cursor, n: int, k: Kind, rest: seq<byte>)
    requires Width(k) == 4 && IntFits(n, k) && At(c, IntBytes(n, k) + rest)
    ensures ReadInt(c, k) == (n, Skip(c, 4)) && At(Skip(c, 4), rest)
  {
    AtSplit(c, IntBytes(n, k), rest);
    ReadWhatWasWritten(c, ToUnsigned(n, k), 4);
  }

  /** A packed request header reads back as itself, and reading goes on at the payload. */
  lemma ReqHeaderRoundTrip(buf: seq<byte>, h: ReqHeader)
    requires ReqHeaderFits(h) && |buf| >= RPC_HEADER_SZ
    requires buf[SIZE_FIELD..RPC_HEADER_SZ] == ReqHeaderBytes(h)
    ensures ReadReqHeader(Cursor(buf, 0, true)) == (h, Cursor(buf, RPC_HEADER_SZ, true))
  {
    var c := Cursor(buf, SIZE_FIELD, true);
    var b4 := IntBytes(h.rep, I32);
    var b3 := IntBytes(h.srv, U32) + b4;
    var b2 := IntBytes(h.clt, U32) + b3;
    var b1 := IntBytes(h.proc, I32) + b2;
    assert ReqHeaderBytes(h) == IntBytes(h.xid, I32) + b1;
    ReadIntBack(c, h.xid, I32, b1);
    ReadIntBack(Skip(c, 4), h.proc, I32, b2);
    ReadIntBack(Skip(c, 8), h.clt, U32, b3);
    ReadIntBack(Skip(c, 12), h.srv, U32, b4);
    assert b4 + [] == b4;
    ReadIntBack(Skip(c, 16), h.rep, I32, []);
  }

  lemma ReplyHeaderRoundTrip(buf: seq<byte>, h: ReplyHeader)
    requires ReplyHeaderFits(h) && |buf| >= RPC_HEADER_SZ
    requires buf[SIZE_FIELD..SIZE_FIELD + 8] == ReplyHeaderBytes(h)
    ensures ReadReplyHeader(Cursor(buf, 0, true)) == (h, Cursor(buf, RPC_HEADER_SZ, true))
  {
    var c := Cursor(buf, SIZE_FIELD, true);
    ReadIntBack(c, h.xid, I32, IntBytes(h.ret, I32));
    assert IntBytes(h.ret, I32) + [] == IntBytes(h.ret, I32);
    ReadIntBack(Skip(c, 4), h.ret, I32, []);
  }

  lemma BigEndian4(u: nat)
    requires u < COUNT_LIMIT
    ensures BigEndian(u, 4) == [u / 0x100_0000, u / 0x1_0000 % 256, u / 256 % 256, u % 256]
  {
    var bs := BigEndian(u, 4);
    assert u / 256 / 256 == u / 0x1_0000 && u / 256 / 256 / 256 == u / 0x100_0000;
    assert BigEndian(u / 0x100_0000, 1) == [] + [u / 0x100_0000];
    assert BigEndian(u / 0x1_0000, 2) == BigEndian(u / 0x100_0000, 1) + [u / 0x1_0000 % 256];
    assert BigEndian(u / 256, 3) == BigEndian(u / 0x1_0000, 2) + [u / 256 % 256];
  }

  lemma IntBytes4(n: int, k: Kind)
    requires Width(k) == 4 && IntFits(n, k)
    ensures var u := ToUnsigned(n, k);
      IntBytes(n, k) == [u / 0x100_0000 % 256, u / 0x1_0000 % 256, u / 256 % 256, u % 256]
  {
    SmallCountsFit(0);
    BigEndian4(ToUnsigned(n, k));
  }

  lemma Peel(p: nat, lo: nat, w: nat)
    ensures BigEndian(256 * p + lo, w + 1) == BigEndian(p + lo / 256, w) + [lo % 256]
  {
    assert (256 * p + lo) / 256 == p + lo / 256 && (256 * p + lo) % 256 == lo % 256;
  }

  lemma LowHalf(lo: nat)
    ensures var l1, l2, l3 := lo / 256, lo / 256 / 256, lo / 256 / 256 / 256;
      BigEndian(lo, 4) == [] + [l3 % 256] + [l2 % 256] + [l1 % 256] + [lo % 256]
  {
    Peel(0, lo, 3);
    Peel(0, lo / 256, 2);
    Peel(0, lo / 256 / 256, 1);
    Peel(0, lo / 256 / 256 / 256, 0);
  }

  /** The high and the low half of an unsigned long long, one after the other. */
  lemma BigEndian8(hi: nat, lo: nat)
    requires lo < COUNT_LIMIT
    ensures BigEndian(hi * COUNT_LIMIT + lo, 8) == BigEndian(hi, 4) + BigEndian(lo, 4)
  {
    var l1 := lo / 256;
    var l2 := l1 / 256;
    var l3 := l2 / 256;
    assert l3 / 256 == 0;
    Peel(hi * 0x100_0000, lo, 7);
    Peel(hi * 0x1_0000, l1, 6);
    Peel(hi * 256, l2, 5);
    Peel(hi, l3, 4);
    LowHalf(lo);
    JoinHalves(BigEndian(hi, 4), l3 % 256, l2 % 256, l1 % 256, lo % 256);
  }

  lemma JoinHalves(s: seq<byte>, b3: byte, b2: byte, b1: byte, b0: byte)
    ensures s + [b3] + [b2] + [b1] + [b0] == s + ([] + [b3] + [b2] + [b1] + [b0])
  {
  }

  lemma Pow256Of8()
    ensures Pow256(8) == COUNT_LIMIT * COUNT_LIMIT && Pow256(4) == COUNT_LIMIT
  {
    assert Pow256(4) == 256 * Pow256(3) == 0x1_0000 * Pow256(2) == 0x100_0000 * Pow256(1);
    assert Pow256(8) == 256 * Pow256(7) == 0x1_0000 * Pow256(6) == 0x100_0000 * Pow256(5);
  }

  // ---------------------------------------------------------------- writing

  /** A buffer that is too small for `n` more bytes grows by its capacity or by `n`, whichever is more. */
  function Max(a: nat, b: nat): (m: nat) { if a > b then a else b }

  class Marshall {
    var buf: array<byte>
    var capa: nat
    var ind: nat

    ghost predicate Valid()
      reads this
    {
      capa == buf.Length && ind <= capa && RPC_HEADER_SZ <= capa
    }

    /** `str()`: everything up to the write position, header included. */
    ghost function Contents(): (s: seq<byte>)
      requires Valid()
      reads this, buf
    {
      buf[..ind]
    }

    constructor ()
      ensures Valid() && fresh(buf)
      ensures ind == 24 && capa == 1024
    {
      buf := new byte[DEFAULT_RPC_SZ];
      capa := DEFAULT_RPC_SZ;
      ind := RPC_HEADER_SZ;
    }

    /** `realloc`: a buffer of the new capacity with the old bytes in front. */
    method Grow(newCapa: nat)
      requires Valid() && capa <= newCapa
      modifies this`buf, this`capa
      ensures Valid() && capa == newCapa && fresh(buf)
      ensures buf[..old(capa)] == old(buf[..])
    {
      var bigger := new byte[newCapa];
      forall i | 0 <= i < capa {
        bigger[i] := buf[i];
      }
      buf, capa := bigger, newCapa;
    }

    /** One byte at the write position; the bytes behind it stay, whether or not they hold data. */
    method RawByte(x: byte)
      requires Valid()
      modifies this, buf
      ensures Valid() && (buf == old(buf) || fresh(buf))
      ensures ind == old(ind) + 1
      ensures Contents() == old(Contents()) + [x]
      ensures capa == if old(ind) < old(capa) then old(capa) else 2 * old(capa)
      ensures old(ind) < old(capa) ==> buf == old(buf) && forall i :: ind <= i < capa ==> buf[i] == old(buf[i])
    {
      if ind >= capa {
        Grow(2 * capa);
      }
      buf[ind] := x;
      ind := ind + 1;
    }

    method RawBytes(p: seq<byte>)
      requires Valid()
      modifies this, buf
      ensures Valid() && (buf == old(buf) || fresh(buf))
      ensures ind == old(ind) + |p|
      ensures Contents() == old(Contents()) + p
      ensures capa == if old(ind) + |p| <= old(capa) then old(capa) else old(capa) + Max(old(capa), |p|)
    {
      var n := |p|;
      if ind + n > capa {
        Grow(if capa > n then 2 * capa else capa + n);
      }
      forall i | ind <= i < ind + n {
        buf[i] := p[i - ind];
      }
      ind := ind + n;
    }

    /** `pack`, and the `operator<<` for int and unsigned int. */
    method Pack(n: int, k: Kind)
      requires Valid() && Width(k) == 4 && IntFits(n, k)
      modifies this, buf
      ensures Valid() && (buf == old(buf) || fresh(buf))
      ensures ind == old(ind) + 4
      ensures Contents() == old(Contents()) + IntBytes(n, k)
      ensures old(ind) + 4 <= old(capa) ==> buf == old(buf) && forall i :: ind <= i < capa ==> buf[i] == old(buf[i])
    {
      var u := ToUnsigned(n, k);
      IntBytes4(n, k);
      RawByte(u / 0x100_0000 % 256);
      RawByte(u / 0x1_0000 % 256);
      RawByte(u / 256 % 256);
      RawByte(u % 256);
    }

    /** Only the header's bytes change: not the size field in front, not the payload behind. */
    method PackReqHeader(h: ReqHeader)
      requires Valid() && RPC_HEADER_SZ <= ind && ReqHeaderFits(h)
      modifies this, buf
      ensures Valid() && buf == old(buf) && ind == old(ind)
      ensures Contents() == old(Contents())[..4] + ReqHeaderBytes(h) + old(Contents())[24..]
    {
      var saved := ind;
      ind := SIZE_FIELD;
      Pack(h.xid, I32);
      Pack(h.proc, I32);
      Pack(h.clt, U32);
      Pack(h.srv, U32);
      Pack(h.rep, I32);
      assert Contents() == old(Contents())[..SIZE_FIELD] + ReqHeaderBytes(h);
      RestoreInd(saved);
    }

    /** The write position goes back behind the payload. */
    method RestoreInd(saved: nat)
      requires Valid() && ind <= saved <= capa
      modifies this`ind
      ensures Valid() && ind == saved
      ensures Contents() == old(Contents()) + buf[old(ind)..saved]
    {
      ind := saved;
    }

    method PackReplyHeader(h: ReplyHeader)
      requires Valid() && RPC_HEADER_SZ <= ind && ReplyHeaderFits(h)
      modifies this, buf
      ensures Valid() && buf == old(buf) && ind == old(ind)
      ensures Contents() == old(Contents())[..4] + ReplyHeaderBytes(h) + old(Contents())[12..]
    {
      var saved := ind;
      ind := SIZE_FIELD;
      Pack(h.xid, I32);
      Pack(h.ret, I32);
      assert Contents() == old(Contents())[..SIZE_FIELD] + ReplyHeaderBytes(h);
      RestoreInd(saved);
    }

    /** The integer overloads of `operator<<`. */
    method PutInt(n: int, k: Kind)
      requires Valid() && IntFits(n, k)
      modifies this, buf
      ensures Valid() && (buf == old(buf) || fresh(buf))
      ensures Contents() == old(Contents()) + BigEndian(ToUnsigned(n, k), Width(k))
    {
      var u := ToUnsigned(n, k);
      if Width(k) == 1 {
        RawByte(u % 256);
      } else if Width(k) == 2 {
        assert BigEndian(u, 2) == BigEndian(u / 256, 1) + [u % 256];
        RawByte(u / 256 % 256);
        RawByte(u % 256);
      } else if Width(k) == 4 {
        Pack(n, k);
      } else {
        Pow256Of8();
        PutHalves(u / COUNT_LIMIT, u % COUNT_LIMIT);
      }
    }

    /** `operator<<` for unsigned long long: the high word, then the low one. */
    method PutHalves(hi: nat, lo: nat)
      requires Valid() && hi < COUNT_LIMIT && lo < COUNT_LIMIT
      modifies this, buf
      ensures Valid() && (buf == old(buf) || fresh(buf))
      ensures Contents() == old(Contents()) + BigEndian(hi * COUNT_LIMIT + lo, 8)
    {
      Pow256Of8();
      BigEndian8(hi, lo);
      Pack(hi, U32);
      Pack(lo, U32);
    }

    /** `operator<<` for any value: the encoding is appended. */
    method Put(v: Value, t: Type)
      requires Valid() && WellTyped(v, t)
      modifies this, buf
      ensures Valid() && (buf == old(buf) || fresh(buf))
      ensures Contents() == old(Contents()) + Encode(v, t)
      decreases Size(t), 0
    {
      if t.Num? {
        PutInt(v.n, t.kind);
      } else if t.Str? {
        PutString(v.s);
      } else if t.Vec? {
        PutVector(v.vs, t.elem);
      } else {
        PutMap(v.entries, t.key, t.val);
      }
    }

    method PutString(s: seq<byte>)
      requires Valid() && |s| < COUNT_LIMIT
      modifies this, buf
      ensures Valid() && (buf == old(buf) || fresh(buf))
      ensures Contents() == old(Contents()) + (BigEndian(|s|, 4) + s)
    {
      PutCount(|s|);
      RawBytes(s);
    }

    method PutVector(vs: seq<Value>, elem: Type)
      requires Valid() && |vs| < COUNT_LIMIT && AllTyped(vs, elem)
      modifies this, buf
      ensures Valid() && (buf == old(buf) || fresh(buf))
      ensures Contents() == old(Contents()) + (BigEndian(|vs|, 4) + EncodeAll(vs, elem))
      decreases Size(elem), |vs| + 2
    {
      PutCount(|vs|);
      PutAll(vs, elem);
    }

    method PutMap(es: seq<(Value, Value)>, key: Type, val: Type)
      requires Valid() && |es| < COUNT_LIMIT && EntriesTyped(es, key, val)
      modifies this, buf
      ensures Valid() && (buf == old(buf) || fresh(buf))
      ensures Contents() == old(Contents()) + (BigEndian(|es|, 4) + EncodeEntries(es, key, val))
      decreases Size(key) + Size(val), |es| + 2
    {
      PutCount(|es|);
      PutEntries(es, key, val);
    }

    method PutCount(n: nat)
      requires Valid() && n < COUNT_LIMIT
      modifies this, buf
      ensures Valid() && (buf == old(buf) || fresh(buf))
      ensures Contents() == old(Contents()) + BigEndian(n, 4)
    {
      SmallCountsFit(n);
      PutInt(n, U32);
    }

    method PutAll(vs: seq<Value>, t: Type)
      requires Valid() && AllTyped(vs, t)
      modifies this, buf
      ensures Valid() && (buf == old(buf) || fresh(buf))
      ensures Contents() == old(Contents()) + EncodeAll(vs, t)
      decreases Size(t), |vs| + 1
    {
      var i := 0;
      ghost var all := EncodeAll(vs, t);
      ghost var left, rest := vs, all;
      while i < |vs|
        invariant i <= |vs| && Valid() && (buf == old(buf) || fresh(buf))
        invariant left == vs[i..] && AllTyped(left, t)
        invariant rest == EncodeAll(left, t)
        invariant Contents() + rest == old(Contents()) + all
      {
        ghost var sofar, item := Contents(), Encode(vs[i], t);
        Put(vs[i], t);
        left := left[1..];
        assert rest == item + EncodeAll(left, t);
        rest := EncodeAll(left, t);
        Associative(sofar, item, rest);
        i := i + 1;
      }
    }

    /** A caller's arguments, one after the other (rpc/rpc.h:143-229). */
    method PutArgs(vs: seq<Value>, ts: seq<Type>)
      requires Valid() && ArgsTyped(vs, ts)
      modifies this, buf
      ensures Valid() && (buf == old(buf) || fresh(buf))
      ensures Contents() == old(Contents()) + EncodeArgs(vs, ts)
    {
      var i := 0;
      while i < |vs|
        invariant i <= |vs| && Valid() && (buf == old(buf) || fresh(buf))
        invariant Contents() + EncodeArgs(vs[i..], ts[i..]) == old(Contents()) + EncodeArgs(vs, ts)
      {
        assert vs[i..][1..] == vs[i + 1..] && ts[i..][1..] == ts[i + 1..];
        Put(vs[i], ts[i]);
        i := i + 1;
      }
    }

    method PutEntry(k: Value, v: Value, key: Type, val: Type)
      requires Valid() && WellTyped(k, key) && WellTyped(v, val)
      modifies this, buf
      ensures Valid() && (buf == old(buf) || fresh(buf))
      ensures Contents() == old(Contents()) + (Encode(k, key) + Encode(v, val))
      decreases Size(key) + Size(val), 0
    {
      Put(k, key);
      Put(v, val);
    }

    method PutEntries(es: seq<(Value, Value)>, key: Type, val: Type)
      requires Valid() && EntriesTyped(es, key, val)
      modifies this, buf
      ensures Valid() && (buf == old(buf) || fresh(buf))
      ensures Contents() == old(Contents()) + EncodeEntries(es, key, val)
      decreases Size(key) + Size(val), |es| + 1
    {
      var i := 0;
      ghost var all := EncodeEntries(es, key, val);
      ghost var left, rest := es, all;
      while i < |es|
        invariant i <= |es| && Valid() && (buf == old(buf) || fresh(buf))
        invariant left == es[i..] && EntriesTyped(left, key, val)
        invariant rest == EncodeEntries(left, key, val)
        invariant Contents() + rest == old(Contents()) + all
      {
        ghost var sofar, entry := Contents(), Encode(es[i].0, key) + Encode(es[i].1, val);
        PutEntry(es[i].0, es[i].1, key, val);
        left := left[1..];
        assert rest == entry + EncodeEntries(left, key, val);
        rest := EncodeEntries(left, key, val);
        Associative(sofar, entry, rest);
        i := i + 1;
      }
    }
  }

  // ---------------------------------------------------------------- reading

  class Unmarshall {
    var buf: seq<byte>
    var sz: nat
    var ind: nat
    var ok: bool

    ghost predicate Valid() reads this { sz == |buf| }

    ghost function View(): (c: Cursor) reads this { Cursor(buf, ind, ok) }

    constructor (b: seq<byte>)
      ensures Valid() && View() == Cursor(b, 0, true)
    {
      buf, sz, ind, ok := b, |b|, 0, true;
    }

    method RawByteOut() returns (x: byte)
      requires Valid()
      modifies this
      ensures Valid() && (x, View()) == RawByte(old(View()))
    {
      x := 0;
      if ind >= sz {
        ok := false;
      } else {
        x := buf[ind];
        ind := ind + 1;
      }
    }

    method RawBytesOut(n: nat) returns (s: seq<byte>)
      requires Valid()
      modifies this
      ensures Valid() && (s, View()) == RawBytes(old(View()), n)
    {
      s := [];
      if ind + n > sz {
        ok := false;
      } else {
        s := buf[ind..ind + n];
        ind := ind + n;
      }
    }

    /** `w` bytes, most significant first. */
    method GetBE(w: nat) returns (n: nat)
      requires Valid()
      modifies this
      ensures Valid() && (n, View()) == ReadBE(old(View()), w)
    {
      n := 0;
      var i := 0;
      while i < w
        invariant i <= w && Valid()
        invariant (n, View()) == ReadBE(old(View()), i)
      {
        var b := RawByteOut();
        n := 256 * n + b;
        i := i + 1;
      }
    }

    method Unpack(k: Kind) returns (n: int)
      requires Valid() && Width(k) == 4
      modifies this
      ensures Valid() && (n, View()) == ReadInt(old(View()), k)
    {
      var u := GetBE(4);
      n := FromUnsigned(u, k);
    }

    method UnpackReqHeader() returns (h: ReqHeader)
      requires Valid()
      modifies this
      ensures Valid() && (h, View()) == ReadReqHeader(old(View()))
    {
      ind := SIZE_FIELD;
      var xid := Unpack(I32);
      var proc := Unpack(I32);
      var clt := Unpack(U32);
      var srv := Unpack(U32);
      var rep := Unpack(I32);
      ind := RPC_HEADER_SZ;
      h := ReqHeader(xid, proc, clt, srv, rep);
    }

    method UnpackReplyHeader() returns (h: ReplyHeader)
      requires Valid()
      modifies this
      ensures Valid() && (h, View()) == ReadReplyHeader(old(View()))
    {
      ind := SIZE_FIELD;
      var xid := Unpack(I32);
      var ret := Unpack(I32);
      ind := RPC_HEADER_SZ;
      h := ReplyHeader(xid, ret);
    }

    /** `take_in`: adopt another object's buffer, positioned at its payload. */
    method TakeIn(other: Unmarshall)
      requires Valid() && other.Valid() && other != this
      modifies this, other
      ensures Valid() && other.Valid()
      ensures View() == Cursor(old(other.buf), RPC_HEADER_SZ, |old(other.buf)| >= RPC_HEADER_SZ)
      ensures other.buf == [] && other.ind == 0
    {
      buf, sz := other.buf, other.sz;
      other.buf, other.sz, other.ind := [], 0, 0;
      ind := RPC_HEADER_SZ;
      ok := sz >= RPC_HEADER_SZ;
    }

    method IsOkDone() returns (r: bool)
      requires Valid()
      ensures r == OkDone(View())
    {
      r := ok && ind == sz;
    }

    /** `operator>>` for any type. */
    method Get(t: Type) returns (v: Value)
      requires Valid()
      modifies this
      ensures Valid() && (v, View()) == Decode(t, old(View()))
      decreases Size(t), 0
    {
      match t
      case Num(k) =>
        var u := GetBE(Width(k));
        v := Int(FromUnsigned(u, k));
      case Str =>
        var n := GetBE(4);
        var s := [];
        if ok { s := RawBytesOut(n); }
        v := Bytes(s);
      case Vec(elem) =>
        var n := GetBE(4);
        var vs := GetAll(n, elem);
        v := List(vs);
      case Dict(key, val) =>
        var n := GetBE(4);
        var es := GetEntries(n, key, val);
        v := Assoc(es);
    }

    method GetAll(n: nat, t: Type) returns (vs: seq<Value>)
      requires Valid()
      modifies this
      ensures Valid() && (vs, View()) == DecodeAll(t, n, old(View()))
      decreases Size(t), n + 1
    {
      vs := [];
      ghost var all := DecodeAll(t, n, View());
      ghost var rest := all;
      var i := 0;
      while i < n
        invariant i <= n && Valid()
        invariant rest == DecodeAll(t, n - i, View())
        invariant vs + rest.0 == all.0 && rest.1 == all.1
      {
        var z := Get(t);
        rest := DecodeAll(t, n - i - 1, View());
        vs := vs + [z];
        i := i + 1;
      }
      assert vs + [] == vs;
    }

    /** A handler's arguments, one after the other (rpc/rpc.h:390-401). */
    method GetArgs(ts: seq<Type>) returns (vs: seq<Value>)
      requires Valid()
      modifies this
      ensures Valid() && (vs, View()) == DecodeArgs(ts, old(View()))
    {
      vs := [];
      var i := 0;
      while i < |ts|
        invariant i <= |ts| && Valid()
        invariant var rest := DecodeArgs(ts[i..], View());
          var all := DecodeArgs(ts, old(View()));
          vs + rest.0 == all.0 && rest.1 == all.1
      {
        assert ts[i..][1..] == ts[i + 1..];
        var z := Get(ts[i]);
        vs := vs + [z];
        i := i + 1;
      }
      assert vs + [] == vs;
    }

    /** `d.clear()`, then one assignment per pair. */
    method GetEntries(n: nat, key: Type, val: Type) returns (es: seq<(Value, Value)>)
      requires Valid()
      modifies this
      ensures Valid()
      ensures var r := DecodeEntries(key, val, n, old(View())); es == StoreAll([], r.0) && View() == r.1
      decreases Size(key) + Size(val), n + 1
    {
      es := [];
      var i := 0;
      while i < n
        invariant i <= n && Valid()
        invariant var rest := DecodeEntries(key, val, n - i, View());
          var all := DecodeEntries(key, val, n, old(View()));
          StoreAll(es, rest.0) == StoreAll([], all.0) && rest.1 == all.1
      {
        var a := Get(key);
        var b := Get(val);
        es := Store(es, a, b);
        i := i + 1;
      }
    }
  }

  // ---------------------------------------------------------------- a request, end to end

  /** What the server reads from the bytes a client sends is the header and the arguments the
      client packed, with `okdone` true. */
  method CallRoundTrip(h: ReqHeader, vs: seq<Value>, ts: seq<Type>) returns (h': ReqHeader, vs': seq<Value>, done: bool)
    requires ReqHeaderFits(h) && ArgsTyped(vs, ts)
    ensures h' == h && vs' == vs && done
  {
    var m := new Marshall();
    m.PutArgs(vs, ts);
    m.PackReqHeader(h);
    var sent := m.buf[..m.ind];
    ghost var header := sent[..RPC_HEADER_SZ];
    assert sent == header + EncodeArgs(vs, ts);
    assert sent[SIZE_FIELD..RPC_HEADER_SZ] == ReqHeaderBytes(h);

    var u := new Unmarshall(sent);
    ReqHeaderRoundTrip(sent, h);
    h' := u.UnpackReqHeader();
    ArgumentsRoundTrip(vs, ts, header);
    vs' := u.GetArgs(ts);
    done := u.IsOkDone();
  }
}
