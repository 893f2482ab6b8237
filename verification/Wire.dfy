/**
 The wire format of RPC arguments and results: what the `operator<<` overloads append and what
 the `operator>>` overloads read back (rpc/rpc.cc:680-876, rpc/marshall.h:187-235).

 A value is encoded under a type.  Signed integers travel as their two's complement; strings and
 containers are preceded by a 32-bit count; everything is big-endian.
 */
module Wire {
  import opened Common

  /** char and short come signed and unsigned; so does int; unsigned long long does not. */
  datatype Kind = U8 | I8 | U16 | I16 | U32 | I32 | U64

  datatype Type =
    | Num(kind: Kind)
    | Str
    | Vec(elem: Type)
    | Dict(key: Type, val: Type)

  datatype Value =
    | Int(n: int)
    | Bytes(s: seq<byte>)
    | List(vs: seq<Value>)
    | Assoc(entries: seq<(Value, Value)>)

  const COUNT_LIMIT := 0x1_0000_0000

  // ---------------------------------------------------------------- integers

  function Width(k: Kind): (w: nat)
    ensures w == 1 || w == 2 || w == 4 || w == 8
  {
    match k
    case U8 => 1 case I8 => 1
    case U16 => 2 case I16 => 2
    case U32 => 4 case I32 => 4
    case U64 => 8
  }

  predicate Signed(k: Kind) { k.I8? || k.I16? || k.I32? }

  function Pow256(w: nat): (p: nat)
    ensures p > 0
  {
    if w == 0 then 1 else 256 * Pow256(w - 1)
  }

  predicate IntFits(n: int, k: Kind) {
    var p: int := Pow256(Width(k));
    if Signed(k) then -p <= 2 * n < p else 0 <= n < p
  }

  /** Conversion to the unsigned type of the same width. */
  function ToUnsigned(n: int, k: Kind): (u: nat)
    requires IntFits(n, k)
    ensures u < Pow256(Width(k))
  {
    if n < 0 then n + Pow256(Width(k)) else n
  }

  /** Conversion from the unsigned type of the same width. */
  function FromUnsigned(u: nat, k: Kind): (n: int)
    requires u < Pow256(Width(k))
    ensures IntFits(n, k)
    ensures ToUnsigned(n, k) == u
  {
    if Signed(k) && 2 * u >= Pow256(Width(k)) then u - Pow256(Width(k)) else u
  }

  /** The `w` low-order bytes of `n`, most significant first. */
  function BigEndian(n: nat, w: nat): (bs: seq<byte>)
    ensures |bs| == w
  {
    if w == 0 then [] else BigEndian(n / 256, w - 1) + [n % 256]
  }

  // ---------------------------------------------------------------- keys of a std::map

  predicate BytesLess(a: seq<byte>, b: seq<byte>) {
    b != [] && (a == [] || a[0] < b[0] || (a[0] == b[0] && BytesLess(a[1..], b[1..])))
  }

  predicate KeyLess(a: Value, b: Value) {
    match (a, b)
    case (Int(m), Int(n)) => m < n
    case (Bytes(s), Bytes(t)) => BytesLess(s, t)
    case _ => false
  }

  predicate Ascending(es: seq<(Value, Value)>) {
    forall i, j :: 0 <= i < j < |es| ==> KeyLess(es[i].0, es[j].0)
  }

  /** The assignment `d[k] = v` on a map kept in key order. */
  function Store(es: seq<(Value, Value)>, k: Value, v: Value): (r: seq<(Value, Value)>) {
    if es == [] then [(k, v)]
    else if es[0].0 == k then [(k, v)] + es[1..]
    else if KeyLess(k, es[0].0) then [(k, v)] + es
    else [es[0]] + Store(es[1..], k, v)
  }

  function StoreAll(es: seq<(Value, Value)>, more: seq<(Value, Value)>): (r: seq<(Value, Value)>)
    decreases |more|
  {
    if more == [] then es else StoreAll(Store(es, more[0].0, more[0].1), more[1..])
  }

  // ---------------------------------------------------------------- encoding

  function Size(t: Type): (n: nat)
    ensures n > 0
  {
    match t
    case Vec(elem) => 1 + Size(elem)
    case Dict(key, val) => 1 + Size(key) + Size(val)
    case _ => 1
  }

  ghost predicate WellTyped(v: Value, t: Type)
    decreases Size(t), 0
  {
    match t
    case Num(k) => v.Int? && IntFits(v.n, k)
    case Str => v.Bytes? && |v.s| < COUNT_LIMIT
    case Vec(elem) => v.List? && |v.vs| < COUNT_LIMIT && AllTyped(v.vs, elem)
    case Dict(key, val) =>
      v.Assoc? && |v.entries| < COUNT_LIMIT && Ascending(v.entries) && EntriesTyped(v.entries, key, val)
  }

  ghost predicate AllTyped(vs: seq<Value>, t: Type)
    decreases Size(t), |vs| + 1
  {
    vs != [] ==> WellTyped(vs[0], t) && AllTyped(vs[1..], t)
  }

  ghost predicate EntriesTyped(es: seq<(Value, Value)>, key: Type, val: Type)
    decreases Size(key) + Size(val), |es| + 1
  {
    es != [] ==> WellTyped(es[0].0, key) && WellTyped(es[0].1, val) && EntriesTyped(es[1..], key, val)
  }

  ghost function Encode(v: Value, t: Type): (bs: seq<byte>)
    requires WellTyped(v, t)
    decreases Size(t), 0
  {
    match t
    case Num(k) => BigEndian(ToUnsigned(v.n, k), Width(k))
    case Str => BigEndian(|v.s|, 4) + v.s
    case Vec(elem) => BigEndian(|v.vs|, 4) + EncodeAll(v.vs, elem)
    case Dict(key, val) => BigEndian(|v.entries|, 4) + EncodeEntries(v.entries, key, val)
  }

  ghost function EncodeAll(vs: seq<Value>, t: Type): (bs: seq<byte>)
    requires AllTyped(vs, t)
    decreases Size(t), |vs| + 1
  {
    if vs == [] then [] else Encode(vs[0], t) + EncodeAll(vs[1..], t)
  }

  ghost function EncodeEntries(es: seq<(Value, Value)>, key: Type, val: Type): (bs: seq<byte>)
    requires EntriesTyped(es, key, val)
    decreases Size(key) + Size(val), |es| + 1
  {
    if es == [] then []
    else Encode(es[0].0, key) + Encode(es[0].1, val) + EncodeEntries(es[1..], key, val)
  }

  // ---------------------------------------------------------------- decoding

  /** The state of an `unmarshall` object: buffer, read position, and whether every read so far
      stayed inside the buffer. */
  datatype Cursor = Cursor(buf: seq<byte>, ind: nat, ok: bool)

  /** A read past the end yields 0, does not move, and clears `ok` for good. */
  function RawByte(c: Cursor): (r: (byte, Cursor)) {
    if c.ind >= |c.buf| then (0, c.(ok := false)) else (c.buf[c.ind], c.(ind := c.ind + 1))
  }

  function RawBytes(c: Cursor, n: nat): (r: (seq<byte>, Cursor)) {
    if c.ind + n > |c.buf| then ([], c.(ok := false))
    else (c.buf[c.ind..c.ind + n], c.(ind := c.ind + n))
  }

  function ReadBE(c: Cursor, w: nat): (r: (nat, Cursor))
    ensures r.0 < Pow256(w)
  {
    if w == 0 then (0, c)
    else
      var hi := ReadBE(c, w - 1);
      var lo := RawByte(hi.1);
      (256 * hi.0 + lo.0, lo.1)
  }

  function Decode(t: Type, c: Cursor): (r: (Value, Cursor))
    decreases Size(t), 0
  {
    match t
    case Str =>
      var n := ReadBE(c, 4);
      if n.1.ok then
        var s := RawBytes(n.1, n.0);
        (Bytes(s.0), s.1)
      else (Bytes([]), n.1)
    case Vec(elem) =>
      var n := ReadBE(c, 4);
      var vs := DecodeAll(elem, n.0, n.1);
      (List(vs.0), vs.1)
    case Dict(key, val) =>
      var n := ReadBE(c, 4);
      var es := DecodeEntries(key, val, n.0, n.1);
      (Assoc(StoreAll([], es.0)), es.1)
    case Num(k) =>
      var n := ReadBE(c, Width(k));
      (Int(FromUnsigned(n.0, k)), n.1)
  }

  /** `n` elements, read one after the other whatever `ok` says. */
  function DecodeAll(t: Type, n: nat, c: Cursor): (r: (seq<Value>, Cursor))
    decreases Size(t), n + 1
  {
    if n == 0 then ([], c)
    else
      var v := Decode(t, c);
      var rest := DecodeAll(t, n - 1, v.1);
      ([v.0] + rest.0, rest.1)
  }

  /** The `n` pairs on the wire; the map is what storing them in turn makes of them. */
  function DecodeEntries(key: Type, val: Type, n: nat, c: Cursor): (r: (seq<(Value, Value)>, Cursor))
    decreases Size(key) + Size(val), n + 1
  {
    if n == 0 then ([], c)
    else
      var k := Decode(key, c);
      var v := Decode(val, k.1);
      var rest := DecodeEntries(key, val, n - 1, v.1);
      ([(k.0, v.0)] + rest.0, rest.1)
  }

  // ---------------------------------------------------------------- positions in the buffer

  /** The unread part of the buffer starts with `bs`. */
  ghost predicate At(c: Cursor, bs: seq<byte>) {
    c.ok && c.ind + |bs| <= |c.buf| && c.buf[c.ind..c.ind + |bs|] == bs
  }

  ghost function Skip(c: Cursor, n: nat): Cursor { c.(ind := c.ind + n) }

  lemma AtSplit(c: Cursor, a: seq<byte>, b: seq<byte>)
    ensures At(c, a + b) <==> At(c, a) && At(Skip(c, |a|), b)
  {
    if At(c, a + b) {
      var s := c.buf[c.ind..c.ind + |a + b|];
      assert c.buf[c.ind..c.ind + |a|] == s[..|a|];
      assert c.buf[c.ind + |a|..c.ind + |a| + |b|] == s[|a|..];
    }
    if At(c, a) && At(Skip(c, |a|), b) {
      assert c.buf[c.ind..c.ind + |a + b|] == a + b;
    }
  }

  // ---------------------------------------------------------------- integers, both ways

  lemma {:induction false} ReadWhatWasWritten(c: Cursor, n: nat, w: nat)
    requires n < Pow256(w) && At(c, BigEndian(n, w))
    ensures ReadBE(c, w) == (n, Skip(c, w))
  {
    if w == 0 {
    } else {
      AtSplit(c, BigEndian(n / 256, w - 1), [n % 256]);
      ReadWhatWasWritten(c, n / 256, w - 1);
    }
  }

  lemma {:induction false} WrittenIsWhatWasRead(c: Cursor, w: nat)
    requires ReadBE(c, w).1.ok
    requires c.ind <= |c.buf|
    ensures var (n, c') := ReadBE(c, w); c' == Skip(c, w) && At(c, BigEndian(n, w))
  {
    if w == 0 {
    } else {
      var hi := ReadBE(c, w - 1);
      var lo := RawByte(hi.1);
      WrittenIsWhatWasRead(c, w - 1);
      var n := 256 * hi.0 + lo.0;
      assert n / 256 == hi.0 && n % 256 == lo.0;
      AtSplit(c, BigEndian(hi.0, w - 1), [lo.0]);
    }
  }

  lemma SmallCountsFit(n: nat)
    requires n < COUNT_LIMIT
    ensures n < Pow256(4)
  {
    assert Pow256(4) == 256 * Pow256(3) == 65536 * Pow256(2) == 0x100_0000 * Pow256(1);
  }

  // ---------------------------------------------------------------- map keys

  lemma {:induction false} BytesLessIsStrict(a: seq<byte>, b: seq<byte>)
    requires BytesLess(a, b)
    ensures a != b && !BytesLess(b, a)
  {
    if a != [] && a[0] == b[0] {
      BytesLessIsStrict(a[1..], b[1..]);
    }
  }

  lemma KeyLessIsStrict(a: Value, b: Value)
    requires KeyLess(a, b)
    ensures a != b && !KeyLess(b, a)
  {
    if a.Bytes? { BytesLessIsStrict(a.s, b.s); }
  }

  /** Storing keys in ascending order appends. */
  lemma {:induction false} StoreAppends(es: seq<(Value, Value)>, k: Value, v: Value)
    requires forall i :: 0 <= i < |es| ==> KeyLess(es[i].0, k)
    ensures Store(es, k, v) == es + [(k, v)]
  {
    if es == [] {
    } else {
      KeyLessIsStrict(es[0].0, k);
      StoreAppends(es[1..], k, v);
    }
  }

  lemma {:induction false} StoreAllAppends(es: seq<(Value, Value)>, more: seq<(Value, Value)>)
    requires Ascending(es + more)
    ensures StoreAll(es, more) == es + more
    decreases |more|
  {
    if more == [] {
      assert es + more == es;
    } else {
      forall i | 0 <= i < |es| ensures KeyLess(es[i].0, more[0].0) {
        assert (es + more)[i] == es[i] && (es + more)[|es|] == more[0];
      }
      StoreAppends(es, more[0].0, more[0].1);
      assert es + [more[0]] + more[1..] == es + more;
      StoreAllAppends(es + [more[0]], more[1..]);
    }
  }

  // ---------------------------------------------------------------- decoding undoes encoding

  lemma IntRoundTrip(v: Value, k: Kind, c: Cursor)
    requires WellTyped(v, Num(k)) && At(c, Encode(v, Num(k)))
    ensures Decode(Num(k), c) == (v, Skip(c, |Encode(v, Num(k))|))
  {
    ReadWhatWasWritten(c, ToUnsigned(v.n, k), Width(k));
  }

  lemma CountRoundTrip(n: nat, rest: seq<byte>, c: Cursor)
    requires n < COUNT_LIMIT && At(c, BigEndian(n, 4) + rest)
    ensures ReadBE(c, 4) == (n, Skip(c, 4)) && At(Skip(c, 4), rest)
  {
    SmallCountsFit(n);
    AtSplit(c, BigEndian(n, 4), rest);
    ReadWhatWasWritten(c, n, 4);
  }

  lemma StringRoundTrip(v: Value, c: Cursor)
    requires WellTyped(v, Str) && At(c, Encode(v, Str))
    ensures Decode(Str, c) == (v, Skip(c, |Encode(v, Str)|))
  {
    CountRoundTrip(|v.s|, v.s, c);
  }

  lemma {:induction false} VectorRoundTrip(vs: seq<Value>, elem: Type, c: Cursor)
    requires |vs| < COUNT_LIMIT && AllTyped(vs, elem)
    requires At(c, BigEndian(|vs|, 4) + EncodeAll(vs, elem))
    ensures Decode(Vec(elem), c) == (List(vs), Skip(Skip(c, 4), |EncodeAll(vs, elem)|))
    decreases Size(elem), |vs| + 2
  {
    CountRoundTrip(|vs|, EncodeAll(vs, elem), c);
    DecodeAllUndoes(vs, elem, Skip(c, 4));
  }

  lemma MapComposes(es: seq<(Value, Value)>, key: Type, val: Type, c: Cursor, c1: Cursor, c2: Cursor)
    requires ReadBE(c, 4) == (|es|, c1)
    requires DecodeEntries(key, val, |es|, c1) == (es, c2)
    requires StoreAll([], es) == es
    ensures Decode(Dict(key, val), c) == (Assoc(es), c2)
  {
  }

  lemma {:induction false} MapRoundTrip(es: seq<(Value, Value)>, key: Type, val: Type, c: Cursor)
    requires |es| < COUNT_LIMIT && Ascending(es) && EntriesTyped(es, key, val)
    requires At(c, BigEndian(|es|, 4) + EncodeEntries(es, key, val))
    ensures Decode(Dict(key, val), c) == (Assoc(es), Skip(Skip(c, 4), |EncodeEntries(es, key, val)|))
    decreases Size(key) + Size(val), |es| + 2
  {
    var body := EncodeEntries(es, key, val);
    CountRoundTrip(|es|, body, c);
    assert [] + es == es;
    StoreAllAppends([], es);
    DecodeEntriesUndoes(es, key, val, Skip(c, 4));
    MapComposes(es, key, val, c, Skip(c, 4), Skip(Skip(c, 4), |body|));
  }

  lemma {:induction false} DecodeUndoesEncode(v: Value, t: Type, c: Cursor)
    requires WellTyped(v, t) && At(c, Encode(v, t))
    ensures Decode(t, c) == (v, Skip(c, |Encode(v, t)|))
    decreases Size(t), 0
  {
    if t.Str? {
      StringRoundTrip(v, c);
    } else if t.Vec? {
      VectorRoundTrip(v.vs, t.elem, c);
    } else if t.Dict? {
      MapRoundTrip(v.entries, t.key, t.val, c);
    } else {
      IntRoundTrip(v, t.kind, c);
    }
  }

  lemma {:induction false} DecodeAllUndoes(vs: seq<Value>, t: Type, c: Cursor)
    requires AllTyped(vs, t)
    requires At(c, EncodeAll(vs, t))
    ensures DecodeAll(t, |vs|, c) == (vs, Skip(c, |EncodeAll(vs, t)|))
    decreases Size(t), |vs| + 1
  {
    if vs == [] {
    } else {
      assert vs == [vs[0]] + vs[1..];
      AtSplit(c, Encode(vs[0], t), EncodeAll(vs[1..], t));
      DecodeUndoesEncode(vs[0], t, c);
      DecodeAllUndoes(vs[1..], t, Skip(c, |Encode(vs[0], t)|));
    }
  }

  lemma EntryPositions(es: seq<(Value, Value)>, key: Type, val: Type, c: Cursor)
    requires es != [] && EntriesTyped(es, key, val)
    requires At(c, EncodeEntries(es, key, val))
    ensures var bk, bv, rest := Encode(es[0].0, key), Encode(es[0].1, val), EncodeEntries(es[1..], key, val);
      && At(c, bk) && At(Skip(c, |bk|), bv) && At(Skip(Skip(c, |bk|), |bv|), rest)
      && Skip(Skip(Skip(c, |bk|), |bv|), |rest|) == Skip(c, |EncodeEntries(es, key, val)|)
      && es == [es[0]] + es[1..]
  {
    var bk, bv := Encode(es[0].0, key), Encode(es[0].1, val);
    AtSplit(c, bk + bv, EncodeEntries(es[1..], key, val));
    AtSplit(c, bk, bv);
  }

  lemma EntryComposes(e: (Value, Value), rest: seq<(Value, Value)>, key: Type, val: Type,
                      c: Cursor, c1: Cursor, c2: Cursor, c3: Cursor)
    requires Decode(key, c) == (e.0, c1) && Decode(val, c1) == (e.1, c2)
    requires DecodeEntries(key, val, |rest|, c2) == (rest, c3)
    ensures DecodeEntries(key, val, |rest| + 1, c) == ([e] + rest, c3)
  {
    assert e == (e.0, e.1);
  }

  lemma {:induction false} DecodeEntriesUndoes(es: seq<(Value, Value)>, key: Type, val: Type, c: Cursor)
    requires EntriesTyped(es, key, val)
    requires At(c, EncodeEntries(es, key, val))
    ensures DecodeEntries(key, val, |es|, c) == (es, Skip(c, |EncodeEntries(es, key, val)|))
    decreases Size(key) + Size(val), |es| + 1
  {
    if es == [] {
    } else {
      EntryPositions(es, key, val, c);
      var bk, bv, rest := Encode(es[0].0, key), Encode(es[0].1, val), EncodeEntries(es[1..], key, val);
      var c1 := Skip(c, |bk|);
      var c2 := Skip(c1, |bv|);
      DecodeUndoesEncode(es[0].0, key, c);
      DecodeUndoesEncode(es[0].1, val, c1);
      DecodeEntriesUndoes(es[1..], key, val, c2);
      EntryComposes(es[0], es[1..], key, val, c, c1, c2, Skip(c2, |rest|));
    }
  }

  // ---------------------------------------------------------------- encoding undoes decoding

  /** Every map that reading a `t` at `c` comes upon has its keys in ascending order on the wire. */
  predicate KeysAscend(t: Type, c: Cursor)
    decreases Size(t), 0
  {
    match t
    case Vec(elem) =>
      var n := ReadBE(c, 4);
      AllAscend(elem, n.0, n.1)
    case Dict(key, val) =>
      var n := ReadBE(c, 4);
      Ascending(DecodeEntries(key, val, n.0, n.1).0) && EntriesAscend(key, val, n.0, n.1)
    case _ => true
  }

  predicate AllAscend(t: Type, n: nat, c: Cursor)
    decreases Size(t), n + 1
  {
    n > 0 ==> KeysAscend(t, c) && AllAscend(t, n - 1, Decode(t, c).1)
  }

  predicate EntriesAscend(key: Type, val: Type, n: nat, c: Cursor)
    decreases Size(key) + Size(val), n + 1
  {
    n > 0 ==>
      var k := Decode(key, c);
      KeysAscend(key, c) && KeysAscend(val, k.1) && EntriesAscend(key, val, n - 1, Decode(val, k.1).1)
  }

  lemma {:induction false} EncodeUndoesDecode(t: Type, c: Cursor)
    requires KeysAscend(t, c) && c.ind <= |c.buf| && Decode(t, c).1.ok
    ensures var (v, c') := Decode(t, c);
      WellTyped(v, t) && At(c, Encode(v, t)) && c' == Skip(c, |Encode(v, t)|)
    decreases Size(t), 0
  {
    match t
    case Str =>
      WrittenIsWhatWasRead(c, 4);
      var n := ReadBE(c, 4);
      SmallCountsFit(0);
      AtSplit(c, BigEndian(n.0, 4), RawBytes(n.1, n.0).0);
    case Vec(elem) =>
      var n := ReadBE(c, 4);
      DecodeAllKeepsOk(elem, n.0, n.1);
      WrittenIsWhatWasRead(c, 4);
      EncodeAllUndoes(elem, n.0, n.1);
      var vs := DecodeAll(elem, n.0, n.1).0;
      SmallCountsFit(0);
      AtSplit(c, BigEndian(n.0, 4), EncodeAll(vs, elem));
    case Dict(key, val) =>
      EncodeMapUndoes(key, val, c);
    case Num(k) =>
      WrittenIsWhatWasRead(c, Width(k));
  }

  lemma {:induction false} EncodeMapUndoes(key: Type, val: Type, c: Cursor)
    requires KeysAscend(Dict(key, val), c) && c.ind <= |c.buf| && Decode(Dict(key, val), c).1.ok
    ensures var (v, c') := Decode(Dict(key, val), c);
      WellTyped(v, Dict(key, val)) && At(c, Encode(v, Dict(key, val))) && c' == Skip(c, |Encode(v, Dict(key, val))|)
    decreases Size(key) + Size(val), ReadBE(c, 4).0 + 2
  {
    var n := ReadBE(c, 4);
    DecodeEntriesKeepsOk(key, val, n.0, n.1);
    WrittenIsWhatWasRead(c, 4);
    EncodeEntriesUndoes(key, val, n.0, n.1);
    var es := DecodeEntries(key, val, n.0, n.1).0;
    assert [] + es == es;
    StoreAllAppends([], es);
    SmallCountsFit(0);
    AtSplit(c, BigEndian(n.0, 4), EncodeEntries(es, key, val));
  }

  lemma {:induction false} EncodeAllUndoes(t: Type, n: nat, c: Cursor)
    requires AllAscend(t, n, c) && c.ind <= |c.buf| && DecodeAll(t, n, c).1.ok
    ensures var (vs, c') := DecodeAll(t, n, c);
      && |vs| == n
      && AllTyped(vs, t)
      && At(c, EncodeAll(vs, t)) && c' == Skip(c, |EncodeAll(vs, t)|)
    decreases Size(t), n + 1
  {
    if n == 0 {
    } else {
      var v := Decode(t, c);
      DecodeAllKeepsOk(t, n - 1, v.1);
      EncodeUndoesDecode(t, c);
      EncodeAllUndoes(t, n - 1, v.1);
      var rest := DecodeAll(t, n - 1, v.1).0;
      AtSplit(c, Encode(v.0, t), EncodeAll(rest, t));
      assert ([v.0] + rest)[1..] == rest;
    }
  }

  lemma {:induction false} EncodeEntriesUndoes(key: Type, val: Type, n: nat, c: Cursor)
    requires EntriesAscend(key, val, n, c) && c.ind <= |c.buf| && DecodeEntries(key, val, n, c).1.ok
    ensures var (es, c') := DecodeEntries(key, val, n, c);
      && |es| == n
      && EntriesTyped(es, key, val)
      && At(c, EncodeEntries(es, key, val)) && c' == Skip(c, |EncodeEntries(es, key, val)|)
    decreases Size(key) + Size(val), n + 1
  {
    if n == 0 {
    } else {
      var k := Decode(key, c);
      var v := Decode(val, k.1);
      DecodeEntriesKeepsOk(key, val, n - 1, v.1);
      DecodeKeepsOk(val, k.1);
      EncodeUndoesDecode(key, c);
      EncodeUndoesDecode(val, k.1);
      EncodeEntriesUndoes(key, val, n - 1, v.1);
      var rest := DecodeEntries(key, val, n - 1, v.1).0;
      EntryRecomposes(k.0, v.0, rest, key, val, c);
    }
  }

  /** Key, value and further entries found one after the other are the entries with that pair in front. */
  lemma EntryRecomposes(k: Value, v: Value, rest: seq<(Value, Value)>, key: Type, val: Type, c: Cursor)
    requires WellTyped(k, key) && WellTyped(v, val) && EntriesTyped(rest, key, val)
    requires var bk, bv := Encode(k, key), Encode(v, val);
      At(c, bk) && At(Skip(c, |bk|), bv) && At(Skip(Skip(c, |bk|), |bv|), EncodeEntries(rest, key, val))
    ensures var es := [(k, v)] + rest;
      && EntriesTyped(es, key, val) && At(c, EncodeEntries(es, key, val))
      && |EncodeEntries(es, key, val)| == |Encode(k, key)| + |Encode(v, val)| + |EncodeEntries(rest, key, val)|
  {
    var bk, bv, es := Encode(k, key), Encode(v, val), [(k, v)] + rest;
    assert es[1..] == rest;
    AtSplit(c, bk, bv);
    AtSplit(c, bk + bv, EncodeEntries(rest, key, val));
  }

  // ---------------------------------------------------------------- ascending keys

  /** What was written has ascending keys. */
  lemma {:induction false} EncodingAscends(v: Value, t: Type, c: Cursor)
    requires WellTyped(v, t) && At(c, Encode(v, t))
    ensures KeysAscend(t, c)
    decreases Size(t), 0
  {
    match t
    case Vec(elem) =>
      CountRoundTrip(|v.vs|, EncodeAll(v.vs, elem), c);
      AllEncodingsAscend(v.vs, elem, Skip(c, 4));
    case Dict(key, val) =>
      CountRoundTrip(|v.entries|, EncodeEntries(v.entries, key, val), c);
      DecodeEntriesUndoes(v.entries, key, val, Skip(c, 4));
      EntryEncodingsAscend(v.entries, key, val, Skip(c, 4));
    case _ =>
  }

  lemma {:induction false} AllEncodingsAscend(vs: seq<Value>, t: Type, c: Cursor)
    requires AllTyped(vs, t) && At(c, EncodeAll(vs, t))
    ensures AllAscend(t, |vs|, c)
    decreases Size(t), |vs| + 1
  {
    if vs == [] {
    } else {
      AtSplit(c, Encode(vs[0], t), EncodeAll(vs[1..], t));
      DecodeUndoesEncode(vs[0], t, c);
      EncodingAscends(vs[0], t, c);
      AllEncodingsAscend(vs[1..], t, Skip(c, |Encode(vs[0], t)|));
    }
  }

  lemma {:induction false} EntryEncodingsAscend(es: seq<(Value, Value)>, key: Type, val: Type, c: Cursor)
    requires EntriesTyped(es, key, val) && At(c, EncodeEntries(es, key, val))
    ensures EntriesAscend(key, val, |es|, c)
    decreases Size(key) + Size(val), |es| + 1
  {
    if es == [] {
    } else {
      EntryPositions(es, key, val, c);
      var c1 := Skip(c, |Encode(es[0].0, key)|);
      DecodeUndoesEncode(es[0].0, key, c);
      DecodeUndoesEncode(es[0].1, val, c1);
      EncodingAscends(es[0].0, key, c);
      EncodingAscends(es[0].1, val, c1);
      EntryEncodingsAscend(es[1..], key, val, Skip(c1, |Encode(es[0].1, val)|));
    }
  }

  predicate MapFree(t: Type) {
    match t
    case Vec(elem) => MapFree(elem)
    case Dict(_, _) => false
    case _ => true
  }

  lemma {:induction false} MapFreeAscends(t: Type, c: Cursor)
    requires MapFree(t)
    ensures KeysAscend(t, c)
    decreases Size(t), 0
  {
    if t.Vec? { AllMapFreeAscend(t.elem, ReadBE(c, 4).0, ReadBE(c, 4).1); }
  }

  lemma {:induction false} AllMapFreeAscend(t: Type, n: nat, c: Cursor)
    requires MapFree(t)
    ensures AllAscend(t, n, c)
    decreases Size(t), n + 1
  {
    if n == 0 {
    } else {
      MapFreeAscends(t, c);
      AllMapFreeAscend(t, n - 1, Decode(t, c).1);
    }
  }

  /** `ok` never comes back once lost. */
  lemma {:induction false} ReadKeepsOk(c: Cursor, w: nat)
    ensures ReadBE(c, w).1.ok ==> c.ok
  {
    if w == 0 {
    } else {
      ReadKeepsOk(c, w - 1);
    }
  }

  lemma {:induction false} DecodeKeepsOk(t: Type, c: Cursor)
    ensures Decode(t, c).1.ok ==> c.ok
    decreases Size(t), 0
  {
    match t
    case Str => ReadKeepsOk(c, 4);
    case Vec(elem) =>
      ReadKeepsOk(c, 4);
      DecodeAllKeepsOk(elem, ReadBE(c, 4).0, ReadBE(c, 4).1);
    case Dict(key, val) =>
      ReadKeepsOk(c, 4);
      DecodeEntriesKeepsOk(key, val, ReadBE(c, 4).0, ReadBE(c, 4).1);
    case Num(k) => ReadKeepsOk(c, Width(k));
  }

  lemma {:induction false} DecodeAllKeepsOk(t: Type, n: nat, c: Cursor)
    ensures DecodeAll(t, n, c).1.ok ==> c.ok
    decreases Size(t), n + 1
  {
    if n == 0 {
    } else {
      DecodeKeepsOk(t, c);
      DecodeAllKeepsOk(t, n - 1, Decode(t, c).1);
    }
  }

  lemma {:induction false} DecodeEntriesKeepsOk(key: Type, val: Type, n: nat, c: Cursor)
    ensures DecodeEntries(key, val, n, c).1.ok ==> c.ok
    decreases Size(key) + Size(val), n + 1
  {
    if n == 0 {
    } else {
      var k := Decode(key, c);
      var v := Decode(val, k.1);
      DecodeKeepsOk(key, c);
      DecodeKeepsOk(val, k.1);
      DecodeEntriesKeepsOk(key, val, n - 1, v.1);
    }
  }

  // ---------------------------------------------------------------- argument lists

  ghost predicate ArgsTyped(vs: seq<Value>, ts: seq<Type>) {
    |vs| == |ts| && forall i :: 0 <= i < |vs| ==> WellTyped(vs[i], ts[i])
  }

  /** What a caller marshals: one argument after the other (rpc/rpc.h:143-229). */
  ghost function EncodeArgs(vs: seq<Value>, ts: seq<Type>): (bs: seq<byte>)
    requires ArgsTyped(vs, ts)
  {
    if vs == [] then [] else Encode(vs[0], ts[0]) + EncodeArgs(vs[1..], ts[1..])
  }

  function DecodeArgs(ts: seq<Type>, c: Cursor): (r: (seq<Value>, Cursor)) {
    if ts == [] then ([], c)
    else
      var v := Decode(ts[0], c);
      var rest := DecodeArgs(ts[1..], v.1);
      ([v.0] + rest.0, rest.1)
  }

  /** `okdone()`: nothing missing, nothing left over. */
  predicate OkDone(c: Cursor) { c.ok && c.ind == |c.buf| }

  /** A registered handler goes ahead only if its arguments decode and exhaust the buffer
      (rpc/rpc.h:365-374). */
  predicate Accepts(ts: seq<Type>, c: Cursor) { OkDone(DecodeArgs(ts, c).1) }

  lemma {:induction false} DecodeArgsUndoes(vs: seq<Value>, ts: seq<Type>, c: Cursor)
    requires ArgsTyped(vs, ts) && At(c, EncodeArgs(vs, ts))
    ensures DecodeArgs(ts, c) == (vs, Skip(c, |EncodeArgs(vs, ts)|))
  {
    if vs == [] {
    } else {
      assert vs == [vs[0]] + vs[1..];
      AtSplit(c, Encode(vs[0], ts[0]), EncodeArgs(vs[1..], ts[1..]));
      DecodeUndoesEncode(vs[0], ts[0], c);
      DecodeArgsUndoes(vs[1..], ts[1..], Skip(c, |Encode(vs[0], ts[0])|));
    }
  }

  lemma {:induction false} DecodeArgsKeepsOk(ts: seq<Type>, c: Cursor)
    ensures DecodeArgs(ts, c).1.ok ==> c.ok
  {
    if ts == [] {
    } else {
      DecodeKeepsOk(ts[0], c);
      DecodeArgsKeepsOk(ts[1..], Decode(ts[0], c).1);
    }
  }

  predicate ArgsAscend(ts: seq<Type>, c: Cursor) {
    ts != [] ==> KeysAscend(ts[0], c) && ArgsAscend(ts[1..], Decode(ts[0], c).1)
  }

  lemma {:induction false} EncodeArgsUndoes(ts: seq<Type>, c: Cursor)
    requires ArgsAscend(ts, c) && c.ind <= |c.buf| && DecodeArgs(ts, c).1.ok
    ensures var (vs, c') := DecodeArgs(ts, c);
      ArgsTyped(vs, ts) && At(c, EncodeArgs(vs, ts)) && c' == Skip(c, |EncodeArgs(vs, ts)|)
  {
    if ts == [] {
    } else {
      var v := Decode(ts[0], c);
      DecodeArgsKeepsOk(ts[1..], v.1);
      EncodeUndoesDecode(ts[0], c);
      EncodeArgsUndoes(ts[1..], v.1);
      var rest := DecodeArgs(ts[1..], v.1).0;
      AtSplit(c, Encode(v.0, ts[0]), EncodeArgs(rest, ts[1..]));
      assert ([v.0] + rest)[1..] == rest;
    }
  }

  lemma {:induction false} ArgEncodingsAscend(vs: seq<Value>, ts: seq<Type>, c: Cursor)
    requires ArgsTyped(vs, ts) && At(c, EncodeArgs(vs, ts))
    ensures ArgsAscend(ts, c)
  {
    if vs == [] {
    } else {
      AtSplit(c, Encode(vs[0], ts[0]), EncodeArgs(vs[1..], ts[1..]));
      DecodeUndoesEncode(vs[0], ts[0], c);
      EncodingAscends(vs[0], ts[0], c);
      ArgEncodingsAscend(vs[1..], ts[1..], Skip(c, |Encode(vs[0], ts[0])|));
    }
  }

  lemma {:induction false} MapFreeArgsAscend(ts: seq<Type>, c: Cursor)
    requires forall t :: t in ts ==> MapFree(t)
    ensures ArgsAscend(ts, c)
  {
    if ts == [] {
    } else {
      assert ts[0] in ts;
      MapFreeAscends(ts[0], c);
      MapFreeArgsAscend(ts[1..], Decode(ts[0], c).1);
    }
  }

  lemma {:induction false} ReadKeepsBuffer(c: Cursor, w: nat)
    ensures ReadBE(c, w).1.buf == c.buf
  {
    if w == 0 {
    } else {
      ReadKeepsBuffer(c, w - 1);
    }
  }

  lemma {:induction false} DecodeKeepsBuffer(t: Type, c: Cursor)
    ensures Decode(t, c).1.buf == c.buf
    decreases Size(t), 0
  {
    ReadKeepsBuffer(c, 4);
    var n := ReadBE(c, 4);
    match t
    case Vec(elem) => DecodeAllKeepsBuffer(elem, n.0, n.1);
    case Dict(key, val) => DecodeEntriesKeepsBuffer(key, val, n.0, n.1);
    case Num(k) => ReadKeepsBuffer(c, Width(k));
    case Str =>
  }

  lemma {:induction false} DecodeAllKeepsBuffer(t: Type, n: nat, c: Cursor)
    ensures DecodeAll(t, n, c).1.buf == c.buf
    decreases Size(t), n + 1
  {
    if n == 0 {
    } else {
      DecodeKeepsBuffer(t, c);
      DecodeAllKeepsBuffer(t, n - 1, Decode(t, c).1);
    }
  }

  lemma {:induction false} DecodeEntriesKeepsBuffer(key: Type, val: Type, n: nat, c: Cursor)
    ensures DecodeEntries(key, val, n, c).1.buf == c.buf
    decreases Size(key) + Size(val), n + 1
  {
    if n == 0 {
    } else {
      var k := Decode(key, c);
      DecodeKeepsBuffer(key, c);
      DecodeKeepsBuffer(val, k.1);
      DecodeEntriesKeepsBuffer(key, val, n - 1, Decode(val, k.1).1);
    }
  }

  lemma {:induction false} BufferStays(ts: seq<Type>, c: Cursor)
    ensures DecodeArgs(ts, c).1.buf == c.buf
  {
    if ts == [] {
    } else {
      DecodeKeepsBuffer(ts[0], c);
      BufferStays(ts[1..], Decode(ts[0], c).1);
    }
  }

  // ---------------------------------------------------------------- what follows is not looked at

  ghost function Extended(c: Cursor, more: seq<byte>): Cursor { c.(buf := c.buf + more) }

  lemma {:induction false} ReadExtends(c: Cursor, w: nat, more: seq<byte>)
    requires ReadBE(c, w).1.ok
    ensures ReadBE(Extended(c, more), w) == (ReadBE(c, w).0, Extended(ReadBE(c, w).1, more))
  {
    if w == 0 {
    } else {
      ReadExtends(c, w - 1, more);
    }
  }

  /** A successful read does not depend on what comes after it. */
  lemma {:induction false} DecodeExtends(t: Type, c: Cursor, more: seq<byte>)
    requires Decode(t, c).1.ok
    ensures Decode(t, Extended(c, more)) == (Decode(t, c).0, Extended(Decode(t, c).1, more))
    decreases Size(t), 0
  {
    match t
    case Str =>
      ReadExtends(c, 4, more);
      ReadKeepsBuffer(c, 4);
      var n := ReadBE(c, 4);
      assert n.1.ind + n.0 <= |c.buf| && n.1.buf == c.buf;
      assert (c.buf + more)[n.1.ind..n.1.ind + n.0] == c.buf[n.1.ind..n.1.ind + n.0];
    case Vec(elem) =>
      var n := ReadBE(c, 4);
      DecodeAllKeepsOk(elem, n.0, n.1);
      ReadExtends(c, 4, more);
      DecodeAllExtends(elem, n.0, n.1, more);
    case Dict(key, val) =>
      var n := ReadBE(c, 4);
      DecodeEntriesKeepsOk(key, val, n.0, n.1);
      ReadExtends(c, 4, more);
      DecodeEntriesExtends(key, val, n.0, n.1, more);
    case Num(k) => ReadExtends(c, Width(k), more);
  }

  lemma {:induction false} DecodeAllExtends(t: Type, n: nat, c: Cursor, more: seq<byte>)
    requires DecodeAll(t, n, c).1.ok
    ensures DecodeAll(t, n, Extended(c, more)) == (DecodeAll(t, n, c).0, Extended(DecodeAll(t, n, c).1, more))
    decreases Size(t), n + 1
  {
    if n == 0 {
    } else {
      var v := Decode(t, c);
      DecodeAllKeepsOk(t, n - 1, v.1);
      DecodeExtends(t, c, more);
      DecodeAllExtends(t, n - 1, v.1, more);
    }
  }

  lemma {:induction false} DecodeEntriesExtends(key: Type, val: Type, n: nat, c: Cursor, more: seq<byte>)
    requires DecodeEntries(key, val, n, c).1.ok
    ensures var r := DecodeEntries(key, val, n, c);
      DecodeEntries(key, val, n, Extended(c, more)) == (r.0, Extended(r.1, more))
    decreases Size(key) + Size(val), n + 1
  {
    if n == 0 {
    } else {
      var k := Decode(key, c);
      var v := Decode(val, k.1);
      DecodeEntriesKeepsOk(key, val, n - 1, v.1);
      DecodeKeepsOk(val, k.1);
      DecodeExtends(key, c, more);
      DecodeExtends(val, k.1, more);
      DecodeEntriesExtends(key, val, n - 1, v.1, more);
    }
  }

  lemma {:induction false} DecodeArgsExtend(ts: seq<Type>, c: Cursor, more: seq<byte>)
    requires DecodeArgs(ts, c).1.ok
    ensures DecodeArgs(ts, Extended(c, more)) == (DecodeArgs(ts, c).0, Extended(DecodeArgs(ts, c).1, more))
  {
    if ts == [] {
    } else {
      var v := Decode(ts[0], c);
      DecodeArgsKeepsOk(ts[1..], v.1);
      DecodeExtends(ts[0], c, more);
      DecodeArgsExtend(ts[1..], v.1, more);
    }
  }

  // ---------------------------------------------------------------- main results

  /** Arguments of any types, maps included, come back as they were sent, with `okdone` true. */
  lemma ArgumentsRoundTrip(vs: seq<Value>, ts: seq<Type>, header: seq<byte>)
    requires ArgsTyped(vs, ts)
    ensures var c := Cursor(header + EncodeArgs(vs, ts), |header|, true);
      DecodeArgs(ts, c).0 == vs && Accepts(ts, c)
  {
    var c := Cursor(header + EncodeArgs(vs, ts), |header|, true);
    assert c.buf[|header|..] == EncodeArgs(vs, ts);
    DecodeArgsUndoes(vs, ts, c);
  }

  /** A payload is the encoding of some arguments exactly when it is accepted and every map in it has its
      keys in ascending order; and then they are the arguments it decodes to. */
  lemma AcceptedIsEncoding(ts: seq<Type>, header: seq<byte>, payload: seq<byte>)
    ensures var c := Cursor(header + payload, |header|, true);
      Accepts(ts, c) && ArgsAscend(ts, c) <==>
      exists vs :: ArgsTyped(vs, ts) && payload == EncodeArgs(vs, ts) && DecodeArgs(ts, c).0 == vs
  {
    var c := Cursor(header + payload, |header|, true);
    assert payload == c.buf[|header|..];
    if Accepts(ts, c) && ArgsAscend(ts, c) {
      EncodeArgsUndoes(ts, c);
      assert ArgsTyped(DecodeArgs(ts, c).0, ts);
    }
    forall vs | ArgsTyped(vs, ts) && payload == EncodeArgs(vs, ts) ensures Accepts(ts, c) && ArgsAscend(ts, c) {
      ArgumentsRoundTrip(vs, ts, header);
      ArgEncodingsAscend(vs, ts, c);
    }
  }

  /** Hence without maps whatever is accepted re-encodes to the same bytes. */
  lemma AcceptedIsEncodingWithoutMaps(ts: seq<Type>, header: seq<byte>, payload: seq<byte>)
    requires forall t :: t in ts ==> MapFree(t)
    ensures var c := Cursor(header + payload, |header|, true);
      Accepts(ts, c) <==>
      exists vs :: ArgsTyped(vs, ts) && payload == EncodeArgs(vs, ts) && DecodeArgs(ts, c).0 == vs
  {
    AcceptedIsEncoding(ts, header, payload);
    MapFreeArgsAscend(ts, Cursor(header + payload, |header|, true));
  }

  /** With maps that fails: entries in any order, with keys repeated or not, are accepted, but they are
      an encoding only in ascending order. */
  lemma {:induction false} EntriesInAnyOrderAreAccepted(
      es: seq<(Value, Value)>, key: Type, val: Type, header: seq<byte>)
    requires |es| < COUNT_LIMIT && EntriesTyped(es, key, val)
    ensures var payload := BigEndian(|es|, 4) + EncodeEntries(es, key, val);
      && Accepts([Dict(key, val)], Cursor(header + payload, |header|, true))
      && ((exists vs :: ArgsTyped(vs, [Dict(key, val)]) && payload == EncodeArgs(vs, [Dict(key, val)])) <==>
          Ascending(es))
  {
    var ts, body := [Dict(key, val)], EncodeEntries(es, key, val);
    var payload := BigEndian(|es|, 4) + body;
    var c := Cursor(header + payload, |header|, true);
    assert c.buf[|header|..] == payload;
    CountRoundTrip(|es|, body, c);
    DecodeEntriesUndoes(es, key, val, Skip(c, 4));
    assert DecodeArgs(ts[1..], Decode(ts[0], c).1).1 == Decode(ts[0], c).1;
    assert Accepts(ts, c);
    EntryEncodingsAscend(es, key, val, Skip(c, 4));
    assert ArgsAscend(ts, c) <==> Ascending(es) by { assert ArgsAscend(ts[1..], Decode(ts[0], c).1); }
    AcceptedIsEncoding(ts, header, payload);
    forall vs | ArgsTyped(vs, ts) && payload == EncodeArgs(vs, ts) ensures DecodeArgs(ts, c).0 == vs {
      ArgumentsRoundTrip(vs, ts, header);
    }
  }

  /** For example two one-byte entries with the keys 2 and 1 in that order. */
  lemma DescendingKeysAreAccepted(header: seq<byte>)
    ensures var ts, payload := [Dict(Num(U8), Num(U8))], [0, 0, 0, 2, 2, 7, 1, 7];
      && Accepts(ts, Cursor(header + payload, |header|, true))
      && !exists vs :: ArgsTyped(vs, ts) && payload == EncodeArgs(vs, ts)
  {
    var es := [(Int(2), Int(7)), (Int(1), Int(7))];
    TwoEntries(2, 1, 7);
    assert !KeyLess(es[0].0, es[1].0);
    EntriesInAnyOrderAreAccepted(es, Num(U8), Num(U8), header);
  }

  lemma OneByte(b: byte)
    ensures WellTyped(Int(b), Num(U8)) && Encode(Int(b), Num(U8)) == [b]
  {
    assert Pow256(1) == 256 * Pow256(0) == 256;
    assert BigEndian(b, 1) == BigEndian(b / 256, 0) + [b];
  }

  lemma OneMoreEntry(k: byte, v: byte, rest: seq<(Value, Value)>)
    requires EntriesTyped(rest, Num(U8), Num(U8))
    ensures var es := [(Int(k), Int(v))] + rest;
      && EntriesTyped(es, Num(U8), Num(U8))
      && EncodeEntries(es, Num(U8), Num(U8)) == [k, v] + EncodeEntries(rest, Num(U8), Num(U8))
  {
    OneByte(k);
    OneByte(v);
    assert ([(Int(k), Int(v))] + rest)[1..] == rest;
    assert [k] + [v] == [k, v];
  }

  lemma CountOfTwo()
    ensures BigEndian(2, 4) == [0, 0, 0, 2]
  {
    assert BigEndian(0, 1) == BigEndian(0, 0) + [0] == [0];
    assert BigEndian(0, 2) == BigEndian(0, 1) + [0] == [0, 0];
    assert BigEndian(0, 3) == BigEndian(0, 2) + [0] == [0, 0, 0];
  }

  lemma TwoEntries(j: byte, k: byte, v: byte)
    ensures var es := [(Int(j), Int(v)), (Int(k), Int(v))];
      && EntriesTyped(es, Num(U8), Num(U8))
      && BigEndian(2, 4) + EncodeEntries(es, Num(U8), Num(U8)) == [0, 0, 0, 2, j, v, k, v]
  {
    var last := [(Int(k), Int(v))];
    OneMoreEntry(k, v, []);
    assert last + [] == last;
    OneMoreEntry(j, v, last);
    assert [(Int(j), Int(v)), (Int(k), Int(v))] == [(Int(j), Int(v))] + last;
    CountOfTwo();
  }

  /** The code is self-delimiting: no proper extension, hence no proper prefix, of an accepted
      payload is accepted, whatever the types. */
  lemma AcceptedIsPrefixFree(ts: seq<Type>, header: seq<byte>, payload: seq<byte>, more: seq<byte>)
    requires Accepts(ts, Cursor(header + payload, |header|, true)) && more != []
    ensures !Accepts(ts, Cursor(header + (payload + more), |header|, true))
  {
    var c := Cursor(header + payload, |header|, true);
    DecodeArgsExtend(ts, c, more);
    assert header + (payload + more) == header + payload + more;
    BufferStays(ts, c);
  }
}
