/**
 The bytes that modules Wire and Marshalling put on the wire, stated without their encoding functions: two's
 complement integers in network order, counts in front of strings and containers, the layout of both headers,
 and what a map read from repeated keys holds (rpc/rpc.cc:680-760, rpc/marshall.h:78-103, 187-235).
 */
module WireFormat {
  import opened Common
  import opened Wire
  import opened Marshalling

  // ---------------------------------------------------------------- integers

  lemma DivideTwice(n: nat, p: nat)
    requires p > 0
    ensures n / 256 / p == n / (256 * p)
  {
    var m := n / 256;
    var q, r := m / p, m % p;
    assert m == p * q + r;
    Product(p, q);
    QuotientIs(256 * p, q, 256 * r + n % 256);
  }

  lemma Product(p: nat, q: nat)
    ensures 256 * p * q == 256 * (p * q)
  {
  }

  lemma QuotientIs(p: nat, q: nat, r: nat)
    requires r < p
    ensures (p * q + r) / p == q
  {
    var n := p * q + r;
    assert n == p * (n / p) + n % p;
    Apart(p, n / p, q);
    Apart(p, q, n / p);
  }

  /** Different multiples are at least `p` apart. */
  lemma {:induction false} Apart(p: nat, a: int, b: int)
    ensures a < b ==> p * a + p <= p * b
    decreases b - a
  {
    if a >= b - 1 {
      assert a == b - 1 ==> p * a + p == p * b;
    } else {
      Apart(p, a, b - 1);
      assert p * b == p * (b - 1) + p;
    }
  }

  /** Most significant byte first. */
  lemma {:induction false} ByteAt(n: nat, w: nat, j: nat)
    requires j < w
    ensures BigEndian(n, w)[j] == n / Pow256(w - 1 - j) % 256
    decreases w
  {
    if j == w - 1 {
      assert Pow256(0) == 1;
    } else {
      ByteAt(n / 256, w - 1, j);
      DivideTwice(n, Pow256(w - 2 - j));
      assert Pow256(w - 1 - j) == 256 * Pow256(w - 2 - j);
    }
  }

  /** Byte `j` of a non-negative integer of any kind. */
  lemma IntegerByte(n: nat, k: Kind, j: nat)
    requires IntFits(n, k) && j < Width(k)
    ensures |Encode(Int(n), Num(k))| == Width(k)
    ensures Encode(Int(n), Num(k))[j] == n / Pow256(Width(k) - 1 - j) % 256
  {
    ByteAt(n, Width(k), j);
  }

  lemma Powers()
    ensures Pow256(1) == 0x100 && Pow256(2) == 0x1_0000 && Pow256(4) == 0x1_0000_0000
    ensures Pow256(8) == 0x1_0000_0000_0000_0000
  {
    assert Pow256(0) == 1;
    assert Pow256(1) == 256 * Pow256(0);
    assert Pow256(2) == 256 * Pow256(1);
    assert Pow256(4) == 256 * Pow256(3) && Pow256(3) == 256 * Pow256(2);
    assert Pow256(6) == 256 * Pow256(5) && Pow256(5) == 256 * Pow256(4);
    assert Pow256(8) == 256 * Pow256(7) && Pow256(7) == 256 * Pow256(6);
  }

  /** The range of each C type: char, short and int, signed and unsigned, and unsigned long long. */
  lemma Ranges(n: int)
    ensures IntFits(n, U8) <==> 0 <= n < 0x100
    ensures IntFits(n, I8) <==> -0x80 <= n < 0x80
    ensures IntFits(n, U16) <==> 0 <= n < 0x1_0000
    ensures IntFits(n, I16) <==> -0x8000 <= n < 0x8000
    ensures IntFits(n, U32) <==> 0 <= n < 0x1_0000_0000
    ensures IntFits(n, I32) <==> -0x8000_0000 <= n < 0x8000_0000
    ensures IntFits(n, U64) <==> 0 <= n < 0x1_0000_0000_0000_0000
  {
    Powers();
  }

  /** A signed integer travels as the unsigned one that is equal to it modulo 256^w. */
  lemma SignedIsCast(n: int, k: Kind, m: nat, u: Kind)
    requires Signed(k) && !Signed(u) && Width(u) == Width(k) && IntFits(n, k)
    requires m < Pow256(Width(k)) && (m - n) % Pow256(Width(k)) == 0
    ensures IntFits(m, u) && Encode(Int(n), Num(k)) == Encode(Int(m), Num(u))
  {
    CastIs(n, k, m);
  }

  lemma CastIs(n: int, k: Kind, m: nat)
    requires IntFits(n, k) && m < Pow256(Width(k)) && (m - n) % Pow256(Width(k)) == 0
    ensures ToUnsigned(n, k) == m
  {
    var p := Pow256(Width(k));
    MultipleIs(p, (m - n) / p, m - n);
    SmallNumbers(n, k, p, m);
  }

  lemma SmallNumbers(n: int, k: Kind, p: int, m: int)
    requires p == Pow256(Width(k)) && IntFits(n, k) && 0 <= m < p && (m - n == 0 || m - n == p)
    ensures ToUnsigned(n, k) == m
  {
  }

  lemma MultipleIs(p: int, d: int, x: int)
    requires p > 0 && d == x / p && x % p == 0 && -p < x < 2 * p
    ensures x == 0 || x == p
  {
    assert x == p * d;
    Apart(p, 1, d);
    Apart(p, d, 0);
  }

  /** The four bytes of an unsigned 32-bit number. */
  lemma FourBytes(n: nat)
    requires n < 0x1_0000_0000
    ensures var b: seq<int> := BigEndian(n, 4); b[0] * 0x100_0000 + b[1] * 0x1_0000 + b[2] * 0x100 + b[3] == n
  {
    var n1, n2, n3 := n / 256, n / 256 / 256, n / 256 / 256 / 256;
    assert n == n1 * 256 + n % 256 && n1 == n2 * 256 + n1 % 256 && n2 == n3 * 256 + n2 % 256 && n3 < 256;
    var b := BigEndian(n, 4);
    assert b == BigEndian(n1, 3) + [n % 256];
    assert BigEndian(n1, 3) == BigEndian(n2, 2) + [n1 % 256];
    assert BigEndian(n2, 2) == BigEndian(n3, 1) + [n2 % 256];
    assert BigEndian(n3, 1) == BigEndian(n3 / 256, 0) + [n3 % 256];
  }

  // ---------------------------------------------------------------- strings and containers

  /** The unsigned 32-bit number at position `i`, most significant byte first. */
  function WordAt(bs: seq<byte>, i: nat): (n: int)
    requires i + 4 <= |bs|
  {
    var b: seq<int> := bs;
    b[i] * 0x100_0000 + b[i + 1] * 0x1_0000 + b[i + 2] * 0x100 + b[i + 3]
  }

  lemma CountInFront(n: nat, rest: seq<byte>)
    requires n < COUNT_LIMIT
    ensures var bs := BigEndian(n, 4) + rest; |bs| == 4 + |rest| && WordAt(bs, 0) == n && bs[4..] == rest
  {
    FourBytes(n);
  }

  /** A string: its length, then its bytes. */
  lemma StringLayout(s: seq<byte>)
    requires |s| < COUNT_LIMIT
    ensures var bs := Encode(Bytes(s), Str); |bs| == 4 + |s| && WordAt(bs, 0) == |s| && bs[4..] == s
  {
    CountInFront(|s|, s);
  }

  /** A vector: the number of its elements, then each element's bytes, in order. */
  lemma VectorLayout(vs: seq<Value>, i: nat, t: Type)
    requires i < |vs| < COUNT_LIMIT && AllTyped(vs, t)
    ensures WellTyped(vs[i], t) && AllTyped(vs[..i], t) && AllTyped(vs[i + 1..], t)
    ensures var bs := Encode(List(vs), Vec(t));
      && |bs| >= 4 && WordAt(bs, 0) == |vs|
      && bs[4..] == EncodeAll(vs[..i], t) + Encode(vs[i], t) + EncodeAll(vs[i + 1..], t)
  {
    ElementAt(vs, i, t);
    CountInFront(|vs|, EncodeAll(vs, t));
  }

  lemma {:induction false} ElementAt(vs: seq<Value>, i: nat, t: Type)
    requires i < |vs| && AllTyped(vs, t)
    ensures WellTyped(vs[i], t) && AllTyped(vs[..i], t) && AllTyped(vs[i + 1..], t)
    ensures EncodeAll(vs, t) == EncodeAll(vs[..i], t) + Encode(vs[i], t) + EncodeAll(vs[i + 1..], t)
  {
    if i == 0 {
      assert EncodeAll(vs[..0], t) + Encode(vs[0], t) == Encode(vs[0], t);
    } else {
      ElementAt(vs[1..], i - 1, t);
      assert vs[1..][..i - 1] == vs[..i][1..] && vs[1..][i..] == vs[i + 1..];
      var a, b, c, d := Encode(vs[0], t), EncodeAll(vs[..i][1..], t), Encode(vs[i], t), EncodeAll(vs[i + 1..], t);
      FourParts(a, b, c, d);
    }
  }

  lemma FourParts(a: seq<byte>, b: seq<byte>, c: seq<byte>, d: seq<byte>)
    ensures a + (b + c + d) == (a + b) + c + d
  {
  }

  /** A map: the number of its entries, then each entry's key and value, in key order. */
  lemma MapLayout(es: seq<(Value, Value)>, i: nat, key: Type, val: Type)
    requires i < |es| < COUNT_LIMIT && Ascending(es) && EntriesTyped(es, key, val)
    ensures WellTyped(es[i].0, key) && WellTyped(es[i].1, val)
    ensures EntriesTyped(es[..i], key, val) && EntriesTyped(es[i + 1..], key, val)
    ensures var bs := Encode(Assoc(es), Dict(key, val));
      && |bs| >= 4 && WordAt(bs, 0) == |es|
      && bs[4..] == EncodeEntries(es[..i], key, val) + (Encode(es[i].0, key) + Encode(es[i].1, val))
                    + EncodeEntries(es[i + 1..], key, val)
  {
    EntryAt(es, i, key, val);
    CountInFront(|es|, EncodeEntries(es, key, val));
  }

  lemma {:induction false} EntryAt(es: seq<(Value, Value)>, i: nat, key: Type, val: Type)
    requires i < |es| && EntriesTyped(es, key, val)
    ensures WellTyped(es[i].0, key) && WellTyped(es[i].1, val)
    ensures EntriesTyped(es[..i], key, val) && EntriesTyped(es[i + 1..], key, val)
    ensures EncodeEntries(es, key, val) ==
      EncodeEntries(es[..i], key, val) + (Encode(es[i].0, key) + Encode(es[i].1, val))
      + EncodeEntries(es[i + 1..], key, val)
  {
    if i == 0 {
      var one := Encode(es[0].0, key) + Encode(es[0].1, val);
      assert EncodeEntries(es[..0], key, val) + one == one;
    } else {
      EntryAt(es[1..], i - 1, key, val);
      assert es[1..][..i - 1] == es[..i][1..] && es[1..][i..] == es[i + 1..];
      FourParts(Encode(es[0].0, key) + Encode(es[0].1, val), EncodeEntries(es[..i][1..], key, val),
                Encode(es[i].0, key) + Encode(es[i].1, val), EncodeEntries(es[i + 1..], key, val));
    }
  }

  // ---------------------------------------------------------------- repeated keys

  /** The value that a map kept as a list has for `k`. */
  function ValueOf(es: seq<(Value, Value)>, k: Value): (v: Option<Value>) {
    if es == [] then None else if es[0].0 == k then Some(es[0].1) else ValueOf(es[1..], k)
  }

  /** The value of the last pair with key `k`. */
  function LastValue(es: seq<(Value, Value)>, k: Value): (v: Option<Value>) {
    if es == [] then None
    else if LastValue(es[1..], k).Some? then LastValue(es[1..], k)
    else if es[0].0 == k then Some(es[0].1)
    else None
  }

  /** Keys are integers, or they are strings. */
  predicate SameKind(es: seq<(Value, Value)>, ints: bool) {
    forall i :: 0 <= i < |es| ==> if ints then es[i].0.Int? else es[i].0.Bytes?
  }

  /** Strings are compared byte by byte, a proper prefix coming first. */
  lemma {:induction false} StringOrder(a: seq<byte>, b: seq<byte>)
    ensures BytesLess(a, b) <==> exists i :: FirstDifference(a, b, i)
  {
    if a == [] || b == [] || a[0] != b[0] {
      if BytesLess(a, b) { assert FirstDifference(a, b, 0); }
    } else {
      StringOrder(a[1..], b[1..]);
      if BytesLess(a[1..], b[1..]) {
        var i :| FirstDifference(a[1..], b[1..], i);
        assert FirstDifference(a, b, i + 1);
      }
      if i :| FirstDifference(a, b, i) {
        assert FirstDifference(a[1..], b[1..], i - 1);
      }
    }
  }

  predicate FirstDifference(a: seq<byte>, b: seq<byte>, i: int) {
    0 <= i <= |a| && i < |b| && (forall j :: 0 <= j < i ==> a[j] == b[j]) && (i == |a| || a[i] < b[i])
  }

  lemma {:induction false} BytesAreOrdered(a: seq<byte>, b: seq<byte>)
    ensures a == b || BytesLess(a, b) || BytesLess(b, a)
  {
    if a == [] || b == [] || a[0] != b[0] {
    } else {
      BytesAreOrdered(a[1..], b[1..]);
      assert a == [a[0]] + a[1..] && b == [b[0]] + b[1..];
    }
  }

  lemma {:induction false} BytesLessIsTransitive(a: seq<byte>, b: seq<byte>, c: seq<byte>)
    requires BytesLess(a, b) && BytesLess(b, c)
    ensures BytesLess(a, c)
  {
    if a == [] || a[0] < b[0] || b[0] < c[0] {
    } else {
      BytesLessIsTransitive(a[1..], b[1..], c[1..]);
    }
  }

  lemma KeyLessIsTransitive(a: Value, b: Value, c: Value)
    requires KeyLess(a, b) && KeyLess(b, c)
    ensures KeyLess(a, c)
  {
    if a.Bytes? { BytesLessIsTransitive(a.s, b.s, c.s); }
  }

  /** `d[k] = v` sets the value of `k` and of no other key. */
  lemma {:induction false} StoreSets(es: seq<(Value, Value)>, k: Value, v: Value, x: Value)
    ensures ValueOf(Store(es, k, v), x) == if x == k then Some(v) else ValueOf(es, x)
  {
    if es == [] {
    } else if es[0].0 == k {
      assert ([(k, v)] + es[1..])[1..] == es[1..];
    } else if KeyLess(k, es[0].0) {
      assert ([(k, v)] + es)[1..] == es;
    } else {
      StoreSets(es[1..], k, v, x);
      assert ([es[0]] + Store(es[1..], k, v))[1..] == Store(es[1..], k, v);
    }
  }

  /** Storing pairs in turn: the last one with a key decides its value. */
  lemma {:induction false} LastPairDecides(es: seq<(Value, Value)>, more: seq<(Value, Value)>, x: Value)
    ensures ValueOf(StoreAll(es, more), x) == if LastValue(more, x).Some? then LastValue(more, x) else ValueOf(es, x)
    decreases |more|
  {
    if more == [] {
    } else {
      LastPairDecides(Store(es, more[0].0, more[0].1), more[1..], x);
      StoreSets(es, more[0].0, more[0].1, x);
    }
  }

  lemma {:induction false} StoreMembers(es: seq<(Value, Value)>, k: Value, v: Value, i: nat)
    requires i < |Store(es, k, v)|
    ensures Store(es, k, v)[i] == (k, v) || Store(es, k, v)[i] in es
  {
    if es == [] || es[0].0 == k || KeyLess(k, es[0].0) {
    } else if i > 0 {
      StoreMembers(es[1..], k, v, i - 1);
    }
  }

  lemma {:induction false} StoreKeepsOrder(es: seq<(Value, Value)>, k: Value, v: Value, ints: bool)
    requires Ascending(es) && SameKind(es, ints) && (if ints then k.Int? else k.Bytes?)
    ensures Ascending(Store(es, k, v)) && SameKind(Store(es, k, v), ints)
  {
    var r := Store(es, k, v);
    forall i | 0 <= i < |r| ensures if ints then r[i].0.Int? else r[i].0.Bytes? { StoreMembers(es, k, v, i); }
    if es == [] || es[0].0 == k {
    } else if KeyLess(k, es[0].0) {
      forall j | 0 < j < |es| ensures KeyLess(k, es[j].0) { KeyLessIsTransitive(k, es[0].0, es[j].0); }
    } else {
      StoreKeepsOrder(es[1..], k, v, ints);
      var rest := Store(es[1..], k, v);
      if k.Bytes? { BytesAreOrdered(k.s, es[0].0.s); }
      forall j | 0 <= j < |rest| ensures KeyLess(es[0].0, rest[j].0) { StoreMembers(es[1..], k, v, j); }
    }
  }

  lemma {:induction false} StoreAllKeepsOrder(es: seq<(Value, Value)>, more: seq<(Value, Value)>, ints: bool)
    requires Ascending(es) && SameKind(es, ints) && SameKind(more, ints)
    ensures Ascending(StoreAll(es, more))
    decreases |more|
  {
    if more == [] {
    } else {
      StoreKeepsOrder(es, more[0].0, more[0].1, ints);
      StoreAllKeepsOrder(Store(es, more[0].0, more[0].1), more[1..], ints);
    }
  }

  /** What is read from any pairs, in any order and with keys repeated, is a map: its keys ascend, none twice,
      and each has the value of its last pair. */
  lemma ReadPairsMakeMap(es: seq<(Value, Value)>, ints: bool, x: Value)
    requires SameKind(es, ints)
    ensures Ascending(StoreAll([], es)) && ValueOf(StoreAll([], es), x) == LastValue(es, x)
  {
    StoreAllKeepsOrder([], es, ints);
    LastPairDecides([], es, x);
  }

  // ---------------------------------------------------------------- headers

  /** `n` is what the 32-bit word at `i` stands for, as a signed or an unsigned number. */
  predicate Stands(bs: seq<byte>, i: nat, n: int)
    requires i + 4 <= |bs|
  {
    (WordAt(bs, i) - n) % 0x1_0000_0000 == 0
  }

  lemma IntBytesStand(n: int, k: Kind)
    requires Width(k) == 4 && IntFits(n, k)
    ensures Stands(IntBytes(n, k), 0, n)
  {
    assert Pow256(4) == 256 * Pow256(3) == 65536 * Pow256(2) == 0x100_0000 * Pow256(1) == 0x1_0000_0000;
    FourBytes(ToUnsigned(n, k));
  }

  /** A request header: xid, procedure, client nonce, server nonce, acknowledgement. */
  lemma ReqHeaderLayout(h: ReqHeader)
    requires ReqHeaderFits(h)
    ensures var bs := ReqHeaderBytes(h);
      && Stands(bs, 0, h.xid) && Stands(bs, 4, h.proc) && Stands(bs, 8, h.clt)
      && Stands(bs, 12, h.srv) && Stands(bs, 16, h.rep)
  {
    IntBytesStand(h.xid, I32);
    IntBytesStand(h.proc, I32);
    IntBytesStand(h.clt, U32);
    IntBytesStand(h.srv, U32);
    IntBytesStand(h.rep, I32);
  }

  /** A reply header: xid, return code. */
  lemma ReplyHeaderLayout(h: ReplyHeader)
    requires ReplyHeaderFits(h)
    ensures var bs := ReplyHeaderBytes(h); Stands(bs, 0, h.xid) && Stands(bs, 4, h.ret)
  {
    IntBytesStand(h.xid, I32);
    IntBytesStand(h.ret, I32);
  }
}
