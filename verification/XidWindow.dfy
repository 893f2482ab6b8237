/**
 The client's record of finished calls: `rpcc::xid_rep_window_` and `rpcc::update_xid_rep`
 (rpc/rpc.cc:315-340).

 The window is a list of xids.  Its front is the acknowledgement stamped on the next request
 (rpc/rpc.cc:178).  A reply may be reported more than once, so the list may hold repeated values:
 it is non-decreasing, not strictly increasing.
 */
module XidWindow {

  ghost predicate NonDecreasing(w: seq<nat>) {
    forall i, j :: 0 <= i < j < |w| ==> w[i] <= w[j]
  }

  /** `n` is the largest number such that every xid 1..n has been reported. */
  ghost predicate IsFront(n: nat, reported: set<nat>) {
    && (forall x :: 1 <= x <= n ==> x in reported)
    && n + 1 !in reported
  }

  /** The window `w` stands for the set of xids reported so far. */
  ghost predicate Represents(w: seq<nat>, reported: set<nat>) {
    && |w| > 0
    && NonDecreasing(w)
    && IsFront(w[0], reported)
    && (forall x :: x in w ==> x == 0 || x in reported)
    && (forall x :: x in reported ==> x <= w[0] || x in w)
  }

  /** The new xid goes before the first larger one. */
  function Insert(w: seq<nat>, xid: nat): (r: seq<nat>)
    ensures |r| == |w| + 1
    ensures |w| > 0 && w[0] <= xid ==> r[0] == w[0]
  {
    if w == [] then [xid]
    else if w[0] > xid then [xid] + w
    else [w[0]] + Insert(w[1..], xid)
  }

  /** Pop the front while it is the direct predecessor of the element under the iterator;
      the iterator keeps designating the same element. */
  function PopFront(w: seq<nat>, it: nat): (r: (seq<nat>, nat))
    requires it < |w|
    ensures r.1 <= it && r.1 < |r.0| && |r.0| - r.1 == |w| - it
    decreases it
  {
    if it > 0 && w[0] + 1 == w[it] then PopFront(w[1..], it - 1) else (w, it)
  }

  function Compress(w: seq<nat>, it: nat): (r: seq<nat>)
    requires 0 < |w| && it <= |w|
    ensures |r| > 0
    decreases |w| - it
  {
    if it == |w| then w
    else
      var p := PopFront(w, it);
      Compress(p.0, p.1 + 1)
  }

  /** What `update_xid_rep` does to the window. */
  function Update(w: seq<nat>, xid: nat): (r: seq<nat>)
    requires |w| > 0
    ensures |r| > 0
  {
    if xid <= w[0] then w else Compress(Insert(w, xid), 1)
  }

  function UpdateAll(w: seq<nat>, xids: seq<nat>): (r: seq<nat>)
    requires |w| > 0
    ensures |r| > 0
  {
    if xids == [] then w else Update(UpdateAll(w, xids[..|xids| - 1]), xids[|xids| - 1])
  }

  ghost function Elements(xids: seq<nat>): set<nat> {
    set x | x in xids
  }

  // ---------------------------------------------------------------- insertion

  lemma {:induction false} InsertKeepsOrder(w: seq<nat>, xid: nat)
    requires NonDecreasing(w)
    ensures NonDecreasing(Insert(w, xid))
    ensures forall x :: x in Insert(w, xid) <==> x in w || x == xid
  {
    if w == [] || w[0] > xid {
    } else {
      var rest := Insert(w[1..], xid);
      InsertKeepsOrder(w[1..], xid);
      assert w == [w[0]] + w[1..];
      forall i, j | 0 <= i < j < |rest| + 1
        ensures ([w[0]] + rest)[i] <= ([w[0]] + rest)[j]
      {
        assert rest[j - 1] in rest;
      }
    }
  }

  // ---------------------------------------------------------------- compression

  /** The loop invariant of the compression pass: everything the final window must satisfy,
      except that only the part before the iterator is known not to continue the front. */
  ghost predicate Partial(w: seq<nat>, it: nat, reported: set<nat>) {
    && 0 < |w|
    && it <= |w|
    && NonDecreasing(w)
    && (forall x :: 1 <= x <= w[0] ==> x in reported)
    && (forall x :: x in w ==> x == 0 || x in reported)
    && (forall x :: x in reported ==> x <= w[0] || x in w)
    && (forall k :: 0 <= k < it ==> w[k] != w[0] + 1)
  }

  /** One pop keeps every clause but the last, which becomes "everything before the iterator
      is at most the element under it". */
  lemma PopKeeps(w: seq<nat>, it: nat, reported: set<nat>)
    requires Partial(w, 0, reported) && 0 < it < |w|
    requires w[0] + 1 == w[it]
    ensures Partial(w[1..], 0, reported)
    ensures w[0] <= w[1] <= w[0] + 1
  {
    assert w[it] in w;
    assert w[1] <= w[it];
    forall x | x in reported
      ensures x <= w[1] || x in w[1..]
    {
      if x > w[0] {
        var k :| 0 <= k < |w| && w[k] == x;
        assert w[1..][k - 1] == x;
      }
    }
  }

  lemma {:induction false} PopFrontKeeps(w: seq<nat>, it: nat, reported: set<nat>)
    requires it < |w| && Partial(w, 0, reported)
    requires forall k :: 0 <= k < it ==> w[k] != w[0] + 1 || w[0] + 1 == w[it]
    ensures var p := PopFront(w, it);
            Partial(p.0, p.1 + 1, reported) && w[0] <= p.0[0]
    decreases it
  {
    if it > 0 && w[0] + 1 == w[it] {
      PopKeeps(w, it, reported);
      var w' := w[1..];
      forall k | 0 <= k < it - 1
        ensures w'[k] != w'[0] + 1 || w'[0] + 1 == w'[it - 1]
      {
        assert w'[k] <= w'[it - 1];
      }
      PopFrontKeeps(w', it - 1, reported);
    }
  }

  lemma {:induction false} CompressRepresents(w: seq<nat>, it: nat, reported: set<nat>)
    requires 0 < it && Partial(w, it, reported)
    ensures Represents(Compress(w, it), reported) && w[0] <= Compress(w, it)[0]
    decreases |w| - it
  {
    if it == |w| {
    } else {
      PopFrontKeeps(w, it, reported);
      var p := PopFront(w, it);
      CompressRepresents(p.0, p.1 + 1, reported);
    }
  }

  lemma InsertScans(w: seq<nat>, xid: nat, it: nat)
    requires it < |w| && w[it] <= xid && Insert(w, xid) == w[..it] + Insert(w[it..], xid)
    ensures Insert(w, xid) == w[..it + 1] + Insert(w[it + 1..], xid)
  {
    assert w[it..][1..] == w[it + 1..];
    assert w[..it + 1] == w[..it] + [w[it]];
  }

  lemma InsertStops(w: seq<nat>, xid: nat, it: nat)
    requires it <= |w| && (it < |w| ==> w[it] > xid) && Insert(w, xid) == w[..it] + Insert(w[it..], xid)
    ensures Insert(w, xid) == w[..it] + [xid] + w[it..]
  {
    assert Insert(w[it..], xid) == [xid] + w[it..];
  }

  // ---------------------------------------------------------------- the window's law

  /** `update_xid_rep` takes a window for a set of reported xids to a window for that set with
      one more xid, and the acknowledgement never moves backwards. */
  lemma UpdateRepresents(w: seq<nat>, reported: set<nat>, xid: nat)
    requires Represents(w, reported)
    ensures Represents(Update(w, xid), reported + {xid})
    ensures w[0] <= Update(w, xid)[0]
  {
    if xid > w[0] {
      InsertKeepsOrder(w, xid);
      CompressRepresents(Insert(w, xid), 1, reported + {xid});
    }
  }

  /** After any sequence of reports, repeated ones included, starting from the constructor's [0]. */
  lemma {:induction false} UpdateAllRepresents(xids: seq<nat>)
    ensures Represents(UpdateAll([0], xids), Elements(xids))
  {
    if xids == [] {
    } else {
      var before, last := xids[..|xids| - 1], xids[|xids| - 1];
      UpdateAllRepresents(before);
      UpdateRepresents(UpdateAll([0], before), Elements(before), last);
      assert xids == before + [last];
      assert Elements(xids) == Elements(before) + {last};
    }
  }

  /** A front is the largest n with every xid 1..n reported. */
  lemma FrontIsLargest(w: seq<nat>, reported: set<nat>, n: nat)
    requires Represents(w, reported)
    requires forall x :: 1 <= x <= n ==> x in reported
    ensures n <= w[0]
  {
    assert w[0] + 1 !in reported;
  }

  /** After any reports, repeated ones included, {0..front} together with the window is exactly what was
      reported plus 0, the xid after the front is in neither, and the front is the largest n with every xid
      1..n reported. */
  lemma WindowIsExact(xids: seq<nat>, x: nat, n: nat)
    ensures var w := UpdateAll([0], xids);
      && (x <= w[0] || x in w <==> x == 0 || x in xids)
      && w[0] + 1 !in w && w[0] + 1 !in xids
      && ((forall y :: 1 <= y <= n ==> y in xids) <==> n <= w[0])
  {
    var w, reported := UpdateAll([0], xids), Elements(xids);
    UpdateAllRepresents(xids);
    assert x in reported <==> x in xids;
    forall y | 1 <= y <= w[0] ensures y in xids { assert y in reported; }
    if forall y :: 1 <= y <= n ==> y in xids {
      assert forall y :: 1 <= y <= n ==> y in reported;
      FrontIsLargest(w, reported, n);
    }
  }

  /** Hence neither the order nor the number of reports matters: the same xids give the same front and windows
      with the same members above it. */
  lemma OrderDoesNotMatter(xids: seq<nat>, xids': seq<nat>, x: nat)
    requires Elements(xids) == Elements(xids')
    ensures var w, w' := UpdateAll([0], xids), UpdateAll([0], xids');
      w[0] == w'[0] && (x > w[0] ==> (x in w <==> x in w'))
  {
    var w, w', reported := UpdateAll([0], xids), UpdateAll([0], xids'), Elements(xids);
    UpdateAllRepresents(xids);
    UpdateAllRepresents(xids');
    FrontIsLargest(w, reported, w'[0]);
    FrontIsLargest(w', reported, w[0]);
    assert x in reported <==> x in xids;
  }

  lemma {:induction false} PopFrontIsSuffix(w: seq<nat>, it: nat) returns (k: nat)
    requires it < |w|
    ensures k <= it && PopFront(w, it) == (w[k..], it - k)
    decreases it
  {
    if it > 0 && w[0] + 1 == w[it] {
      k := PopFrontIsSuffix(w[1..], it - 1);
      k := k + 1;
    } else {
      k := 0;
    }
  }

  lemma {:induction false} CompressIsSuffix(w: seq<nat>, it: nat) returns (k: nat)
    requires 0 < |w| && it <= |w|
    ensures k < |w| && Compress(w, it) == w[k..]
    decreases |w| - it
  {
    if it == |w| {
      k := 0;
    } else {
      var i := PopFrontIsSuffix(w, it);
      var j := CompressIsSuffix(w[i..], it - i + 1);
      k := i + j;
    }
  }

  lemma {:induction false} InsertAddsOne(w: seq<nat>, xid: nat)
    ensures multiset(Insert(w, xid)) == multiset(w) + multiset{xid}
  {
    if w == [] || w[0] > xid {
      assert w == [] ==> [xid] + w == [xid];
    } else {
      InsertAddsOne(w[1..], xid);
      assert w == [w[0]] + w[1..];
    }
  }

  /** One report: at or below the front it changes nothing; otherwise every xid that is above the front afterwards is
      in the window as often as before, and the reported one once more. */
  lemma ReportIsCounted(w: seq<nat>, reported: set<nat>, xid: nat, x: nat)
    requires Represents(w, reported)
    ensures xid <= w[0] ==> Update(w, xid) == w
    ensures xid > w[0] && x > Update(w, xid)[0] ==>
      multiset(Update(w, xid))[x] == multiset(w)[x] + if x == xid then 1 else 0
  {
    if xid > w[0] {
      InsertKeepsOrder(w, xid);
      InsertAddsOne(w, xid);
      var v := Insert(w, xid);
      var k := CompressIsSuffix(v, 1);
      if x > v[k] { CountInSuffix(v, k, x); }
    }
  }

  lemma CountInSuffix(v: seq<nat>, k: nat, x: nat)
    requires k < |v| && NonDecreasing(v) && v[k] < x
    ensures multiset(v)[x] == multiset(v[k..])[x]
  {
    assert v == v[..k] + v[k..];
    assert multiset(v) == multiset(v[..k]) + multiset(v[k..]);
    assert forall i :: 0 <= i < k ==> v[..k][i] <= v[k];
    assert x !in v[..k];
  }

  /** The window as the client object keeps it. */
  class Window {
    var w: seq<nat>
    ghost var reported: set<nat>

    ghost predicate Valid() reads this { Represents(w, reported) }

    constructor ()
      ensures Valid() && w == [0] && reported == {}
    {
      w := [0];
      reported := {};
    }

    /** The scan for the first larger xid, and the insertion before it. */
    method InsertBeforeLarger(xid: nat)
      requires |w| > 0
      modifies this`w
      ensures w == Insert(old(w), xid)
    {
      var it := 0;
      while it < |w| && w[it] <= xid
        invariant it <= |w| && w == old(w)
        invariant Insert(w, xid) == w[..it] + Insert(w[it..], xid)
      {
        InsertScans(w, xid, it);
        it := it + 1;
      }
      InsertStops(w, xid, it);
      w := w[..it] + [xid] + w[it..];
    }

    /** The pass that pops the front while the iterator stays put.  The assertion `0 < it` is the
        iterator's safety: the popped element is never the one it designates. */
    method CompressFront()
      requires |w| > 0
      modifies this`w
      ensures w == Compress(old(w), 1)
    {
      var it := 1;
      while it != |w|
        invariant 0 < it <= |w|
        invariant Compress(w, it) == Compress(old(w), 1)
        decreases |w| - it
      {
        ghost var w0, it0 := w, it;
        while w[0] + 1 == w[it]
          invariant it < |w| && |w| - it == |w0| - it0
          invariant PopFront(w, it) == PopFront(w0, it0)
          decreases it
        {
          assert 0 < it;
          w := w[1..];
          it := it - 1;
        }
        it := it + 1;
      }
    }

    method UpdateXidRep(xid: nat)
      requires Valid()
      modifies this
      ensures Valid() && reported == old(reported) + {xid}
      ensures w == Update(old(w), xid)
      ensures old(w)[0] <= w[0]
    {
      UpdateRepresents(w, reported, xid);
      reported := reported + {xid};
      if xid <= w[0] {
        return;
      }
      InsertBeforeLarger(xid);
      CompressFront();
    }
  }
}
