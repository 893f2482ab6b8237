/**
 The server's duplicate filter: one client's list in `rpcs::reply_window_`, edited by
 `rpcs::checkduplicate_and_update` and `rpcs::add_reply` (rpc/rpc.cc:561-644).

 `B` is the type of a marshalled reply; an entry whose reply is `None` has `cb_present == false`.
 */
module ReplyWindow {
  import opened Common

  datatype Status = New | InProgress | Done | Forgotten

  datatype Entry<B> = Entry(xid: nat, reply: Option<B>)

  datatype Verdict<B> = Verdict(status: Status, list: seq<Entry<B>>, reply: Option<B>)

  // ---------------------------------------------------------------- the two operations on values

  /** Garbage collection: what the erasing loop leaves. */
  function Retain<B>(list: seq<Entry<B>>, rep: nat): (r: seq<Entry<B>>) {
    if list == [] then []
    else
      var kept, last := Retain(list[..|list| - 1], rep), list[|list| - 1];
      if last.xid > rep then kept + [last] else kept
  }

  lemma {:induction false} RetainMembers<B(!new)>(list: seq<Entry<B>>, rep: nat)
    ensures forall e :: e in Retain(list, rep) <==> e in list && e.xid > rep
  {
    if list == [] {
    } else {
      var front, last := list[..|list| - 1], list[|list| - 1];
      RetainMembers(front, rep);
      assert list == front + [last];
    }
  }

  /** The last entry for `xid`. */
  function Find<B>(list: seq<Entry<B>>, xid: nat): (r: Option<Entry<B>>)
    ensures r.Some? ==> r.value.xid == xid
  {
    if list == [] then None
    else if list[|list| - 1].xid == xid then Some(list[|list| - 1])
    else Find(list[..|list| - 1], xid)
  }

  lemma {:induction false} FindMembers<B(!new)>(list: seq<Entry<B>>, xid: nat)
    ensures Find(list, xid).Some? ==> Find(list, xid).value in list
    ensures Find(list, xid).None? ==> forall e :: e in list ==> e.xid != xid
  {
    if list == [] {
    } else {
      var front, last := list[..|list| - 1], list[|list| - 1];
      FindMembers(front, xid);
      assert list == front + [last];
    }
  }

  function Check<B>(list: seq<Entry<B>>, xid: nat, rep: nat): (v: Verdict<B>)
    ensures v.status == Forgotten <==> list != [] && xid <= rep
    ensures v.status == Done <==> v.reply.Some?
  {
    if list == [] then Verdict(New, [Entry(xid, None)], None)
    else if xid <= rep then Verdict(Forgotten, Retain(list, rep), None)
    else
      match Find(list, xid)
      case Some(Entry(_, Some(b))) => Verdict(Done, Retain(list, rep), Some(b))
      case Some(Entry(_, None)) => Verdict(InProgress, Retain(list, rep), None)
      case None => Verdict(New, Retain(list, rep) + [Entry(xid, None)], None)
  }

  function AddReply<B>(list: seq<Entry<B>>, xid: nat, b: B): (r: seq<Entry<B>>)
    ensures |r| == |list|
    ensures forall i :: 0 <= i < |list| ==>
      r[i] == if list[i].xid == xid then Entry(xid, Some(b)) else list[i]
  {
    seq(|list|, i requires 0 <= i < |list| =>
      if list[i].xid == xid then Entry(xid, Some(b)) else list[i])
  }

  /** What looking at one more entry adds to the sweep. */
  lemma SweepOne<B>(all: seq<Entry<B>>, seen: nat, rep: nat, xid: nat)
    requires seen < |all|
    ensures Retain(all[..seen + 1], rep) ==
            Retain(all[..seen], rep) + if all[seen].xid > rep then [all[seen]] else []
    ensures Find(all[..seen + 1], xid) ==
            if all[seen].xid == xid then Some(all[seen]) else Find(all[..seen], xid)
  {
    assert all[..seen + 1][..seen] == all[..seen];
  }

  // ---------------------------------------------------------------- one client's list in place

  class ReplyList<B> {
    var list: seq<Entry<B>>

    constructor ()
      ensures list == []
    {
      list := [];
    }

    /** The erase-while-iterating loop.  `hit` is the remembered iterator `it_xid`: entries erased
        later lie behind it, so it stays valid. */
    method Sweep(xid: nat, rep: nat) returns (found: bool, hit: nat)
      modifies this
      ensures list == Retain(old(list), rep)
      ensures found <==> xid > rep && Find(old(list), xid).Some?
      ensures found ==> hit < |list| && list[hit] == Find(old(list), xid).value
    {
      var it := 0;
      found, hit := false, 0;
      ghost var seen := 0;
      ghost var all := list;
      while it < |list|
        invariant 0 <= it <= |list| && 0 <= seen <= |all|
        invariant list[it..] == all[seen..]
        invariant list[..it] == Retain(all[..seen], rep)
        invariant found <==> xid > rep && Find(all[..seen], xid).Some?
        invariant found ==> hit < it && list[hit] == Find(all[..seen], xid).value
        decreases |list| - it
      {
        SweepOne(all, seen, rep, xid);
        assert list[it] == all[seen];
        assert list[it + 1..] == all[seen + 1..];
        assert list[..it + 1] == list[..it] + [list[it]];
        if list[it].xid == xid && xid > rep {
          found, hit := true, it;
        }
        if list[it].xid <= rep {
          ghost var front, back := list[..it], list[it + 1..];
          list := list[..it] + list[it + 1..];
          assert list[..it] == front && list[it..] == back;
        } else {
          it := it + 1;
        }
        seen := seen + 1;
      }
      assert all[..seen] == all;
      assert list[..it] == list;
    }

    method CheckDuplicateAndUpdate(xid: nat, rep: nat) returns (status: Status, b: Option<B>)
      modifies this
      ensures Verdict(status, list, b) == Check(old(list), xid, rep)
    {
      if |list| == 0 {
        list := list + [Entry(xid, None)];
        return New, None;
      }
      var found, hit := Sweep(xid, rep);
      b := None;
      if found {
        b := list[hit].reply;
        status := if b.Some? then Done else InProgress;
      } else if xid <= rep {
        status := Forgotten;
      } else {
        list := list + [Entry(xid, None)];
        status := New;
      }
    }

    method RecordReply(xid: nat, b: B)
      modifies this
      ensures list == AddReply(old(list), xid, b)
    {
      var it := 0;
      while it < |list|
        invariant 0 <= it <= |list| == |old(list)|
        invariant list[..it] == AddReply(old(list), xid, b)[..it]
        invariant list[it..] == old(list)[it..]
      {
        assert list[it] == old(list)[it];
        if list[it].xid == xid {
          list := list[it := list[it].(reply := Some(b))];
        }
        it := it + 1;
      }
    }
  }

  // ---------------------------------------------------------------- the history specification

  /** What one client's list has been through: a request processed, or a reply recorded. */
  datatype Event<B> = Req(xid: nat, rep: nat) | Ans(xid: nat, reply: B)

  function After<B>(h: seq<Event<B>>): (list: seq<Entry<B>>) {
    if h == [] then []
    else
      var before, e := After(h[..|h| - 1]), h[|h| - 1];
      match e
      case Req(x, r) => Check(before, x, r).list
      case Ans(x, b) => AddReply(before, x, b)
  }

  /** Every request acknowledges only xids below its own, as real clients do. */
  ghost predicate WellStamped<B>(h: seq<Event<B>>) {
    forall i :: 0 <= i < |h| && h[i].Req? ==> h[i].rep < h[i].xid
  }

  /** Request `i` was for `x`, and no later request acknowledged `x`. */
  ghost predicate LiveSince<B>(h: seq<Event<B>>, i: int, x: nat) {
    && 0 <= i < |h|
    && h[i].Req? && h[i].xid == x
    && forall j :: i < j < |h| && h[j].Req? ==> h[j].rep < x
  }

  ghost predicate Live<B>(h: seq<Event<B>>, x: nat) {
    exists i :: LiveSince(h, i, x)
  }

  /** Event `k` is the last reply recorded for `x`, and it carries `b`. */
  ghost predicate LastAnswer<B>(h: seq<Event<B>>, k: int, x: nat, b: B) {
    && 0 <= k < |h|
    && h[k] == Ans(x, b)
    && forall j :: k < j < |h| && h[j].Ans? ==> h[j].xid != x
  }

  /** `b` is the last reply recorded for `x`, and it was recorded while `x` was live. */
  ghost predicate Answered<B>(h: seq<Event<B>>, x: nat, b: B) {
    exists i, k :: i < k && LiveSince(h, i, x) && LastAnswer(h, k, x, b)
  }

  // ---------------------------------------------------------------- Find against the operations

  lemma {:induction false} FindRetain<B>(list: seq<Entry<B>>, rep: nat, x: nat)
    ensures Find(Retain(list, rep), x) == if x > rep then Find(list, x) else None
  {
    if list == [] {
    } else {
      var front, last := list[..|list| - 1], list[|list| - 1];
      FindRetain(front, rep, x);
      if last.xid > rep {
        var kept := Retain(front, rep);
        assert (kept + [last])[..|kept|] == kept;
      }
    }
  }

  lemma FindAppend<B>(list: seq<Entry<B>>, e: Entry<B>, x: nat)
    ensures Find(list + [e], x) == if e.xid == x then Some(e) else Find(list, x)
  {
    assert (list + [e])[..|list|] == list;
  }

  lemma {:induction false} FindAddReply<B>(list: seq<Entry<B>>, y: nat, b: B, x: nat)
    ensures Find(AddReply(list, y, b), x) ==
            if x == y && Find(list, x).Some? then Some(Entry(x, Some(b))) else Find(list, x)
  {
    if list == [] {
    } else {
      var front := list[..|list| - 1];
      FindAddReply(front, y, b, x);
      assert AddReply(list, y, b)[..|list| - 1] == AddReply(front, y, b);
    }
  }

  ghost function StoredReply<B>(list: seq<Entry<B>>, x: nat): Option<B> {
    match Find(list, x)
    case Some(e) => e.reply
    case None => None
  }

  /** The verdict on a well-stamped request, read off the list. */
  lemma CheckAsFind<B>(list: seq<Entry<B>>, x: nat, r: nat)
    requires r < x
    ensures var v := Check(list, x, r);
      && (v.status == New <==> Find(list, x).None?)
      && v.reply == StoredReply(list, x)
      && (v.status == InProgress <==> Find(list, x).Some? && v.reply.None?)
  {
  }

  lemma FindCheck<B>(list: seq<Entry<B>>, y: nat, r: nat, x: nat)
    requires r < y
    ensures Find(Check(list, y, r).list, x) ==
            if r < x && Find(list, x).Some? then Find(list, x)
            else if x == y then Some(Entry(y, None)) else None
  {
    FindRetain(list, r, x);
    var unanswered: Entry<B> := Entry(y, None);
    FindAppend(Retain(list, r), unanswered, x);
  }

  // ---------------------------------------------------------------- the history, one event at a time

  lemma LiveAfterRequest<B>(h: seq<Event<B>>, y: nat, r: nat, x: nat)
    requires r < y
    ensures Live(h + [Req(y, r)], x) <==> x == y || (r < x && Live(h, x))
  {
    var h' := h + [Req(y, r)];
    forall i | LiveSince(h', i, x) && i < |h| ensures LiveSince(h, i, x) && r < x {
      assert h'[|h|] == Req(y, r);
      forall j | i < j < |h| && h[j].Req? ensures h[j].rep < x { assert h'[j] == h[j]; }
    }
    forall i | LiveSince(h, i, x) && r < x ensures LiveSince(h', i, x) {}
    if x == y { assert LiveSince(h', |h|, x); }
  }

  lemma AnsweredAfterRequest<B>(h: seq<Event<B>>, y: nat, r: nat, x: nat, b: B)
    requires r < y
    ensures Answered(h + [Req(y, r)], x, b) <==> r < x && Answered(h, x, b)
  {
    var h' := h + [Req(y, r)];
    if Answered(h', x, b) {
      var i, k :| i < k && LiveSince(h', i, x) && LastAnswer(h', k, x, b);
      assert h'[|h|] == Req(y, r);
      assert LiveSince(h, i, x) by {
        forall j | i < j < |h| && h[j].Req? ensures h[j].rep < x { assert h'[j] == h[j]; }
      }
      assert LastAnswer(h, k, x, b) by {
        forall j | k < j < |h| && h[j].Ans? ensures h[j].xid != x { assert h'[j] == h[j]; }
      }
    }
    if r < x && Answered(h, x, b) {
      var i, k :| i < k && LiveSince(h, i, x) && LastAnswer(h, k, x, b);
      assert LiveSince(h', i, x) && LastAnswer(h', k, x, b);
    }
  }

  lemma LiveAfterAnswer<B>(h: seq<Event<B>>, y: nat, c: B, x: nat)
    ensures Live(h + [Ans(y, c)], x) <==> Live(h, x)
  {
    var h' := h + [Ans(y, c)];
    forall i | LiveSince(h', i, x) ensures LiveSince(h, i, x) {
      forall j | i < j < |h| && h[j].Req? ensures h[j].rep < x { assert h'[j] == h[j]; }
    }
    forall i | LiveSince(h, i, x) ensures LiveSince(h', i, x) {}
  }

  lemma AnsweredAfterAnswer<B>(h: seq<Event<B>>, y: nat, c: B, x: nat, b: B)
    ensures Answered(h + [Ans(y, c)], x, b) <==>
            if x == y then b == c && Live(h, x) else Answered(h, x, b)
  {
    var h' := h + [Ans(y, c)];
    assert h'[|h|] == Ans(y, c);
    if Answered(h', x, b) {
      var i, k :| i < k && LiveSince(h', i, x) && LastAnswer(h', k, x, b);
      assert LiveSince(h, i, x) by {
        forall j | i < j < |h| && h[j].Req? ensures h[j].rep < x { assert h'[j] == h[j]; }
      }
      if x != y {
        assert LastAnswer(h, k, x, b) by {
          forall j | k < j < |h| && h[j].Ans? ensures h[j].xid != x { assert h'[j] == h[j]; }
        }
      }
    }
    if x == y && b == c && Live(h, x) {
      var i :| LiveSince(h, i, x);
      assert LiveSince(h', i, x) && LastAnswer(h', |h|, x, b);
    }
    if x != y && Answered(h, x, b) {
      var i, k :| i < k && LiveSince(h, i, x) && LastAnswer(h, k, x, b);
      assert LiveSince(h', i, x) && LastAnswer(h', k, x, b);
    }
  }

  // ---------------------------------------------------------------- main results

  /** The list refines the history: `x` is in it exactly when it has been requested since the
      last request that acknowledged it, and it carries a reply exactly when one was recorded in
      that time, namely the last one recorded. */
  lemma {:induction false} ListRefinesHistory<B>(h: seq<Event<B>>, x: nat)
    requires WellStamped(h)
    ensures Find(After(h), x).Some? <==> Live(h, x)
    ensures forall b :: Find(After(h), x) == Some(Entry(x, Some(b))) <==> Answered(h, x, b)
  {
    if h == [] {
    } else {
      var before, e := h[..|h| - 1], h[|h| - 1];
      assert h == before + [e];
      ListRefinesHistory(before, x);
      match e
      case Req(y, r) =>
        FindCheck(After(before), y, r, x);
        LiveAfterRequest(before, y, r, x);
        forall b ensures Answered(h, x, b) <==> r < x && Answered(before, x, b) {
          AnsweredAfterRequest(before, y, r, x, b);
        }
        forall b ensures Find(After(h), x) == Some(Entry(x, Some(b))) <==> Answered(h, x, b) {
          if r < x && Answered(before, x, b) {
            assert Find(After(before), x) == Some(Entry(x, Some(b)));
          }
        }
      case Ans(y, c) =>
        FindAddReply(After(before), y, c, x);
        LiveAfterAnswer(before, y, c, x);
        forall b ensures Find(After(h), x) == Some(Entry(x, Some(b))) <==> Answered(h, x, b) {
          AnsweredAfterAnswer(before, y, c, x, b);
        }
    }
  }

  /** How the next request is classified, for every history of well-stamped requests. */
  lemma Classification<B>(h: seq<Event<B>>, x: nat, r: nat)
    requires WellStamped(h) && r < x
    ensures var v := Check(After(h), x, r);
      && (v.status == New <==> !Live(h, x))
      && (v.status == Done <==> v.reply.Some?)
      && (forall b :: v.reply == Some(b) <==> Answered(h, x, b))
      && (v.status == InProgress <==> Live(h, x) && v.reply.None?)
      && v.status != Forgotten
  {
    ListRefinesHistory(h, x);
    CheckAsFind(After(h), x, r);
    forall b ensures StoredReply(After(h), x) == Some(b) <==> Answered(h, x, b) {
      assert Find(After(h), x) == Some(Entry(x, Some(b))) <==> Answered(h, x, b);
    }
  }

  // ---------------------------------------------------------------- size of the list

  ghost predicate Distinct<B>(list: seq<Entry<B>>) {
    forall i, j :: 0 <= i < j < |list| ==> list[i].xid != list[j].xid
  }

  lemma {:induction false} RetainKeepsDistinct<B(!new)>(list: seq<Entry<B>>, rep: nat)
    requires Distinct(list)
    ensures Distinct(Retain(list, rep))
  {
    if list == [] {
    } else {
      var front, last := list[..|list| - 1], list[|list| - 1];
      RetainKeepsDistinct(front, rep);
      RetainMembers(front, rep);
      var kept := Retain(front, rep);
      forall i | 0 <= i < |kept| ensures kept[i].xid != last.xid {
        assert kept[i] in front;
      }
    }
  }

  /** Processing a request never puts an xid in the list twice. */
  lemma CheckKeepsDistinct<B(!new)>(list: seq<Entry<B>>, x: nat, r: nat)
    requires Distinct(list)
    ensures Distinct(Check(list, x, r).list)
  {
    RetainKeepsDistinct(list, r);
    RetainMembers(list, r);
    FindMembers(list, x);
    var kept := Retain(list, r);
    if Find(list, x).None? {
      forall i | 0 <= i < |kept| ensures kept[i].xid != x { assert kept[i] in list; }
    }
  }

  ghost function Between(lo: int, hi: int): (s: set<int>)
    requires lo <= hi
    ensures |s| == hi - lo
    ensures forall x :: x in s <==> lo < x <= hi
    decreases hi - lo
  {
    if lo == hi then {} else Between(lo, hi - 1) + {hi}
  }

  ghost function Xids<B>(list: seq<Entry<B>>): (s: set<int>) {
    if list == [] then {} else Xids(list[..|list| - 1]) + {list[|list| - 1].xid}
  }

  lemma {:induction false} XidsInside<B>(list: seq<Entry<B>>, lo: int, hi: int)
    requires lo <= hi && forall i :: 0 <= i < |list| ==> lo < list[i].xid <= hi
    ensures Xids(list) <= Between(lo, hi)
  {
    if list == [] {
    } else {
      XidsInside(list[..|list| - 1], lo, hi);
    }
  }

  lemma {:induction false} NotAmong<B>(list: seq<Entry<B>>, x: int)
    requires forall i :: 0 <= i < |list| ==> list[i].xid != x
    ensures x !in Xids(list)
  {
    if list == [] {
    } else {
      NotAmong(list[..|list| - 1], x);
    }
  }

  lemma {:induction false} DistinctCount<B>(list: seq<Entry<B>>)
    requires Distinct(list)
    ensures |Xids(list)| == |list|
  {
    if list == [] {
    } else {
      var front, last := list[..|list| - 1], list[|list| - 1];
      DistinctCount(front);
      NotAmong(front, last.xid);
    }
  }

  lemma {:induction false} HistoryKeepsBounds<B(!new)>(h: seq<Event<B>>, max: nat)
    requires forall i :: 0 <= i < |h| && h[i].Req? ==> h[i].xid <= max
    ensures Distinct(After(h))
    ensures forall e :: e in After(h) ==> e.xid <= max
  {
    if h == [] {
    } else {
      var before, e := h[..|h| - 1], h[|h| - 1];
      HistoryKeepsBounds(before, max);
      match e
      case Req(x, r) =>
        CheckKeepsDistinct(After(before), x, r);
        RetainMembers(After(before), r);
      case Ans(x, b) =>
        var list := After(h);
        forall f | f in list ensures f.xid <= max {
          var i :| 0 <= i < |list| && list[i] == f;
          assert After(before)[i] in After(before);
        }
    }
  }

  /** After a request (x, r) every retained xid lies in (r, max], so the list has at most
      max - r entries, where max bounds the xids received. */
  lemma ListIsBounded<B(!new)>(h: seq<Event<B>>, x: nat, r: nat, max: nat)
    requires r < x <= max
    requires forall i :: 0 <= i < |h| && h[i].Req? ==> h[i].xid <= max
    ensures var list := After(h + [Req(x, r)]);
      && Distinct(list)
      && (forall e :: e in list ==> r < e.xid <= max)
      && |list| <= max - r
  {
    var h' := h + [Req(x, r)];
    assert h'[..|h|] == h;
    HistoryKeepsBounds(h', max);
    RetainMembers(After(h), r);
    var list := After(h');
    DistinctCount(list);
    XidsInside(list, r, max);
    SubsetIsSmaller(Xids(list), Between(r, max));
  }
}
