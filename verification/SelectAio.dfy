/**
 The watch sets of `SelectAIO` (rpc/pollmgr.cc:128-257).  `select` takes an upper bound on the file
 descriptors it looks at, so `highfds_` has to be kept equal to the largest watched descriptor through
 every change.  The calls the operating system makes are parameters: what `select` leaves in the two
 sets, and whether it was interrupted.
 */
module SelectAio {
  import opened Common

  /** `poll_flag`; `Other` stands for CB_NONE and CB_MASK. */
  datatype Flag = RdOnly | WrOnly | RdWr | Other

  /** `rfds_`, `wfds_` and `highfds_`. */
  datatype Fds = Fds(rfds: set<nat>, wfds: set<nat>, high: nat)

  predicate Watched(f: Fds, fd: nat) { fd in f.rfds || fd in f.wfds }

  /** The last watched descriptor below `n`, or `pipe`. */
  function LastBelow(f: Fds, n: nat, pipe: nat): (h: nat) {
    if n == 0 then pipe else if Watched(f, n - 1) then n - 1 else LastBelow(f, n - 1, pipe)
  }

  function Start(pipe: nat): (f: Fds) { Fds({pipe}, {}, pipe) }

  function Watch(f: Fds, fd: nat, flag: Flag): (r: Fds) {
    Fds(if flag.WrOnly? then f.rfds else f.rfds + {fd},
        if flag.RdOnly? then f.wfds else f.wfds + {fd},
        if f.high <= fd then fd else f.high)
  }

  function Cleared(f: Fds, fd: nat, flag: Flag): (r: Fds) {
    f.(rfds := if flag.WrOnly? then f.rfds else f.rfds - {fd},
       wfds := if flag.RdOnly? then f.wfds else f.wfds - {fd})
  }

  /** `unwatch_fd` after its assertion that the flag is one of the three legal ones. */
  function Unwatch(f: Fds, fd: nat, flag: Flag, pipe: nat): (r: Fds) {
    var c := Cleared(f, fd, flag);
    if !Watched(c, fd) && fd == f.high then c.(high := LastBelow(c, f.high + 1, pipe)) else c
  }

  // ---------------------------------------------------------------- the bound

  /** `high` is exactly the largest watched descriptor, and the wakeup pipe is always watched. */
  ghost predicate Exact(f: Fds, pipe: nat) {
    && pipe in f.rfds && pipe !in f.wfds
    && Watched(f, f.high)
    && forall fd: nat :: Watched(f, fd) ==> fd <= f.high
  }

  lemma {:induction false} LastBelowIsMaximum(f: Fds, n: nat, pipe: nat)
    requires pipe < n && Watched(f, pipe)
    ensures Watched(f, LastBelow(f, n, pipe)) && LastBelow(f, n, pipe) < n
    ensures forall fd: nat :: fd < n && Watched(f, fd) ==> fd <= LastBelow(f, n, pipe)
  {
    if !Watched(f, n - 1) {
      assert pipe != n - 1;
      LastBelowIsMaximum(f, n - 1, pipe);
    }
  }

  lemma UnwatchKeepsExact(f: Fds, fd: nat, flag: Flag, pipe: nat)
    requires Exact(f, pipe) && fd != pipe
    ensures Exact(Unwatch(f, fd, flag, pipe), pipe)
    ensures forall x :: x != fd ==> (x in Unwatch(f, fd, flag, pipe).rfds <==> x in f.rfds)
    ensures forall x :: x != fd ==> (x in Unwatch(f, fd, flag, pipe).wfds <==> x in f.wfds)
  {
    var c := Cleared(f, fd, flag);
    assert forall x: nat :: Watched(c, x) ==> Watched(f, x) && x <= f.high;
    assert Watched(c, pipe);
    if !Watched(c, fd) && fd == f.high {
      LastBelowIsMaximum(c, f.high + 1, pipe);
      var r := Unwatch(f, fd, flag, pipe);
      assert forall x :: Watched(r, x) <==> Watched(c, x);
    } else {
      assert Watched(c, f.high);
    }
  }

  datatype Change = Add(fd: nat, flag: Flag) | Drop(fd: nat, flag: Flag)

  function Changed(pipe: nat, changes: seq<Change>): (f: Fds) {
    if changes == [] then Start(pipe)
    else
      var f := Changed(pipe, changes[..|changes| - 1]);
      match changes[|changes| - 1]
      case Add(fd, flag) => Watch(f, fd, flag)
      case Drop(fd, flag) => Unwatch(f, fd, flag, pipe)
  }

  lemma WatchKeepsExact(f: Fds, fd: nat, flag: Flag, pipe: nat)
    requires Exact(f, pipe) && fd != pipe
    ensures Exact(Watch(f, fd, flag), pipe)
    ensures Watched(Watch(f, fd, flag), fd)
  {
    var r := Watch(f, fd, flag);
    assert Watched(r, fd);
    assert forall x :: Watched(r, x) <==> Watched(f, x) || x == fd;
  }

  /** After any sequence of changes that leaves the wakeup pipe alone the bound is exact. */
  lemma {:induction false} BoundIsExact(pipe: nat, changes: seq<Change>)
    requires forall c <- changes :: c.fd != pipe
    ensures Exact(Changed(pipe, changes), pipe)
  {
    if changes == [] {
    } else {
      var front, last := changes[..|changes| - 1], changes[|changes| - 1];
      assert last in changes;
      forall c | c in front ensures c.fd != pipe { assert c in changes; }
      BoundIsExact(pipe, front);
      var f := Changed(pipe, front);
      match last
      case Add(fd, flag) => WatchKeepsExact(f, fd, flag, pipe);
      case Drop(fd, flag) => UnwatchKeepsExact(f, fd, flag, pipe);
    }
  }

  // ---------------------------------------------------------------- which descriptors are watched

  /** Change `i` is about reading from (or writing to) `fd`, and it is the last such change. */
  ghost predicate LastOn(changes: seq<Change>, i: int, fd: nat, spared: Flag) {
    && 0 <= i < |changes| && changes[i].fd == fd && changes[i].flag != spared
    && forall j :: i < j < |changes| ==> !(changes[j].fd == fd && changes[j].flag != spared)
  }

  /** The last change that is not only about `spared` adds `fd`. */
  ghost predicate AddedLast(changes: seq<Change>, fd: nat, spared: Flag) {
    exists i :: LastOn(changes, i, fd, spared) && changes[i].Add?
  }

  lemma LastOnGrows(changes: seq<Change>, c: Change, fd: nat, spared: Flag)
    ensures AddedLast(changes + [c], fd, spared) <==>
      if c.fd == fd && c.flag != spared then c.Add? else AddedLast(changes, fd, spared)
  {
    var all, n := changes + [c], |changes|;
    if c.fd == fd && c.flag != spared {
      assert LastOn(all, n, fd, spared);
      assert forall i :: LastOn(all, i, fd, spared) ==> i == n;
    } else {
      assert forall i :: LastOn(changes, i, fd, spared) ==> LastOn(all, i, fd, spared) && all[i] == changes[i];
      assert forall i :: LastOn(all, i, fd, spared) ==> i < n && LastOn(changes, i, fd, spared) && all[i] == changes[i];
    }
  }

  /** After any changes: a descriptor is watched for reading exactly when the last change of it that was not only
      about writing added it, and for writing likewise. */
  lemma {:induction false} WatchedIffAddedLast(pipe: nat, changes: seq<Change>, fd: nat)
    requires fd != pipe
    ensures fd in Changed(pipe, changes).rfds <==> AddedLast(changes, fd, WrOnly)
    ensures fd in Changed(pipe, changes).wfds <==> AddedLast(changes, fd, RdOnly)
  {
    if changes == [] {
    } else {
      var front, last := changes[..|changes| - 1], changes[|changes| - 1];
      WatchedIffAddedLast(pipe, front, fd);
      LastOnGrows(front, last, fd, WrOnly);
      LastOnGrows(front, last, fd, RdOnly);
      assert changes == front + [last];
    }
  }

  // ---------------------------------------------------------------- the ready lists

  /** The members of `s` below `n`, smallest first. */
  function Ascending(s: set<nat>, n: nat): (r: seq<nat>) {
    if n == 0 then [] else Ascending(s, n - 1) + (if n - 1 in s then [n - 1] else [])
  }

  predicate StrictlyAscending(r: seq<nat>) {
    forall i, j :: 0 <= i < j < |r| ==> r[i] < r[j]
  }

  lemma {:induction false} AscendingLists(s: set<nat>, n: nat)
    ensures forall fd :: fd in Ascending(s, n) <==> fd in s && fd < n
    ensures StrictlyAscending(Ascending(s, n))
  {
    if n == 0 {
    } else {
      AscendingLists(s, n - 1);
      var a := Ascending(s, n - 1);
      assert forall i :: 0 <= i < |a| ==> a[i] in a;
    }
  }

  /** What one pass of `wait_ready` reports, given what `select` left in the copied sets. */
  function Reported(ready: set<nat>, trfds: set<nat>, pipe: nat, high: nat): (r: seq<nat>) {
    Ascending(if pipe in trfds then ready - {pipe} else ready, high + 1)
  }

  /** Every watched descriptor that `select` found ready is reported exactly once, the pipe never. */
  lemma ReadyIsReportedOnce(f: Fds, pipe: nat, trfds: set<nat>, twfds: set<nat>)
    requires Exact(f, pipe) && trfds <= f.rfds && twfds <= f.wfds
    ensures var readable := Reported(trfds, trfds, pipe, f.high);
      StrictlyAscending(readable) && forall fd :: fd in readable <==> fd in trfds && fd != pipe
    ensures var writable := Reported(twfds, trfds, pipe, f.high);
      StrictlyAscending(writable) && forall fd :: fd in writable <==> fd in twfds
  {
    AscendingLists(if pipe in trfds then trfds - {pipe} else trfds, f.high + 1);
    AscendingLists(if pipe in trfds then twfds - {pipe} else twfds, f.high + 1);
    assert forall fd :: fd in trfds ==> Watched(f, fd);
    assert forall fd :: fd in twfds ==> Watched(f, fd);
  }

  // ---------------------------------------------------------------- the object

  class SelectAIO {
    const pipe: nat
    var rfds: set<nat>
    var wfds: set<nat>
    var high: nat
    /** Bytes written to the wakeup pipe and not read yet. */
    var pipeBytes: nat

    function View(): (f: Fds) reads this { Fds(rfds, wfds, high) }

    ghost predicate Valid() reads this { Exact(View(), pipe) }

    constructor (readEnd: nat)
      ensures pipe == readEnd && View() == Start(pipe) && pipeBytes == 0 && Valid()
    {
      pipe := readEnd;
      rfds, wfds, high, pipeBytes := {readEnd}, {}, readEnd, 0;
      new;
      assert Watched(View(), high);
    }

    method WatchFd(fd: nat, flag: Flag)
      modifies this
      ensures View() == Watch(old(View()), fd, flag) && pipeBytes == old(pipeBytes) + 1
      ensures old(Valid()) && fd != pipe ==> Valid()
    {
      ghost var before := View();
      if high <= fd { high := fd; }
      if flag == RdOnly {
        rfds := rfds + {fd};
      } else if flag == WrOnly {
        wfds := wfds + {fd};
      } else {
        rfds := rfds + {fd};
        wfds := wfds + {fd};
      }
      pipeBytes := pipeBytes + 1;
      if old(Valid()) && fd != pipe { WatchKeepsExact(before, fd, flag, pipe); }
    }

    method IsWatched(fd: nat, flag: Flag) returns (r: bool)
      ensures r <==> (flag != WrOnly ==> fd in rfds) && (flag != RdOnly ==> fd in wfds)
    {
      if flag == RdOnly {
        return fd in rfds;
      } else if flag == WrOnly {
        return fd in wfds;
      }
      r := fd in rfds && fd in wfds;
    }

    /** `None` is the assertion failure on an illegal flag. */
    method UnwatchFd(fd: nat, flag: Flag) returns (r: Option<bool>)
      modifies this
      ensures r.None? <==> flag == Other
      ensures r.None? ==> View() == old(View()) && pipeBytes == old(pipeBytes)
      ensures r.Some? ==> View() == Unwatch(old(View()), fd, flag, pipe)
      ensures r.Some? ==> r.value == !Watched(View(), fd)
      ensures r.Some? ==> pipeBytes == old(pipeBytes) + if flag == RdWr then 1 else 0
      ensures old(Valid()) && fd != pipe ==> Valid()
    {
      ghost var before := View();
      if flag == RdOnly {
        rfds := rfds - {fd};
      } else if flag == WrOnly {
        wfds := wfds - {fd};
      } else if flag == RdWr {
        wfds := wfds - {fd};
        rfds := rfds - {fd};
      } else {
        return None;
      }
      assert View() == Cleared(before, fd, flag);
      if fd !in rfds && fd !in wfds {
        if fd == high {
          var newh, i := pipe, 0;
          while i <= high
            invariant 0 <= i <= high + 1
            invariant newh == LastBelow(View(), i, pipe)
          {
            if i in rfds {
              newh := i;
            } else if i in wfds {
              newh := i;
            }
            i := i + 1;
          }
          high := newh;
        }
      }
      if flag == RdWr { pipeBytes := pipeBytes + 1; }
      if old(Valid()) && fd != pipe { UnwatchKeepsExact(before, fd, flag, pipe); }
      assert View() == Unwatch(before, fd, flag, pipe);
      return Some(fd !in rfds && fd !in wfds);
    }

    /** `top`, `trfds` and `twfds` are the copied bound and what `select` made of the copied sets;
        `interrupted` is EINTR. */
    method WaitReady(top: nat, trfds: set<nat>, twfds: set<nat>, interrupted: bool)
      returns (readable: seq<nat>, writable: seq<nat>)
      requires pipe in trfds && !interrupted ==> pipe <= top && pipeBytes > 0
      modifies this`pipeBytes
      ensures interrupted ==> readable == writable == [] && pipeBytes == old(pipeBytes)
      ensures !interrupted ==> readable == Reported(trfds, trfds, pipe, top)
      ensures !interrupted ==> writable == Reported(twfds, trfds, pipe, top)
      ensures !interrupted ==> pipeBytes == old(pipeBytes) - if pipe in trfds then 1 else 0
    {
      readable, writable := [], [];
      if interrupted { return; }
      ghost var rs := if pipe in trfds then trfds - {pipe} else trfds;
      ghost var ws := if pipe in trfds then twfds - {pipe} else twfds;
      var fd := 0;
      while fd <= top
        invariant 0 <= fd <= top + 1
        invariant readable == Ascending(rs, fd) && writable == Ascending(ws, fd)
        invariant pipeBytes == old(pipeBytes) - if pipe in trfds && pipe < fd then 1 else 0
      {
        if fd == pipe && fd in trfds {
          pipeBytes := pipeBytes - 1;
        } else {
          if fd in twfds { writable := writable + [fd]; }
          if fd in trfds { readable := readable + [fd]; }
        }
        fd := fd + 1;
      }
    }
  }
}
