/**
 The retransmission timer of `rpcc::call1` (rpc/rpc.cc:183-231) and its clock arithmetic
 (rpc/rpc.cc:926-954).  The first wait is a second long, each further one twice as long as the one
 before, and all of them end at the call's final deadline.

 The clock never runs backwards and a wait times out at or after its deadline; apart from that, how
 long anything takes, when a reply comes and when the connection dies is up to the environment.
 */
module CallTimer {
  import opened Common

  type int32 = x: int | -0x8000_0000 <= x < 0x8000_0000

  const SECOND: int := 1_000_000_000
  const MILLISECOND: int := 1_000_000

  /** `to_min.to` in milliseconds. */
  const TO_MIN: int := 1000

  datatype Timespec = Timespec(sec: int, nsec: int)

  function Nanos(t: Timespec): (n: int) { t.sec * 1_000_000_000 + t.nsec }

  /** What `clock_gettime` stores at time `n`. */
  function Clock(n: nat): (t: Timespec)
    ensures Nanos(t) == n && 0 <= t.nsec < SECOND
  {
    Timespec(n / SECOND, n % SECOND)
  }

  // ---------------------------------------------------------------- clock arithmetic

  /** C's quotient and remainder by a positive number: towards zero. */
  function Quot(a: int, b: int): (q: int)
    requires b > 0
  {
    if a >= 0 then a / b else -((-a) / b)
  }

  function Rem(a: int, b: int): (r: int)
    requires b > 0
    ensures Quot(a, b) * b + r == a && -b < r < b && (a >= 0 ==> r >= 0) && (a <= 0 ==> r <= 0)
  {
    if a >= 0 then a % b else -((-a) % b)
  }

  function Compare(a: Timespec, b: Timespec): (r: int) {
    if a.sec > b.sec then 1
    else if a.sec < b.sec then -1
    else if a.nsec > b.nsec then 1
    else if a.nsec < b.nsec then -1
    else 0
  }

  predicate InRange(t: Timespec) { 0 <= t.nsec <= SECOND }

  /** On the closed range that `add_timespec` produces, the comparison is the true order except between
      the two ways of writing a whole second. */
  lemma CompareIsTrueOrder(a: Timespec, b: Timespec)
    requires InRange(a) && InRange(b)
    ensures Nanos(a) > Nanos(b) ==> Compare(a, b) > 0
    ensures Nanos(a) < Nanos(b) ==> Compare(a, b) < 0
    ensures Nanos(a) == Nanos(b) ==> (Compare(a, b) == 0 <==> (a.nsec == SECOND <==> b.nsec == SECOND))
  {
    if a.sec > b.sec {
      assert a.sec * SECOND >= b.sec * SECOND + SECOND;
    } else if a.sec < b.sec {
      assert b.sec * SECOND >= a.sec * SECOND + SECOND;
    }
  }

  /** `None` is the failed assertion.  Total time is conserved; a result of exactly one second's worth of
      nanoseconds is not carried over. */
  method AddTimespec(a: Timespec, b: int32) returns (r: Option<Timespec>)
    ensures r.None? <==> a.nsec + Rem(b, 1000) * MILLISECOND < 0
    ensures r.Some? ==> Nanos(r.value) == Nanos(a) + b * 1_000_000 && InRange(r.value)
    ensures r.Some? && r.value.nsec == 0 ==> a.nsec + Rem(b, 1000) * MILLISECOND == 0
    ensures r.Some? && a.nsec + Rem(b, 1000) * MILLISECOND <= SECOND ==>
      r.value.nsec == a.nsec + Rem(b, 1000) * MILLISECOND
  {
    var sec, nsec := a.sec + Quot(b, 1000), a.nsec + Rem(b, 1000) * MILLISECOND;
    if nsec < 0 { return None; }
    while nsec > SECOND
      invariant nsec >= 0
      invariant sec * SECOND + nsec == Nanos(a) + b * MILLISECOND
      invariant nsec == 0 ==> a.nsec + Rem(b, 1000) * MILLISECOND == 0
      invariant a.nsec + Rem(b, 1000) * MILLISECOND <= SECOND ==> nsec == a.nsec + Rem(b, 1000) * MILLISECOND
      decreases nsec
    {
      sec, nsec := sec + 1, nsec - SECOND;
    }
    r := Some(Timespec(sec, nsec));
  }

  // ---------------------------------------------------------------- powers of two

  function Pow2(k: nat): (p: nat)
    ensures p >= 1
  {
    if k == 0 then 1 else 2 * Pow2(k - 1)
  }

  function FloorLog2(n: nat): (k: nat)
    requires n >= 1
  {
    if n == 1 then 0 else 1 + FloorLog2(n / 2)
  }

  lemma {:induction false} LogIsExact(n: nat, k: nat)
    requires n >= 1
    ensures Pow2(k) <= n <==> k <= FloorLog2(n)
    decreases k
  {
    if n == 1 {
      if k > 0 { assert Pow2(k) == 2 * Pow2(k - 1); }
    } else if k > 0 {
      LogIsExact(n / 2, k - 1);
    }
  }

  lemma {:induction false} Pow2Grows(j: nat, k: nat)
    requires j <= k
    ensures Pow2(j) <= Pow2(k)
  {
    if j == k {
    } else {
      Pow2Grows(j, k - 1);
    }
  }

  /** floor(log2(to/1000 + 1)); a negative timeout counts as none. */
  function Doublings(to: int32): (l: nat) {
    FloorLog2(if to < 0 then 1 else to / 1000 + 1)
  }

  /** `k` doublings fit into the timeout exactly when the `k` waits from one second up do. */
  lemma DoublingsAreExact(to: int32, k: nat)
    ensures k <= Doublings(to) <==> k == 0 || (Pow2(k) - 1) * 1000 <= to
  {
    var n := if to < 0 then 1 else to / 1000 + 1;
    LogIsExact(n, k);
    if k > 0 {
      assert Pow2(k) == 2 * Pow2(k - 1);
      assert (Pow2(k) - 1) * 1000 <= to <==> Pow2(k) <= n;
    }
  }

  // ---------------------------------------------------------------- the doubled timeout

  /** `x << 1` in 32 bits. */
  function ShiftLeft(x: int32): (r: int32) {
    var d := (2 * x) % 0x1_0000_0000;
    if d < 0x8000_0000 then d else d - 0x1_0000_0000
  }

  lemma Pow2Of21()
    ensures Pow2(21) == 2_097_152
  {
    assert Pow2(10) == 1024;
    assert Pow2(20) == 1_048_576;
  }

  /** At most 21 doublings, so every timeout that is waited for fits 32 bits. */
  lemma UsedTimeoutFits(to: int32, k: nat)
    requires k <= Doublings(to)
    ensures k <= 21 && TO_MIN * Pow2(k) < 0x8000_0000
  {
    Pow2Of21();
    assert Pow2(22) == 2 * Pow2(21);
    DoublingsAreExact(to, 22);
    Pow2Grows(k, 21);
  }

  /** The largest value the loop can shift up to stays within 32 bits exactly for these timeouts. */
  lemma DoubledTimeoutFits(to: int32)
    ensures TO_MIN * Pow2(Doublings(to) + 1) < 0x8000_0000 <==> to < WRAPPING_TO
  {
    Pow2Of21();
    var l := Doublings(to);
    DoublingsAreExact(to, 21);
    if l <= 20 {
      Pow2Grows(l + 1, 21);
    } else {
      Pow2Grows(22, l + 1);
      assert Pow2(22) == 2 * Pow2(21);
    }
  }

  lemma {:induction false} ShiftIsDoubling(k: nat, x: int32)
    requires x == TO_MIN * Pow2(k) && 2 * x < 0x8000_0000
    ensures ShiftLeft(x) == TO_MIN * Pow2(k + 1)
  {
    assert Pow2(k + 1) == 2 * Pow2(k);
  }

  /** From this timeout on the last doubling leaves the 32-bit range. */
  const WRAPPING_TO: int := 2_097_151_000

  /** The shift after wait `k` doubles the timeout, except that the last one wraps around for these timeouts. */
  predicate ShiftIsRight(x: int, k: nat, to: int32) {
    x == TO_MIN * Pow2(k + 1) - if k == Doublings(to) && to >= WRAPPING_TO then 0x1_0000_0000 else 0
  }

  ghost predicate ShiftsAreRight(xs: seq<int32>, to: int32) {
    forall k :: 0 <= k < |xs| ==> ShiftIsRight(xs[k], k, to)
  }

  lemma ShiftIsExact(to: int32, k: nat, x: int32)
    requires k <= Doublings(to) && x == TO_MIN * Pow2(k)
    ensures ShiftIsRight(ShiftLeft(x), k, to)
  {
    DoubledTimeoutFits(to);
    UsedTimeoutFits(to, k);
    assert Pow2(k + 1) == 2 * Pow2(k);
    if k < Doublings(to) {
      UsedTimeoutFits(to, k + 1);
    }
  }

  // ---------------------------------------------------------------- the loop

  /** One pass as the environment has it: nanoseconds before the clock is read, whether the reply comes,
      nanoseconds past the deadline until the timed-out thread goes on, and whether the connection is
      missing or dead by then. */
  datatype Round = Round(busy: nat, replied: bool, late: nat, lost: bool)

  datatype Ending = Replied | TimedOut | Aborted

  /** A wait of `deadline` begun at `now`. */
  datatype Wait = Wait(now: int, deadline: int)

  /** How the next wait is chosen: the whole current timeout when that ends by `final`, else `final`. */
  predicate WaitIsRight(w: Wait, k: nat, final: int) {
    var full := w.now + TO_MIN * Pow2(k) * MILLISECOND;
    w.deadline == if full <= final then full else final
  }

  ghost predicate AllRight(waits: seq<Wait>, final: int) {
    forall k :: 0 <= k < |waits| ==> WaitIsRight(waits[k], k, final)
  }

  /** The connection was lost before one of the first `k` waits was over. */
  ghost predicate EverLost(env: nat -> Round, k: nat) { k > 0 && (env(k - 1).lost || EverLost(env, k - 1)) }

  /** None of the first `k` waits brought the reply. */
  ghost predicate NoReply(env: nat -> Round, k: nat) { k > 0 ==> !env(k - 1).replied && NoReply(env, k - 1) }

  /** When the call should give up. */
  function FinalTime(start: nat, to: int32): (n: int) { start + to * MILLISECOND }

  lemma OneMoreWait(waits: seq<Wait>, w: Wait, final: int)
    requires AllRight(waits, final) && WaitIsRight(w, |waits|, final)
    ensures AllRight(waits + [w], final)
  {
  }

  lemma OneMoreShift(xs: seq<int32>, x: int32, to: int32)
    requires ShiftsAreRight(xs, to) && ShiftIsRight(x, |xs|, to)
    ensures ShiftsAreRight(xs + [x], to)
  {
  }

  function Max(a: int, b: int): (m: int) { if a >= b then a else b }

  lemma WaitsAddUp(start: int, to: int, p: nat, now: int)
    requires now >= start + (p - 1) * SECOND
    requires now + TO_MIN * p * MILLISECOND <= start + to * MILLISECOND
    ensures (2 * p - 1) * 1000 <= to
    ensures now + TO_MIN * p * MILLISECOND >= start + (2 * p - 1) * SECOND
  {
  }

  /** The state of the loop before wait `k`, as long as the final deadline lies ahead. */
  ghost predicate Going(to: int32, start: nat, k: nat, currTo: int32, time: int, final: Timespec) {
    && k <= Doublings(to) && currTo == TO_MIN * Pow2(k)
    && time >= start + (Pow2(k) - 1) * SECOND
    && Nanos(final) == FinalTime(start, to) && InRange(final)
  }

  lemma GoesOn(to: int32, start: nat, k: nat, currTo: int32, now: nat, final: Timespec, time: int)
    requires Going(to, start, k, currTo, now, final)
    requires now + currTo * MILLISECOND <= Nanos(final) && time >= now + currTo * MILLISECOND
    ensures Going(to, start, k + 1, ShiftLeft(currTo), time, final) && time > now
  {
    WaitsAddUp(start, to, Pow2(k), now);
    DoublingsAreExact(to, k + 1);
    UsedTimeoutFits(to, k + 1);
    ShiftIsDoubling(k, currTo);
  }

  /** Nothing has taken longer than the waits themselves, and a final deadline written with a whole second of
      nanoseconds does not belong to a timeout of whole seconds. */
  ghost predicate OnTime(to: int32, start: nat, k: nat, time: int, final: Timespec) {
    time == start + (Pow2(k) - 1) * SECOND && (final.nsec == SECOND ==> to % 1000 != 0)
  }

  /** On time, the final deadline cuts a wait short only after all doublings that fit. */
  lemma StopsOnTime(to: int32, start: nat, k: nat, currTo: int32, time: int, final: Timespec)
    requires Going(to, start, k, currTo, time, final) && OnTime(to, start, k, time, final)
    requires time + currTo * MILLISECOND >= Nanos(final)
    requires time + currTo * MILLISECOND == Nanos(final) ==> final.nsec == SECOND
    ensures k == Doublings(to)
  {
    var p := Pow2(k);
    assert (2 * p - 1) * 1000 >= to;
    assert ((2 * p - 1) * 1000) % 1000 == 0;
    DoublingsAreExact(to, k + 1);
  }

  /** The deadline of the next wait; `final'` carries the stop mark once that is the final one. */
  method NextDeadline(now: nat, currTo: int32, final: Timespec) returns (next: Timespec, final': Timespec)
    requires InRange(final) && final.sec != 0 && currTo > 0
    ensures final' == if final'.sec == 0 then final.(sec := 0) else final
    ensures Nanos(next) ==
      if now + currTo * MILLISECOND <= Nanos(final) then now + currTo * MILLISECOND else Nanos(final)
    ensures final'.sec == 0 ==> next == final && now + currTo * MILLISECOND >= Nanos(final)
    ensures final'.sec == 0 && currTo % 1000 == 0 && now + currTo * MILLISECOND == Nanos(final) ==> final.nsec == SECOND
    ensures final'.sec != 0 ==> now + currTo * MILLISECOND <= Nanos(final)
  {
    var added := AddTimespec(Clock(now), currTo);
    next, final' := added.value, final;
    CompareIsTrueOrder(next, final);
    if Compare(next, final) > 0 {
      next := final;
      final' := final.(sec := 0);
    }
  }

  /** `to` is negative by more than the clock's nanoseconds can make up for, and `add_timespec` fails. */
  predicate Fails(start: nat, to: int32) { start % SECOND + Rem(to, 1000) * MILLISECOND < 0 }

  method FinalDeadline(start: nat, to: int32) returns (r: Option<Timespec>)
    ensures r.None? <==> Fails(start, to)
    ensures r.Some? ==> Going(to, start, 0, TO_MIN, start, r.value) && OnTime(to, start, 0, start, r.value)
    ensures r.Some? && r.value.sec == 0 ==> 0 <= FinalTime(start, to) <= SECOND
  {
    r := AddTimespec(Clock(start), to);
  }

  /** Choosing the deadline and waiting for it, from rpc/rpc.cc:209 to the end of the pass; the wait is cut
      short by a reply. */
  method WaitOnce(
      to: int32, ghost start: nat, ghost k: nat, currTo: int32, time: nat, final: Timespec, r: Round,
      ghost punctual: bool)
    returns (w: Wait, currTo': int32, time': nat, final': Timespec)
    requires final.sec != 0 && Going(to, start, k, currTo, time, final)
    requires punctual ==> OnTime(to, start, k, time, final) && r.busy == r.late == 0
    ensures WaitIsRight(w, k, FinalTime(start, to)) && w.now == time + r.busy
    ensures !r.replied ==> ShiftIsRight(currTo', k, to)
    ensures !r.replied ==> Phase(to, start, k + 1, currTo', time', final', w.deadline, punctual)
    ensures !r.replied && final'.sec != 0 ==> time < FinalTime(start, to) && time < time'
  {
    var now := time + r.busy;
    var next;
    next, final' := NextDeadline(now, currTo, final);
    w := Wait(now, Nanos(next));
    if r.replied { return w, currTo, now, final'; }
    time' := Max(now, w.deadline) + r.late;
    if final'.sec != 0 { GoesOn(to, start, k, currTo, now, final, time'); }
    if final'.sec == 0 && punctual {
      StopsOnTime(to, start, k, currTo, time, final);
    }
    ShiftIsExact(to, k, currTo);
    currTo' := ShiftLeft(currTo);
  }

  /** Nothing takes longer than it must during the first `k` waits. */
  ghost predicate Punctual(env: nat -> Round, k: nat) {
    k > 0 ==> env(k - 1).busy == env(k - 1).late == 0 && Punctual(env, k - 1)
  }

  /** The connection is lost during each of the first `k` waits. */
  ghost predicate AlwaysLost(env: nat -> Round, k: nat) {
    k > 0 ==> env(k - 1).lost && AlwaysLost(env, k - 1)
  }

  /** How many transmissions `k` waits can have led to, one that is about to be made included. */
  ghost predicate Sent(env: nat -> Round, retrans: bool, k: nat, n: nat) {
    && 1 <= n <= k + 1
    && (retrans && AlwaysLost(env, k) ==> n == k + 1)
    && (!retrans || !EverLost(env, k) ==> n == 1)
  }

  lemma SentGrows(env: nat -> Round, retrans: bool, k: nat, n: nat)
    requires Sent(env, retrans, k, n)
    ensures Sent(env, retrans, k + 1, if retrans && env(k).lost then n + 1 else n)
  {
  }

  /** Before wait `k`: the final deadline lies ahead, or it has been waited for, the last wait having ended at
      `last`, or its seconds have been 0 from the start. */
  ghost predicate Phase(
      to: int32, start: nat, k: nat, currTo: int32, time: nat, final: Timespec, last: int, punctual: bool)
  {
    if final.sec != 0 then
      Going(to, start, k, currTo, time, final) && (punctual ==> OnTime(to, start, k, time, final))
    else if k == 0 then
      0 <= FinalTime(start, to) <= SECOND
    else
      k <= Doublings(to) + 1 && (punctual ==> k == Doublings(to) + 1) && time >= last == FinalTime(start, to)
  }

  /** The loop's variables, with what it has waited for and shifted to so far. */
  datatype Loop = Loop(
    transmit: bool, transmissions: nat, waits: seq<Wait>, shifts: seq<int32>,
    currTo: int32, time: nat, final: Timespec)

  function SentBy(l: Loop): (n: nat) { l.transmissions + if l.transmit then 1 else 0 }

  ghost predicate Lists(to: int32, start: nat, env: nat -> Round, l: Loop) {
    && |l.shifts| == |l.waits| && NoReply(env, |l.waits|)
    && AllRight(l.waits, FinalTime(start, to)) && ShiftsAreRight(l.shifts, to)
  }

  ghost predicate PhaseOf(to: int32, start: nat, env: nat -> Round, l: Loop) {
    var k := |l.waits|;
    var last := if k == 0 then 0 else l.waits[k - 1].deadline;
    Phase(to, start, k, l.currTo, l.time, l.final, last, Punctual(env, k))
  }

  ghost predicate LoopOk(to: int32, start: nat, retrans: bool, env: nat -> Round, l: Loop) {
    Lists(to, start, env, l) && PhaseOf(to, start, env, l) && Sent(env, retrans, |l.waits|, SentBy(l))
  }

  function Left(to: int32, start: nat, l: Loop): (n: nat) {
    if l.final.sec == 0 then 0 else 1 + Max(0, FinalTime(start, to) - l.time)
  }

  /** A pass that ends with a reply: the last wait is the one it came in. */
  ghost predicate RepliedIn(to: int32, start: nat, retrans: bool, env: nat -> Round, l: Loop) {
    var k := |l.waits| - 1;
    && k >= 0 && k <= Doublings(to) && env(k).replied && NoReply(env, k) && Sent(env, retrans, k, l.transmissions)
    && |l.shifts| == k && AllRight(l.waits, FinalTime(start, to)) && ShiftsAreRight(l.shifts, to)
  }

  /** One pass of the loop after its transmission. */
  method OnePass(to: int32, ghost start: nat, retrans: bool, env: nat -> Round, l: Loop)
    returns (l': Loop, replied: bool)
    requires LoopOk(to, start, retrans, env, l) && l.final.sec != 0 && !l.transmit
    ensures replied ==> RepliedIn(to, start, retrans, env, l')
    ensures !replied ==> LoopOk(to, start, retrans, env, l') && Left(to, start, l') < Left(to, start, l)
  {
    ghost var k := |l.waits|;
    var round := env(|l.waits|);
    var w, currTo, time, final := WaitOnce(to, start, k, l.currTo, l.time, l.final, round, Punctual(env, k + 1));
    OneMoreWait(l.waits, w, FinalTime(start, to));
    var waits := l.waits + [w];
    if round.replied { return l.(waits := waits), true; }
    OneMoreShift(l.shifts, currTo, to);
    SentGrows(env, retrans, k, l.transmissions);
    l' := Loop(retrans && round.lost, l.transmissions, waits, l.shifts + [currTo], currTo, time, final);
    replied := false;
    assert |l'.waits| == k + 1;
  }

  /** The retransmission loop of a call with timeout `to` begun at time `start`.  It ends whatever the
      environment does, after at most `Doublings(to) + 1` waits and one more transmission than waits; a
      punctual environment that always loses the connection attains both.  Every wait is right, and so is the
      timeout after every doubling (`shifts`), which for all but the largest timeouts is the doubled one.  A
      call that gives up has waited until its final deadline, unless that deadline fell into the first second
      of the epoch, which the code takes for its stop mark. */
  method RetransmissionLoop(to: int32, start: nat, retrans: bool, env: nat -> Round)
    returns (ending: Ending, transmissions: nat, waits: seq<Wait>, shifts: seq<int32>, time: nat)
    ensures ending == Aborted <==> Fails(start, to)
    ensures |waits| <= Doublings(to) + 1 && transmissions <= Doublings(to) + 2
    ensures AllRight(waits, FinalTime(start, to)) && ShiftsAreRight(shifts, to)
    ensures to < WRAPPING_TO ==> forall k :: 0 <= k < |shifts| ==> shifts[k] == TO_MIN * Pow2(k + 1)
    ensures ending == TimedOut ==> Sent(env, retrans, |waits|, transmissions) && NoReply(env, |waits|)
    ensures ending == TimedOut ==> |shifts| == |waits|
    ensures ending == TimedOut && waits != [] && Punctual(env, |waits|) ==> |waits| == Doublings(to) + 1
    ensures ending == TimedOut && waits != [] ==> time >= waits[|waits| - 1].deadline == FinalTime(start, to)
    ensures ending == TimedOut && waits == [] ==> 0 <= FinalTime(start, to) <= SECOND
    ensures ending == Replied ==> |shifts| == |waits| - 1 && Sent(env, retrans, |shifts|, transmissions)
    ensures ending == Replied ==> env(|shifts|).replied && NoReply(env, |shifts|)
  {
    var added := FinalDeadline(start, to);
    if added.None? { return Aborted, 0, [], [], start; }
    var l := Loop(true, 0, [], [], TO_MIN, start, added.value);
    while true
      invariant LoopOk(to, start, retrans, env, l)
      decreases Left(to, start, l)
    {
      if l.transmit {
        l := l.(transmissions := l.transmissions + 1, transmit := false);
      }
      if l.final.sec == 0 { return TimedOut, l.transmissions, l.waits, l.shifts, l.time; }
      var replied;
      l, replied := OnePass(to, start, retrans, env, l);
      if replied { return Replied, l.transmissions, l.waits, l.shifts, l.time; }
    }
  }

  /** The doubled timeout stays within 32 bits in every call with a smaller timeout, and in some call with each
      larger one it does not: without delays and without a reply, the last shift of these gives a negative
      timeout. */
  method LastShiftWraps(to: int32) returns (shifts: seq<int32>)
    requires to >= WRAPPING_TO
    ensures |shifts| == 22 && shifts[21] == -100_663_296
    ensures forall k :: 0 <= k < 21 ==> shifts[k] == TO_MIN * Pow2(k + 1)
  {
    var env := (k: nat) => Round(0, false, 0, false);
    var ending, transmissions, waits, time;
    ending, transmissions, waits, shifts, time := RetransmissionLoop(to, SECOND, false, env);
    AlwaysPunctual(env, |waits|);
    Pow2Of21();
    assert Pow2(22) == 2 * Pow2(21);
    DoublingsAreExact(to, 21);
    UsedTimeoutFits(to, Doublings(to));
    assert ShiftIsRight(shifts[21], 21, to);
  }

  lemma {:induction false} AlwaysPunctual(env: nat -> Round, k: nat)
    requires forall j :: env(j).busy == env(j).late == 0
    ensures Punctual(env, k)
  {
    if k == 0 {
    } else {
      AlwaysPunctual(env, k - 1);
    }
  }
}
