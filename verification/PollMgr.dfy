/**
 The poll manager (rpc/pollmgr.cc:45-126, with `wait_ready` at 217-257): one thread waits for
 descriptors to become ready and calls their callbacks without holding `m_`, while other threads add
 and remove callbacks under `m_`.

 In the step system a step is a stretch of code that other threads see as one change.  `add_callback`,
 `del_callback` and the first half of `block_remove_fd` are two steps each, because the poll thread can
 copy the watch sets and read `callbacks_` while another thread is in the middle of them.
 */
module PollMgr {
  import opened Common
  import opened SelectAio

  /** `MAX_POLL_FDS` */
  const MAX_POLL_FDS: nat := 128

  // ---------------------------------------------------------------- the step system

  datatype Job = Job(fd: nat, write: bool)

  /** Where the poll thread is.  `Tested` is between the two reads of `callbacks_[fd]`; `Crashed` is a
      call through a null pointer. */
  datatype Pc =
    | Top
    | Copy
    | Selecting(snap: Fds)
    | Testing(todo: seq<Job>)
    | Tested(todo: seq<Job>)
    | InCall(todo: seq<Job>, ch: nat)
    | Crashed

  /** Who holds `m_` across a step.  `byPoll` marks a callback that changes its own registration. */
  datatype Section =
    | Free
    | Adding(fd: nat, ch: nat, byPoll: bool)
    | Deleting(fd: nat, byPoll: bool)
    | Removing(thread: nat, fd: nat)

  /** A thread inside `block_remove_fd`, at its wait or past it. */
  datatype Remover = Remover(fd: nat, awake: bool)

  datatype State = State(
    pipe: nat, fds: Fds, pipeBytes: nat, callbacks: map<nat, nat>,
    pending: bool, section: Section, removers: map<nat, Remover>, pc: Pc)

  datatype Step =
    | AddBegin(fd: nat, flag: Flag, ch: nat, byPoll: bool)
    | AddEnd
    | DelBegin(fd: nat, flag: Flag, byPoll: bool)
    | DelEnd
    | RemoveBegin(thread: nat, fd: nat)
    | RemoveWait
    | RemoveReturn(thread: nat)
    | Spurious(thread: nat)
    | LoopTop
    | CopySets
    | Select(trfds: set<nat>, twfds: set<nat>, interrupted: bool)
    | Test
    | Call
    | EndCall

  predicate ByPoll(section: Section) {
    (section.Adding? || section.Deleting?) && section.byPoll
  }

  /** `select` reports the pipe exactly when it holds a byte, and does not return empty-handed. */
  predicate MayReturn(s: State, snap: Fds, trfds: set<nat>, twfds: set<nat>) {
    && trfds <= snap.rfds && twfds <= snap.wfds
    && (s.pipe in trfds <==> s.pipe in snap.rfds && s.pipeBytes > 0)
    && (trfds != {} || twfds != {})
  }

  predicate Enabled(s: State, step: Step) {
    match step
    case AddBegin(fd, flag, ch, byPoll) =>
      s.section == Free && fd != s.pipe && fd < MAX_POLL_FDS && (byPoll ==> s.pc.InCall?)
    case AddEnd =>
      s.section.Adding? && (s.section.fd in s.callbacks ==> s.callbacks[s.section.fd] == s.section.ch)
    case DelBegin(fd, flag, byPoll) =>
      s.section == Free && fd != s.pipe && flag != Other && (byPoll ==> s.pc.InCall?)
    case DelEnd => s.section.Deleting?
    case RemoveBegin(t, fd) => s.section == Free && t !in s.removers && fd != s.pipe
    case RemoveWait => s.section.Removing?
    case RemoveReturn(t) => s.section == Free && t in s.removers && s.removers[t].awake
    case Spurious(t) => t in s.removers && !s.removers[t].awake
    case LoopTop => s.pc == Top && s.section == Free
    case CopySets => s.pc == Copy
    case Select(trfds, twfds, interrupted) =>
      s.pc.Selecting? && (interrupted || MayReturn(s, s.pc.snap, trfds, twfds))
    case Test => s.pc.Testing? && s.pc.todo != []
    case Call => s.pc.Tested? && s.pc.todo != []
    case EndCall => s.pc.InCall? && s.pc.todo != [] && !ByPoll(s.section)
  }

  function Jobs(fds: seq<nat>, write: bool): (r: seq<Job>) {
    seq(|fds|, i requires 0 <= i < |fds| => Job(fds[i], write))
  }

  /** The readable descriptors first, then the writable ones. */
  function Todo(s: State, snap: Fds, trfds: set<nat>, twfds: set<nat>): (r: seq<Job>) {
    Jobs(Reported(trfds, trfds, s.pipe, snap.high), false) + Jobs(Reported(twfds, trfds, s.pipe, snap.high), true)
  }

  function Onwards(todo: seq<Job>): (pc: Pc) { if todo == [] then Top else Testing(todo) }

  function WakeAll(removers: map<nat, Remover>): (r: map<nat, Remover>) {
    map t | t in removers :: removers[t].(awake := true)
  }

  function Apply(s: State, step: Step): (r: State)
    requires Enabled(s, step)
  {
    match step
    case AddBegin(fd, flag, ch, byPoll) =>
      s.(fds := Watch(s.fds, fd, flag), pipeBytes := s.pipeBytes + 1, section := Adding(fd, ch, byPoll))
    case AddEnd => s.(callbacks := s.callbacks[s.section.fd := s.section.ch], section := Free)
    case DelBegin(fd, flag, byPoll) =>
      s.(fds := Unwatch(s.fds, fd, flag, s.pipe),
         pipeBytes := s.pipeBytes + (if flag == RdWr then 1 else 0),
         section := if Watched(Unwatch(s.fds, fd, flag, s.pipe), fd) then Free else Deleting(fd, byPoll))
    case DelEnd => s.(callbacks := s.callbacks - {s.section.fd}, section := Free)
    case RemoveBegin(t, fd) =>
      s.(fds := Unwatch(s.fds, fd, RdWr, s.pipe), pipeBytes := s.pipeBytes + 1, section := Removing(t, fd))
    case RemoveWait =>
      s.(pending := true, removers := s.removers[s.section.thread := Remover(s.section.fd, false)],
         section := Free)
    case RemoveReturn(t) =>
      s.(callbacks := s.callbacks - {s.removers[t].fd}, removers := s.removers - {t})
    case Spurious(t) => s.(removers := s.removers[t := s.removers[t].(awake := true)])
    case LoopTop =>
      if s.pending then s.(pending := false, removers := WakeAll(s.removers), pc := Copy)
      else s.(pc := Copy)
    case CopySets => s.(pc := Selecting(s.fds))
    case Select(trfds, twfds, interrupted) =>
      if interrupted then s.(pc := Top)
      else
        s.(pipeBytes := if s.pipe in trfds && s.pipeBytes > 0 then s.pipeBytes - 1 else s.pipeBytes,
           pc := Onwards(Todo(s, s.pc.snap, trfds, twfds)))
    case Test =>
      s.(pc := if s.pc.todo[0].fd in s.callbacks then Tested(s.pc.todo) else Onwards(s.pc.todo[1..]))
    case Call =>
      var fd := s.pc.todo[0].fd;
      s.(pc := if fd in s.callbacks then InCall(s.pc.todo, s.callbacks[fd]) else Crashed)
    case EndCall => s.(pc := Onwards(s.pc.todo[1..]))
  }

  function Started(pipe: nat): (s: State) {
    State(pipe, Start(pipe), 0, map[], false, Free, map[], Top)
  }

  ghost predicate IsRun(pipe: nat, states: seq<State>, steps: seq<Step>) {
    && |states| == |steps| + 1
    && states[0] == Started(pipe)
    && forall i {:trigger steps[i]} ::
         0 <= i < |steps| ==> Enabled(states[i], steps[i]) && states[i + 1] == Apply(states[i], steps[i])
  }

  // ---------------------------------------------------------------- the sections under m_

  /** `del_callback` as the steps that make it up. */
  function AfterDel(s: State, fd: nat, flag: Flag): (r: State)
    requires Enabled(s, DelBegin(fd, flag, false))
  {
    var u := Apply(s, DelBegin(fd, flag, false));
    if u.section.Deleting? then Apply(u, DelEnd) else u
  }

  /** `block_remove_fd` up to its wait. */
  function AfterRemove(s: State, t: nat, fd: nat): (r: State)
    requires Enabled(s, RemoveBegin(t, fd))
  {
    Apply(Apply(s, RemoveBegin(t, fd)), RemoveWait)
  }

  /** The shared fields; an aio_callback is known by a number.  Each method carries out, on the fields, the
      steps that a thread takes in that section. */
  class Manager {
    var callbacks: array<Option<nat>>
    var pending: bool
    const aio: SelectAIO

    ghost predicate Valid() reads this, aio {
      callbacks.Length == MAX_POLL_FDS && aio.Valid()
    }

    /** The fields are those of state `s`. */
    ghost predicate Shows(s: State)
      requires Valid()
      reads this, aio, callbacks
    {
      && s.pipe == aio.pipe && s.fds == aio.View() && s.pipeBytes == aio.pipeBytes && s.pending == pending
      && (forall fd :: fd in s.callbacks ==> fd < MAX_POLL_FDS)
      && forall fd :: 0 <= fd < MAX_POLL_FDS ==>
           callbacks[fd] == if fd in s.callbacks then Some(s.callbacks[fd]) else None
    }

    constructor (readEnd: nat)
      ensures Valid() && fresh(callbacks) && fresh(aio) && Shows(Started(readEnd))
    {
      callbacks := new Option<nat>[MAX_POLL_FDS](i => None);
      pending := false;
      aio := new SelectAIO(readEnd);
    }

    /** `!ok` is an assertion failure; the second one comes after the descriptor is watched. */
    method AddCallback(fd: nat, flag: Flag, ch: nat, ghost s: State) returns (ok: bool)
      requires Valid() && Shows(s) && s.section == Free && fd != aio.pipe
      modifies callbacks, aio
      ensures Valid() && callbacks == old(callbacks)
      ensures ok <==> fd < MAX_POLL_FDS && Enabled(Apply(s, AddBegin(fd, flag, ch, false)), AddEnd)
      ensures ok ==> Shows(Apply(Apply(s, AddBegin(fd, flag, ch, false)), AddEnd))
      ensures !ok ==> Shows(if fd < MAX_POLL_FDS then Apply(s, AddBegin(fd, flag, ch, false)) else s)
    {
      if fd >= MAX_POLL_FDS { return false; }
      aio.WatchFd(fd, flag);
      if callbacks[fd] != None && callbacks[fd] != Some(ch) { return false; }
      callbacks[fd] := Some(ch);
      ok := true;
    }

    /** The callback goes with the last flag. */
    method DelCallback(fd: nat, flag: Flag, ghost s: State) returns (ok: bool)
      requires Valid() && Shows(s) && s.section == Free && fd != aio.pipe && fd < MAX_POLL_FDS
      modifies callbacks, aio
      ensures Valid() && callbacks == old(callbacks)
      ensures ok <==> flag != Other
      ensures Shows(if ok then AfterDel(s, fd, flag) else s)
    {
      var gone := aio.UnwatchFd(fd, flag);
      if gone == None { return false; }
      if gone == Some(true) { callbacks[fd] := None; }
      ok := true;
    }

    method HasCallback(fd: nat, flag: Flag, c: nat) returns (r: bool)
      requires Valid() && fd < MAX_POLL_FDS
      ensures r ==> callbacks[fd] == Some(c)
      ensures callbacks[fd] == Some(c) ==>
        (r <==> (flag != WrOnly ==> fd in aio.rfds) && (flag != RdOnly ==> fd in aio.wfds))
    {
      if callbacks[fd] == None || callbacks[fd] != Some(c) { return false; }
      r := aio.IsWatched(fd, flag);
    }

    /** `block_remove_fd` up to its wait, in thread `t`. */
    method BeginRemove(fd: nat, ghost t: nat, ghost s: State)
      requires Valid() && Shows(s) && Enabled(s, RemoveBegin(t, fd))
      modifies this`pending, aio
      ensures Valid() && Shows(AfterRemove(s, t, fd))
    {
      var gone := aio.UnwatchFd(fd, RdWr);
      pending := true;
    }

    /** The rest of it. */
    method EndRemove(fd: nat, ghost t: nat, ghost s: State)
      requires Valid() && Shows(s) && Enabled(s, RemoveReturn(t)) && s.removers[t].fd == fd < MAX_POLL_FDS
      modifies callbacks
      ensures Valid() && Shows(Apply(s, RemoveReturn(t)))
    {
      callbacks[fd] := None;
    }

    /** The head of `wait_loop`: `broadcast` tells whether the waiting removers are woken. */
    method TakeChanges(ghost s: State) returns (broadcast: bool)
      requires Valid() && Shows(s) && Enabled(s, LoopTop)
      modifies this`pending
      ensures Valid() && Shows(Apply(s, LoopTop))
      ensures Apply(s, LoopTop).removers == if broadcast then WakeAll(s.removers) else s.removers
    {
      broadcast := false;
      if pending {
        pending := false;
        broadcast := true;
      }
    }
  }

  // ---------------------------------------------------------------- no late callback

  predicate HasJob(todo: seq<Job>, fd: nat) { exists i :: 0 <= i < |todo| && todo[i].fd == fd }

  /** The poll thread may still come to a callback of `fd` without looking at the watch sets again. */
  predicate InView(pc: Pc, fd: nat) {
    match pc
    case Selecting(snap) => Watched(snap, fd)
    case Testing(todo) => HasJob(todo, fd)
    case Tested(todo) => HasJob(todo, fd)
    case InCall(todo, ch) => HasJob(todo, fd)
    case _ => false
  }

  /** `read_cb` or `write_cb` of `fd` is running. */
  predicate Calls(s: State, fd: nat) { s.pc.InCall? && s.pc.todo != [] && s.pc.todo[0].fd == fd }

  predicate Quiet(s: State, fd: nat) { !Watched(s.fds, fd) && !InView(s.pc, fd) }

  /** `t` is past the unwatching in `block_remove_fd(fd)`; once it is awake, `fd` is quiet. */
  predicate Leaving(s: State, t: nat, fd: nat) {
    && !Watched(s.fds, fd)
    && (s.section == Removing(t, fd)
        || (&& t in s.removers && s.removers[t].fd == fd
            && !(s.section.Removing? && s.section.thread == t)
            && (s.removers[t].awake ==> !InView(s.pc, fd))))
  }

  lemma OnwardsView(todo: seq<Job>, fd: nat)
    ensures InView(Onwards(todo), fd) ==> HasJob(todo, fd)
    ensures todo != [] && HasJob(todo[1..], fd) ==> HasJob(todo, fd)
  {
    if todo != [] && HasJob(todo[1..], fd) {
      var i :| 0 <= i < |todo[1..]| && todo[1..][i].fd == fd;
      assert todo[i + 1].fd == fd;
    }
  }

  lemma ReportedWasReady(ready: set<nat>, trfds: set<nat>, pipe: nat, high: nat, i: nat)
    requires i < |Reported(ready, trfds, pipe, high)|
    ensures Reported(ready, trfds, pipe, high)[i] in ready
  {
    AscendingLists(if pipe in trfds then ready - {pipe} else ready, high + 1);
    assert Reported(ready, trfds, pipe, high)[i] in Reported(ready, trfds, pipe, high);
  }

  lemma TodoWasReady(s: State, snap: Fds, trfds: set<nat>, twfds: set<nat>, fd: nat)
    requires HasJob(Todo(s, snap, trfds, twfds), fd)
    ensures fd in trfds || fd in twfds
  {
    var todo := Todo(s, snap, trfds, twfds);
    var i :| 0 <= i < |todo| && todo[i].fd == fd;
    var n := |Reported(trfds, trfds, s.pipe, snap.high)|;
    if i < n {
      ReportedWasReady(trfds, trfds, s.pipe, snap.high, i);
    } else {
      ReportedWasReady(twfds, trfds, s.pipe, snap.high, i - n);
    }
  }

  /** The poll thread sees nothing new except by copying the watch sets. */
  lemma ViewShrinks(s: State, step: Step, fd: nat)
    requires Enabled(s, step) && !step.CopySets?
    ensures InView(Apply(s, step).pc, fd) ==> InView(s.pc, fd)
  {
    match step
    case Select(trfds, twfds, interrupted) =>
      if !interrupted {
        var todo := Todo(s, s.pc.snap, trfds, twfds);
        OnwardsView(todo, fd);
        if HasJob(todo, fd) { TodoWasReady(s, s.pc.snap, trfds, twfds, fd); }
      }
    case Test => OnwardsView(s.pc.todo, fd); OnwardsView(s.pc.todo[1..], fd);
    case EndCall => OnwardsView(s.pc.todo, fd); OnwardsView(s.pc.todo[1..], fd);
    case _ =>
  }

  lemma UnwatchedStays(s: State, step: Step, fd: nat)
    requires Enabled(s, step) && !Watched(s.fds, fd)
    requires !(step.AddBegin? && step.fd == fd)
    ensures !Watched(Apply(s, step).fds, fd)
  {
  }

  lemma QuietStays(s: State, step: Step, fd: nat)
    requires Enabled(s, step) && Quiet(s, fd)
    requires !(step.AddBegin? && step.fd == fd)
    ensures Quiet(Apply(s, step), fd)
  {
    UnwatchedStays(s, step, fd);
    if step != CopySets { ViewShrinks(s, step, fd); }
  }

  lemma LeavingStays(s: State, step: Step, t: nat, fd: nat)
    requires Enabled(s, step) && Leaving(s, t, fd)
    requires !(step.AddBegin? && step.fd == fd) && step != RemoveReturn(t) && step != Spurious(t)
    ensures Leaving(Apply(s, step), t, fd)
  {
    UnwatchedStays(s, step, fd);
    if step != CopySets { ViewShrinks(s, step, fd); }
  }

  lemma {:induction false} LeavingLasts(
      pipe: nat, states: seq<State>, steps: seq<Step>, e: nat, i: nat, t: nat, fd: nat)
    requires IsRun(pipe, states, steps) && e < i <= |steps| && steps[e] == RemoveBegin(t, fd)
    requires forall k :: e < k < i ==> steps[k] != RemoveReturn(t) && steps[k] != Spurious(t)
    requires forall k :: e < k < i ==> !(steps[k].AddBegin? && steps[k].fd == fd)
    ensures Leaving(states[i], t, fd)
  {
    if i > e + 1 {
      LeavingLasts(pipe, states, steps, e, i - 1, t, fd);
      LeavingStays(states[i - 1], steps[i - 1], t, fd);
    } else {
      assert Enabled(states[e], steps[e]);
    }
  }

  lemma {:induction false} QuietLasts(pipe: nat, states: seq<State>, steps: seq<Step>, i: nat, j: nat, fd: nat)
    requires IsRun(pipe, states, steps) && i <= j <= |steps| && Quiet(states[i], fd)
    requires forall k :: i <= k < j ==> !(steps[k].AddBegin? && steps[k].fd == fd)
    ensures Quiet(states[j], fd)
  {
    if i == j {
    } else {
      QuietLasts(pipe, states, steps, i, j - 1, fd);
      QuietStays(states[j - 1], steps[j - 1], fd);
    }
  }

  /** What `block_remove_fd` promises.  Thread `t` enters it at step `e` and returns at step `i`; as long
      as nobody adds `fd` again, no callback of `fd` is running at any later state `j`, whatever the poll
      thread and any number of other removers do in between. */
  lemma NoLateCallback(
      pipe: nat, states: seq<State>, steps: seq<Step>, e: nat, i: nat, j: nat, t: nat, fd: nat)
    requires IsRun(pipe, states, steps) && e < i < j <= |steps|
    requires steps[e] == RemoveBegin(t, fd) && steps[i] == RemoveReturn(t)
    requires forall k :: e < k < i ==> steps[k] != RemoveReturn(t) && steps[k] != Spurious(t)
    requires forall k :: e < k < j ==> !(steps[k].AddBegin? && steps[k].fd == fd)
    ensures !Calls(states[j], fd) && !Watched(states[j].fds, fd)
  {
    LeavingLasts(pipe, states, steps, e, i, t, fd);
    assert Enabled(states[i], steps[i]);
    assert Quiet(states[i], fd) by { NotRemoving(states[i], t, fd); }
    QuietLasts(pipe, states, steps, i, j, fd);
    CallIsInView(states[j], fd);
  }

  lemma NotRemoving(s: State, t: nat, fd: nat)
    requires Leaving(s, t, fd) && Enabled(s, RemoveReturn(t))
    ensures Quiet(s, fd)
  {
  }

  lemma CallIsInView(s: State, fd: nat)
    ensures Calls(s, fd) ==> InView(s.pc, fd)
  {
    if Calls(s, fd) { assert s.pc.todo[0].fd == fd; }
  }

  // ---------------------------------------------------------------- exactly when there is no late callback

  /** `fd` has no callback and is not about to get one. */
  predicate Gone(s: State, fd: nat) {
    fd !in s.callbacks && !(s.section.Adding? && s.section.fd == fd)
  }

  /** The poll thread has tested `callbacks_[fd]` and is about to read it again. */
  predicate HeadTested(pc: Pc, fd: nat) { pc.Tested? && pc.todo != [] && pc.todo[0].fd == fd }

  /** Without a callback for `fd`, no call of it starts and no test of it succeeds. */
  lemma GoneStays(s: State, step: Step, fd: nat)
    requires Enabled(s, step) && Gone(s, fd) && !(step.AddBegin? && step.fd == fd)
    ensures Gone(Apply(s, step), fd)
    ensures Calls(Apply(s, step), fd) ==> Calls(s, fd)
    ensures HeadTested(Apply(s, step).pc, fd) ==> s.pc == Apply(s, step).pc
    ensures HeadTested(s.pc, fd) ==>
      (if PollStep(step) then step == Call && Apply(s, step).pc == Crashed else Apply(s, step).pc == s.pc)
  {
  }

  /** Step `i` is the return of `block_remove_fd(fd)` in thread `t`, however its wait ended, and nobody adds `fd`
      before step `n`. */
  ghost predicate Returns(states: seq<State>, steps: seq<Step>, i: nat, n: nat, t: nat, fd: nat)
    requires |states| == |steps| + 1
  {
    && i < n <= |steps| && steps[i] == RemoveReturn(t)
    && t in states[i].removers && states[i].removers[t].fd == fd
    && forall k :: i < k < n ==> !(steps[k].AddBegin? && steps[k].fd == fd)
  }

  lemma {:induction false} GoneLasts(
      pipe: nat, states: seq<State>, steps: seq<Step>, i: nat, j: nat, n: nat, t: nat, fd: nat)
    requires IsRun(pipe, states, steps) && Returns(states, steps, i, n, t, fd) && i < j <= n
    ensures Gone(states[j], fd)
    ensures Calls(states[j], fd) ==> Calls(states[i], fd)
    ensures HeadTested(states[j].pc, fd) ==> states[i].pc == states[j].pc
  {
    if j == i + 1 {
      assert Enabled(states[i], steps[i]);
    } else {
      GoneLasts(pipe, states, steps, i, j - 1, n, t, fd);
      assert Enabled(states[j - 1], steps[j - 1]);
      GoneStays(states[j - 1], steps[j - 1], fd);
    }
  }

  /** The exact condition, with spurious wakeups allowed: after `block_remove_fd` has returned no callback of
      `fd` is running at any time, if and only if none was running at the return. */
  lemma LateCallbackIff(pipe: nat, states: seq<State>, steps: seq<Step>, i: nat, n: nat, t: nat, fd: nat)
    requires IsRun(pipe, states, steps) && Returns(states, steps, i, n, t, fd)
    ensures (forall j :: i < j <= n ==> !Calls(states[j], fd)) <==> !Calls(states[i], fd)
  {
    assert Enabled(states[i], steps[i]) && states[i + 1].pc == states[i].pc;
    assert Calls(states[i], fd) ==> Calls(states[i + 1], fd);
    forall j | i < j <= n ensures Calls(states[j], fd) ==> Calls(states[i], fd) {
      GoneLasts(pipe, states, steps, i, j, n, t, fd);
    }
  }

  /** At step `j` the poll thread calls the callback of `fd` through the null pointer. */
  ghost predicate CallsNull(states: seq<State>, steps: seq<Step>, j: int, fd: nat)
    requires |states| == |steps| + 1
  {
    0 <= j < |steps| && steps[j] == Call && HeadTested(states[j].pc, fd) && states[j + 1].pc == Crashed
  }

  lemma {:induction false} TestedThenNull(
      pipe: nat, states: seq<State>, steps: seq<Step>, i: nat, j: nat, n: nat, t: nat, fd: nat)
    requires IsRun(pipe, states, steps) && Returns(states, steps, i, n, t, fd) && i < j <= n
    requires HeadTested(states[i].pc, fd)
    ensures states[j].pc == states[i].pc || exists k :: i < k < j && CallsNull(states, steps, k, fd)
    ensures states[j].pc == states[i].pc ==> forall k :: i < k < j ==> !PollStep(steps[k])
  {
    if j == i + 1 {
      assert Enabled(states[i], steps[i]);
    } else {
      var k := j - 1;
      TestedThenNull(pipe, states, steps, i, k, n, t, fd);
      GoneLasts(pipe, states, steps, i, k, n, t, fd);
      assert Enabled(states[k], steps[k]);
      GoneStays(states[k], steps[k], fd);
      if states[k].pc == states[i].pc && PollStep(steps[k]) {
        assert CallsNull(states, steps, k, fd);
      } else if states[k].pc != states[i].pc {
        GoneLasts(pipe, states, steps, i, j, n, t, fd);
      }
    }
  }

  /** The return makes the poll thread call through the null pointer, the next time it runs, if and only if it
      came between the two reads of `callbacks_[fd]`. */
  lemma NullCallIff(
      pipe: nat, states: seq<State>, steps: seq<Step>, i: nat, p: nat, n: nat, t: nat, fd: nat)
    requires IsRun(pipe, states, steps) && Returns(states, steps, i, n, t, fd)
    requires i < p < n && PollStep(steps[p])
    ensures (exists j :: i < j < n && CallsNull(states, steps, j, fd)) <==> HeadTested(states[i].pc, fd)
  {
    if HeadTested(states[i].pc, fd) {
      TestedThenNull(pipe, states, steps, i, n, n, t, fd);
    }
    forall j | i < j < n && CallsNull(states, steps, j, fd) ensures HeadTested(states[i].pc, fd) {
      GoneLasts(pipe, states, steps, i, j, n, t, fd);
    }
  }

  // ---------------------------------------------------------------- nobody is stranded

  predicate Waits(s: State, t: nat) { t in s.removers && !s.removers[t].awake }

  /** A waiting remover has left `pending_change_` set, and until the poll thread gets back to the top of
      its loop there is a byte in the pipe to get it out of `select`. */
  ghost predicate Inv(s: State) {
    && s.pipe in s.fds.rfds
    && (s.pc.Selecting? ==> s.pipe in s.pc.snap.rfds)
    && (s.pc.Testing? || s.pc.Tested? || s.pc.InCall? ==> s.pc.todo != [])
    && (ByPoll(s.section) ==> s.pc.InCall?)
    && (forall t :: Waits(s, t) ==> s.pending)
    && (s.pending || s.section.Removing? ==> (s.pc.Copy? || s.pc.Selecting? ==> s.pipeBytes > 0))
  }

  lemma StepKeeps(s: State, step: Step)
    requires Inv(s) && Enabled(s, step)
    ensures Inv(Apply(s, step)) && Apply(s, step).pipe == s.pipe
  {
    var s' := Apply(s, step);
    assert forall t :: Waits(s', t) ==> Waits(s, t) || step.RemoveWait?;
  }

  lemma {:induction false} RunKeeps(pipe: nat, states: seq<State>, steps: seq<Step>, k: nat)
    requires IsRun(pipe, states, steps) && k < |states|
    ensures Inv(states[k])
  {
    if k == 0 {
    } else {
      RunKeeps(pipe, states, steps, k - 1);
      StepKeeps(states[k - 1], steps[k - 1]);
    }
  }

  predicate PollStep(step: Step) {
    step.LoopTop? || step.CopySets? || step.Select? || step.Test? || step.Call? || step.EndCall?
  }

  function Stage(pc: Pc): (n: nat) {
    match pc
    case Copy => 3
    case Selecting(_) => 2
    case Testing(_) => 1
    case Tested(_) => 1
    case InCall(_, _) => 1
    case _ => 0
  }

  function Left(pc: Pc): (n: nat) {
    match pc
    case Testing(todo) => 3 * |todo|
    case Tested(todo) => if todo == [] then 0 else 3 * |todo| - 1
    case InCall(todo, ch) => if todo == [] then 0 else 3 * |todo| - 2
    case _ => 0
  }

  /** The poll thread is closer to the top of its loop at `b` than at `a`. */
  predicate Closer(b: Pc, a: Pc) { Stage(b) < Stage(a) || (Stage(b) == Stage(a) && Left(b) < Left(a)) }

  /** What the poll thread does next. */
  function NextPollStep(s: State): (step: Step) {
    match s.pc
    case Top => LoopTop
    case Copy => CopySets
    case Selecting(_) => Select({s.pipe}, {}, false)
    case Testing(_) => Test
    case Tested(_) => Call
    case _ => EndCall
  }

  /** While somebody waits in `block_remove_fd`, the poll thread is not blocked in `select`: unless a
      thread is inside a section of `m_` it can take its next step.  Every poll step but `LoopTop` brings
      it closer to the top, no other thread moves it, and `LoopTop` wakes everyone. */
  lemma WaitEnds(pipe: nat, states: seq<State>, steps: seq<Step>, k: nat, t: nat)
    requires IsRun(pipe, states, steps) && k < |states|
    requires Waits(states[k], t) && !states[k].pc.Crashed?
    ensures states[k].section == Free ==> Enabled(states[k], NextPollStep(states[k]))
    ensures k < |steps| && PollStep(steps[k]) && steps[k] != LoopTop ==>
      states[k + 1].pc.Crashed? || Closer(states[k + 1].pc, states[k].pc)
    ensures k < |steps| && !PollStep(steps[k]) ==> states[k + 1].pc == states[k].pc
    ensures k < |steps| && steps[k] == LoopTop ==> t in states[k + 1].removers && states[k + 1].removers[t].awake
  {
    RunKeeps(pipe, states, steps, k);
    if k < |steps| { assert Enabled(states[k], steps[k]); }
  }

  // ---------------------------------------------------------------- how long a remover waits

  /** Only descriptors below the limit are watched, apart from the pipe, which is watched for reading only. */
  ghost predicate Limited(f: Fds, pipe: nat) {
    && (forall fd: nat :: Watched(f, fd) ==> fd == pipe || fd < MAX_POLL_FDS)
    && pipe !in f.wfds
  }

  /** The poll thread has no more to do than both lists can hold. */
  ghost predicate Bounded(s: State) {
    && Limited(s.fds, s.pipe)
    && (s.pc.Selecting? ==> Limited(s.pc.snap, s.pipe))
    && (s.pc.Testing? || s.pc.Tested? || s.pc.InCall? ==> 0 < |s.pc.todo| <= 2 * MAX_POLL_FDS)
  }

  lemma {:induction false} AscendingIsShort(s: set<nat>, n: nat, m: nat)
    requires forall x :: x in s ==> x < m
    ensures |Ascending(s, n)| <= if n < m then n else m
  {
    if n == 0 {
    } else {
      AscendingIsShort(s, n - 1, m);
    }
  }

  lemma TodoIsShort(s: State, snap: Fds, trfds: set<nat>, twfds: set<nat>)
    requires Limited(snap, s.pipe) && trfds <= snap.rfds && twfds <= snap.wfds
    ensures |Todo(s, snap, trfds, twfds)| <= 2 * MAX_POLL_FDS
  {
    var toRead := if s.pipe in trfds then trfds - {s.pipe} else trfds;
    var toWrite := if s.pipe in trfds then twfds - {s.pipe} else twfds;
    assert forall fd :: fd in trfds || fd in twfds ==> Watched(snap, fd);
    AscendingIsShort(toRead, snap.high + 1, MAX_POLL_FDS);
    AscendingIsShort(toWrite, snap.high + 1, MAX_POLL_FDS);
  }

  lemma LimitedStays(s: State, step: Step)
    requires Enabled(s, step) && Limited(s.fds, s.pipe)
    ensures Limited(Apply(s, step).fds, s.pipe)
  {
    var t := Apply(s, step);
    assert forall fd: nat :: Watched(t.fds, fd) ==> Watched(s.fds, fd) || (step.AddBegin? && fd == step.fd);
  }

  lemma BoundedStays(s: State, step: Step)
    requires Enabled(s, step) && Bounded(s)
    ensures Bounded(Apply(s, step)) && Apply(s, step).pipe == s.pipe
  {
    LimitedStays(s, step);
    if step.Select? && !step.interrupted { TodoIsShort(s, s.pc.snap, step.trfds, step.twfds); }
  }

  lemma {:induction false} AlwaysBounded(pipe: nat, states: seq<State>, steps: seq<Step>, k: nat)
    requires IsRun(pipe, states, steps) && k < |states|
    ensures Bounded(states[k])
  {
    if k == 0 {
    } else {
      AlwaysBounded(pipe, states, steps, k - 1);
      assert Enabled(states[k - 1], steps[k - 1]);
      BoundedStays(states[k - 1], steps[k - 1]);
    }
  }

  /** Copying, selecting, and three steps for every job of full lists. */
  const MAX_POLL_STEPS: nat := 2 + 3 * 2 * MAX_POLL_FDS

  /** The steps the poll thread can still take before it is back at the top of its loop. */
  function Rank(pc: Pc): (n: nat) {
    match pc
    case Copy => MAX_POLL_STEPS
    case Selecting(_) => MAX_POLL_STEPS - 1
    case _ => Left(pc)
  }

  lemma RankDrops(s: State, step: Step)
    requires Enabled(s, step) && Bounded(s) && step != LoopTop
    ensures Rank(s.pc) <= MAX_POLL_STEPS
    ensures if PollStep(step) then Rank(Apply(s, step).pc) < Rank(s.pc) else Apply(s, step).pc == s.pc
  {
    if step.Select? && !step.interrupted { TodoIsShort(s, s.pc.snap, step.trfds, step.twfds); }
  }

  function PollStepsIn(steps: seq<Step>, i: nat, j: nat): (n: nat)
    requires i <= j <= |steps|
  {
    if i == j then 0 else PollStepsIn(steps, i, j - 1) + if PollStep(steps[j - 1]) then 1 else 0
  }

  lemma {:induction false} RankAddsUp(
      pipe: nat, states: seq<State>, steps: seq<Step>, i: nat, j: nat, t: nat)
    requires IsRun(pipe, states, steps) && i <= j < |states|
    requires forall k :: i <= k <= j ==> Waits(states[k], t)
    ensures PollStepsIn(steps, i, j) + Rank(states[j].pc) <= Rank(states[i].pc)
  {
    if i == j {
    } else {
      var k := j - 1;
      RankAddsUp(pipe, states, steps, i, k, t);
      AlwaysBounded(pipe, states, steps, k);
      RunKeeps(pipe, states, steps, k);
      assert Waits(states[k], t) && Waits(states[j], t) && Enabled(states[k], steps[k]);
      RankDrops(states[k], steps[k]);
    }
  }

  /** In every run, a thread that waits in `block_remove_fd` sees at most a fixed number of steps of the poll
      thread before the one that wakes it, however many descriptors are ready and whatever others do. */
  lemma WaitIsBounded(pipe: nat, states: seq<State>, steps: seq<Step>, i: nat, j: nat, t: nat)
    requires IsRun(pipe, states, steps) && i <= j < |states|
    requires forall k :: i <= k <= j ==> Waits(states[k], t)
    ensures PollStepsIn(steps, i, j) <= MAX_POLL_STEPS
  {
    RankAddsUp(pipe, states, steps, i, j, t);
    AlwaysBounded(pipe, states, steps, i);
  }

  // ---------------------------------------------------------------- no call through a null pointer

  /** Only callbacks call `del_callback`, nobody adds a descriptor that is being removed, and no wait
      ends by itself. */
  predicate Disciplined(s: State, step: Step) {
    && !(step.DelBegin? && !step.byPoll)
    && !step.Spurious?
    && (step.AddBegin? ==> forall t :: t in s.removers ==> s.removers[t].fd != step.fd)
  }

  ghost predicate Orderly(s: State) {
    && (s.section.Deleting? ==> s.section.byPoll)
    && (s.section.Removing? ==> !Watched(s.fds, s.section.fd))
    && (forall t :: t in s.removers ==> Leaving(s, t, s.removers[t].fd))
    && (s.pc.Tested? && s.pc.todo != [] ==> s.pc.todo[0].fd in s.callbacks)
    && !s.pc.Crashed?
  }

  lemma RemoverStays(s: State, step: Step, t: nat)
    requires Orderly(s) && Enabled(s, step) && Disciplined(s, step)
    requires t in Apply(s, step).removers
    ensures Leaving(Apply(s, step), t, Apply(s, step).removers[t].fd)
  {
    var s' := Apply(s, step);
    if t in s.removers && !(step.RemoveWait? && s.section.thread == t) {
      LeavingStays(s, step, t, s.removers[t].fd);
    }
  }

  lemma TestedHolds(s: State, step: Step)
    requires Inv(s) && Orderly(s) && Enabled(s, step)
    ensures var s' := Apply(s, step); s'.pc.Tested? ==> s'.pc.todo != [] && s'.pc.todo[0].fd in s'.callbacks
  {
    var s' := Apply(s, step);
    if step.RemoveReturn? && s.pc.Tested? {
      NotRemoving(s, step.thread, s.removers[step.thread].fd);
      assert HasJob(s.pc.todo, s.pc.todo[0].fd);
    }
  }

  lemma OrderlyStays(s: State, step: Step)
    requires Inv(s) && Orderly(s) && Enabled(s, step) && Disciplined(s, step)
    ensures Orderly(Apply(s, step))
  {
    var s' := Apply(s, step);
    forall t | t in s'.removers ensures Leaving(s', t, s'.removers[t].fd) { RemoverStays(s, step, t); }
    TestedHolds(s, step);
  }

  /** The unlocked double read of `callbacks_[fd]` is safe in every run of that kind. */
  lemma {:induction false} NeverCallsNull(pipe: nat, states: seq<State>, steps: seq<Step>, k: nat)
    requires IsRun(pipe, states, steps) && k < |states|
    requires forall i :: 0 <= i < |steps| ==> Disciplined(states[i], steps[i])
    ensures Orderly(states[k]) && !states[k].pc.Crashed?
  {
    if k == 0 {
    } else {
      NeverCallsNull(pipe, states, steps, k - 1);
      RunKeeps(pipe, states, steps, k - 1);
      OrderlyStays(states[k - 1], steps[k - 1]);
    }
  }

  // ---------------------------------------------------------------- a wait that ends by itself

  lemma {:induction false} AscendingOne(fd: nat, n: nat)
    ensures Ascending({fd}, n) == if fd < n then [fd] else []
    ensures Ascending({}, n) == []
  {
    if n == 0 {
    } else {
      AscendingOne(fd, n - 1);
    }
  }

  lemma OneReady(s: State, snap: Fds, fd: nat)
    requires s.pipe != fd <= snap.high
    ensures Todo(s, snap, {s.pipe, fd}, {}) == [Job(fd, false)]
  {
    AscendingOne(fd, snap.high + 1);
    assert {s.pipe, fd} - {s.pipe} == {fd};
    assert {} - {s.pipe} == {};
  }

  lemma Extend(pipe: nat, states: seq<State>, steps: seq<Step>, step: Step)
    returns (states': seq<State>, steps': seq<Step>)
    requires IsRun(pipe, states, steps) && Enabled(states[|steps|], step)
    ensures states' == states + [Apply(states[|steps|], step)] && steps' == steps + [step]
    ensures IsRun(pipe, states', steps')
  {
    states', steps' := states + [Apply(states[|steps|], step)], steps + [step];
    forall i | 0 <= i < |steps'|
      ensures Enabled(states'[i], steps'[i]) && states'[i + 1] == Apply(states'[i], steps'[i])
    {
      if i < |steps| { assert Enabled(states[i], steps[i]); }
    }
  }

  /** A run that brings the poll thread between its two reads of `callbacks_[fd]`. */
  lemma CallbackTested(pipe: nat, fd: nat, ch: nat) returns (states: seq<State>, steps: seq<Step>)
    requires pipe < fd < MAX_POLL_FDS
    ensures IsRun(pipe, states, steps) && |steps| == 6
    ensures states[6] ==
      State(pipe, Fds({pipe, fd}, {}, fd), 0, map[fd := ch], false, Free, map[], Tested([Job(fd, false)]))
  {
    states, steps := [Started(pipe)], [];
    states, steps := Extend(pipe, states, steps, AddBegin(fd, RdOnly, ch, false));
    assert states[1].fds == Fds({pipe, fd}, {}, fd);
    states, steps := Extend(pipe, states, steps, AddEnd);
    assert states[2].callbacks == map[fd := ch];
    states, steps := Extend(pipe, states, steps, LoopTop);
    states, steps := Extend(pipe, states, steps, CopySets);
    var s := states[4];
    OneReady(s, s.fds, fd);
    states, steps := Extend(pipe, states, steps, Select({pipe, fd}, {}, false));
    assert states[5].pc == Testing([Job(fd, false)]);
    states, steps := Extend(pipe, states, steps, Test);
  }

  /** `block_remove_fd` has no loop around its wait: if the wait ends by itself while the callback is
      running, the function returns and the callback is still running. */
  lemma WaitWithoutLoop(pipe: nat, fd: nat, ch: nat, t: nat) returns (states: seq<State>, steps: seq<Step>)
    requires pipe < fd < MAX_POLL_FDS
    ensures IsRun(pipe, states, steps) && |steps| == 11
    ensures steps[7..] == [RemoveBegin(t, fd), RemoveWait, Spurious(t), RemoveReturn(t)]
    ensures Calls(states[11], fd)
  {
    states, steps := CallbackTested(pipe, fd, ch);
    states, steps := Extend(pipe, states, steps, Call);
    states, steps := Extend(pipe, states, steps, RemoveBegin(t, fd));
    states, steps := Extend(pipe, states, steps, RemoveWait);
    states, steps := Extend(pipe, states, steps, Spurious(t));
    states, steps := Extend(pipe, states, steps, RemoveReturn(t));
  }

  /** And if the wait ends by itself between the two reads of `callbacks_[fd]`, the poll thread calls through the
      null pointer. */
  lemma NullCallHappens(pipe: nat, fd: nat, ch: nat, t: nat) returns (states: seq<State>, steps: seq<Step>)
    requires pipe < fd < MAX_POLL_FDS
    ensures IsRun(pipe, states, steps) && |steps| == 11
    ensures steps[6..] == [RemoveBegin(t, fd), RemoveWait, Spurious(t), RemoveReturn(t), Call]
    ensures HeadTested(states[9].pc, fd) && CallsNull(states, steps, 10, fd)
  {
    states, steps := CallbackTested(pipe, fd, ch);
    states, steps := Extend(pipe, states, steps, RemoveBegin(t, fd));
    states, steps := Extend(pipe, states, steps, RemoveWait);
    states, steps := Extend(pipe, states, steps, Spurious(t));
    states, steps := Extend(pipe, states, steps, RemoveReturn(t));
    states, steps := Extend(pipe, states, steps, Call);
  }
}
