/**
 Which callbacks the poll thread of module PollMgr calls, and when one is dropped (rpc/pollmgr.cc:45-55, 70-77,
 104-124).
 */
module PollResults {
  import opened Common
  import opened SelectAio
  import opened PollMgr

  lemma JobsAre(fds: seq<nat>, write: bool, j: Job)
    ensures j in Jobs(fds, write) <==> j.fd in fds && j.write == write
  {
    var jobs := Jobs(fds, write);
    if j.fd in fds && j.write == write {
      var i :| 0 <= i < |fds| && fds[i] == j.fd;
      assert jobs[i] == j;
    }
  }

  /** The jobs are exactly the ready descriptors with their kinds, the pipe left out, each once, and all the reads
      come before all the writes. */
  lemma TodoIsExact(s: State, snap: Fds, trfds: set<nat>, twfds: set<nat>, j: Job)
    requires Exact(snap, s.pipe) && trfds <= snap.rfds && twfds <= snap.wfds
    ensures var todo := Todo(s, snap, trfds, twfds);
      && (j in todo <==> if j.write then j.fd in twfds else j.fd in trfds && j.fd != s.pipe)
      && (forall a, b :: 0 <= a < b < |todo| ==>
            if todo[a].write == todo[b].write then todo[a].fd < todo[b].fd else todo[b].write)
  {
    ReadyIsReportedOnce(snap, s.pipe, trfds, twfds);
    var readable, writable := Reported(trfds, trfds, s.pipe, snap.high), Reported(twfds, trfds, s.pipe, snap.high);
    JobsAre(readable, false, j);
    JobsAre(writable, true, j);
  }

  /** Every copy of the watch sets has its exact bound. */
  ghost predicate ExactSets(s: State) {
    Exact(s.fds, s.pipe) && (s.pc.Selecting? ==> Exact(s.pc.snap, s.pipe))
  }

  lemma ExactStays(s: State, step: Step)
    requires Enabled(s, step) && ExactSets(s)
    ensures ExactSets(Apply(s, step)) && Apply(s, step).pipe == s.pipe
  {
    match step
    case AddBegin(fd, flag, ch, byPoll) => WatchKeepsExact(s.fds, fd, flag, s.pipe);
    case DelBegin(fd, flag, byPoll) => UnwatchKeepsExact(s.fds, fd, flag, s.pipe);
    case RemoveBegin(t, fd) => UnwatchKeepsExact(s.fds, fd, RdWr, s.pipe);
    case _ =>
  }

  lemma {:induction false} AlwaysExact(pipe: nat, states: seq<State>, steps: seq<Step>, k: nat)
    requires IsRun(pipe, states, steps) && k < |states|
    ensures ExactSets(states[k]) && states[k].pipe == pipe
  {
    if k == 0 {
      assert Watched(states[0].fds, pipe);
    } else {
      AlwaysExact(pipe, states, steps, k - 1);
      assert Enabled(states[k - 1], steps[k - 1]);
      ExactStays(states[k - 1], steps[k - 1]);
    }
  }

  /** What the poll thread has left to call before it selects again. */
  function Pending(pc: Pc): (todo: seq<Job>) {
    if pc.Testing? || pc.Tested? || pc.InCall? then pc.todo else []
  }

  /** In every run: after each return of `select` the poll thread goes on to exactly the descriptors that were found
      ready, each for what it was found ready for. */
  lemma ReadyIsCalled(pipe: nat, states: seq<State>, steps: seq<Step>, k: nat, j: Job)
    requires IsRun(pipe, states, steps) && k < |steps| && steps[k].Select?
    ensures var step := steps[k];
      j in Pending(states[k + 1].pc) <==>
        !step.interrupted && if j.write then j.fd in step.twfds else j.fd in step.trfds && j.fd != pipe
  {
    AlwaysExact(pipe, states, steps, k);
    assert Enabled(states[k], steps[k]);
    if !steps[k].interrupted { TodoIsExact(states[k], states[k].pc.snap, steps[k].trfds, steps[k].twfds, j); }
  }

  /** A callback registered at some earlier step. */
  ghost predicate Registered(steps: seq<Step>, n: nat, fd: nat, ch: nat) {
    exists i :: 0 <= i < n && i < |steps| && steps[i].AddBegin? && steps[i].fd == fd && steps[i].ch == ch
  }

  /** Everything in `callbacks_`, on its way there, or being called has been registered for its descriptor. */
  ghost predicate OnlyRegistered(steps: seq<Step>, n: nat, s: State) {
    && (forall fd :: fd in s.callbacks ==> Registered(steps, n, fd, s.callbacks[fd]))
    && (s.section.Adding? ==> Registered(steps, n, s.section.fd, s.section.ch))
    && (s.pc.InCall? ==> s.pc.todo != [] && Registered(steps, n, s.pc.todo[0].fd, s.pc.ch))
  }

  lemma StillRegistered(steps: seq<Step>, n: nat, m: nat, fd: nat, ch: nat)
    requires n <= m && Registered(steps, n, fd, ch)
    ensures Registered(steps, m, fd, ch)
  {
  }

  /** In every run: the callback that runs for a descriptor is one that was registered for it. */
  lemma {:induction false} CalledWasRegistered(pipe: nat, states: seq<State>, steps: seq<Step>, n: nat)
    requires IsRun(pipe, states, steps) && n < |states|
    ensures OnlyRegistered(steps, n, states[n])
  {
    if n == 0 {
    } else {
      CalledWasRegistered(pipe, states, steps, n - 1);
      var s, s', step := states[n - 1], states[n], steps[n - 1];
      assert Enabled(s, step);
      forall fd, ch | Registered(steps, n - 1, fd, ch) ensures Registered(steps, n, fd, ch) {
        StillRegistered(steps, n - 1, n, fd, ch);
      }
      if step.AddBegin? { assert Registered(steps, n, step.fd, step.ch); }
    }
  }

  /** A registered callback is never replaced by another, only dropped. */
  lemma CallbackIsNotReplaced(s: State, step: Step, fd: nat)
    requires Enabled(s, step) && fd in s.callbacks && fd in Apply(s, step).callbacks
    ensures Apply(s, step).callbacks[fd] == s.callbacks[fd]
  {
  }

  /** `del_callback` drops the callback exactly when nothing of the descriptor is watched any more, and touches no
      other callback. */
  lemma DeletedWithLastFlag(s: State, fd: nat, flag: Flag, x: nat)
    requires Enabled(s, DelBegin(fd, flag, false))
    ensures var t := AfterDel(s, fd, flag);
      && (x in t.callbacks <==> x in s.callbacks && (x == fd ==> Watched(t.fds, fd)))
      && (x in t.callbacks ==> t.callbacks[x] == s.callbacks[x])
  {
  }
}
