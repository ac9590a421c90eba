/** src/multi/thread.c, and the parts of src/multi/process.c, src/userspace/syscall.c and
    src/arch/idt.c that drive it, as they update the run queue in place. A thread pointer is its
    id, and a field of `thread_t` is a map from ids; a missing `next` is the null pointer. */
module Scheduler {
  import opened Lists
  import opened Outcomes
  import opened SchedModel
  import opened SchedInvariant

  /** The successor of position `i` on the cycle. */
  ghost predicate LinkAt(q: seq<Tid>, next: map<Tid, Tid>, i: int) {
    0 <= i < |q| ==> q[i] in next && next[q[i]] == (if i + 1 < |q| then q[i + 1] else q[0])
  }

  /** One single cycle through exactly the queued threads. */
  ghost predicate Cycle(q: seq<Tid>, next: map<Tid, Tid>, head: Option<Tid>) {
    && head == (if q == [] then None else Some(q[0]))
    && Distinct(q)
    && forall i :: LinkAt(q, next, i)
  }

  lemma RotatedCycle(q: seq<Tid>, next: map<Tid, Tid>, i: nat)
    requires i < |q| && Cycle(q, next, Some(q[0]))
    ensures q[i] in next && Cycle(Rotated(q, i), next, Some(next[q[i]]))
  {
    RotatedMembers(q, i);
    assert LinkAt(q, next, i);
    var r := Rotated(q, i);
    forall k ensures LinkAt(r, next, k) {
      assert LinkAt(q, next, k + i + 1) && LinkAt(q, next, k - (|q| - i - 1));
    }
  }

  lemma {:induction false} WithoutAt(q: seq<Tid>, t: Tid, j: nat)
    requires j < |q| && q[j] == t && Distinct(q)
    ensures Without(q, t) == q[..j] + q[j + 1..]
  {
    if j > 0 {
      WithoutAt(q[1..], t, j - 1);
      assert q[..j] == [q[0]] + q[1..][..j - 1];
    }
  }

  lemma {:induction false} WithoutAbsent(q: seq<Tid>, t: Tid)
    requires t !in q
    ensures Without(q, t) == q
  {
    if q != [] {
      WithoutAbsent(q[1..], t);
    }
  }

  /** The pointer before position `j` on the cycle skips it. */
  lemma UnlinkedCycle(q: seq<Tid>, next: map<Tid, Tid>, j: nat)
    requires 1 < |q| && j < |q| && Cycle(q, next, Some(q[0]))
    ensures q[j] in next
    ensures
      var prev := if j == 0 then q[|q| - 1] else q[j - 1];
      Cycle(Without(q, q[j]), next[prev := next[q[j]]] - {q[j]}, Some(if j == 0 then next[q[0]] else q[0]))
  {
    WithoutAt(q, q[j], j);
    WithoutMembers(q, q[j]);
    assert LinkAt(q, next, j);
    var prev := if j == 0 then q[|q| - 1] else q[j - 1];
    var r, n := q[..j] + q[j + 1..], next[prev := next[q[j]]] - {q[j]};
    forall k ensures LinkAt(r, n, k) {
      assert LinkAt(q, next, k) && LinkAt(q, next, k + 1);
    }
  }

  function WokenBy(i: Info, pid: Pid): Info {
    if WaitsFor(i, pid) then i.(state := Ready, waitingFor := NOBODY) else i
  }

  /** The threads after `thread_wake_pid` has passed the first `n` of the queue. */
  function WokenFirst(info: map<Tid, Info>, q: seq<Tid>, n: nat, pid: Pid): (r: map<Tid, Info>)
    requires n <= |q| && forall t :: t in q ==> t in info
    ensures r.Keys == info.Keys
  {
    if n == 0 then info
    else
      var r := WokenFirst(info, q, n - 1, pid);
      r[q[n - 1] := WokenBy(r[q[n - 1]], pid)]
  }

  lemma {:induction false} WokenFirstAt(info: map<Tid, Info>, q: seq<Tid>, n: nat, pid: Pid, t: Tid)
    requires n <= |q| && (forall u :: u in q ==> u in info) && t in info
    ensures WokenFirst(info, q, n, pid)[t] == if t in q[..n] then WokenBy(info[t], pid) else info[t]
  {
    if n > 0 {
      WokenFirstAt(info, q, n - 1, pid, t);
      assert q[..n] == q[..n - 1] + [q[n - 1]];
    }
  }

  lemma WokenAll(s: Sched, pid: Pid)
    requires Known(s)
    ensures WokenPid(s, pid) == s.(info := WokenFirst(s.info, s.queue, |s.queue|, pid))
  {
    assert s.queue[..|s.queue|] == s.queue;
    forall t | t in s.info ensures WokenPid(s, pid).info[t] == WokenFirst(s.info, s.queue, |s.queue|, pid)[t] {
      WokenFirstAt(s.info, s.queue, |s.queue|, pid, t);
    }
  }

  lemma {:induction false} LiveProcsAppend(ps: seq<Proc>, p: Proc, info: map<Tid, Info>)
    ensures LiveProcs(ps + [p], info) == LiveProcs(ps, info) + (if IsDead(info, p.thread) then [] else [p])
  {
    if ps != [] {
      LiveProcsAppend(ps[1..], p, info);
      assert (ps + [p])[1..] == ps[1..] + [p];
    }
  }

  /** One more process looked at by `proc_cleanup`. */
  lemma CleanedNext(ps: seq<Proc>, info: map<Tid, Info>, k: nat)
    requires k < |ps| && OwnThreads(ps)
    ensures LiveProcs(ps[..k + 1], info) == LiveProcs(ps[..k], info) + (if IsDead(info, ps[k].thread) then [] else [ps[k]])
    ensures Freed(ps[..k + 1], info) == Freed(ps[..k], info) + (if IsDead(info, ps[k].thread) then {ps[k].thread} else {})
    ensures ps[k].thread !in Freed(ps[..k], info)
  {
    assert ps[..k + 1] == ps[..k] + [ps[k]];
    LiveProcsAppend(ps[..k], ps[k], info);
  }

  lemma {:induction false} LiveProcsTwice(ps: seq<Proc>, info: map<Tid, Info>, left: map<Tid, Info>)
    requires forall p :: p in LiveProcs(ps, info) ==> p.thread in info && p.thread in left && left[p.thread] == info[p.thread]
    ensures LiveProcs(LiveProcs(ps, info), left) == LiveProcs(ps, info)
  {
    AllAlive(LiveProcs(ps, info), left);
  }

  lemma {:induction false} AllAlive(ps: seq<Proc>, info: map<Tid, Info>)
    requires forall p :: p in ps ==> !IsDead(info, p.thread)
    ensures LiveProcs(ps, info) == ps
  {
    if ps != [] {
      AllAlive(ps[1..], info);
    }
  }

  /** `proc_cleanup` has looked at the first `k` of the processes `ps` and stands at `procs[i]`. */
  ghost predicate Swept(ps: seq<Proc>, all: map<Tid, Info>, k: nat, procs: seq<Proc>, i: int, info: map<Tid, Info>) {
    && k <= |ps| && i == |LiveProcs(ps[..k], all)|
    && procs == LiveProcs(ps[..k], all) + ps[k..]
    && info == all - Freed(ps[..k], all)
  }

  lemma SweptNext(ps: seq<Proc>, all: map<Tid, Info>, k: nat, procs: seq<Proc>, i: int, info: map<Tid, Info>)
    requires Swept(ps, all, k, procs, i, info) && i < |procs| && OwnThreads(ps)
    requires forall p :: p in ps ==> p.thread in all
    ensures k < |ps| && procs[i].thread in info
    ensures
      if info[procs[i].thread].state.Dead?
      then Swept(ps, all, k + 1, procs[..i] + procs[i + 1..], i, info - {procs[i].thread})
      else Swept(ps, all, k + 1, procs, i + 1, info)
  {
    CleanedNext(ps, all, k);
    assert procs[i] == ps[k] && ps[k] in ps;
    assert all - (Freed(ps[..k], all) + {ps[k].thread}) == all - Freed(ps[..k], all) - {ps[k].thread};
  }

  /** None of the threads that `proc_cleanup` frees is queued, current or idle. */
  ghost predicate FreedUnused(s: Sched) {
    forall u :: u in Freed(s.procs, s.info) ==> u !in s.queue && u != s.curr && u != s.idle
  }

  lemma FreedKnown(s: Sched, pid: Pid, t: Tid)
    requires Known(s) && FreedUnused(s)
    ensures Known(s.(procs := LiveProcs(s.procs, s.info), info := s.info - Freed(s.procs, s.info)))
    ensures Known(Cleaned(s, pid, t))
  {}

  class RunQueue {
    var info: map<Tid, Info>
    var next: map<Tid, Tid>
    var head: Option<Tid>
    var curr: Tid
    var idle: Tid
    var procs: seq<Proc>
    var now: nat
    var needsCleanup: bool
    ghost var queue: seq<Tid>

    ghost function State(): Sched
      reads this
    {
      Sched(queue, info, curr, idle, procs, now, needsCleanup)
    }

    ghost predicate Linked()
      reads this
    {
      Cycle(queue, next, head) && Known(State())
    }

    /** `runqueue_push`. */
    method Push(t: Tid)
      requires Linked() && t in info && t !in queue
      modifies this
      ensures Linked()
      ensures State() == old(State()).(queue := old(queue) + [t], info := old(info)[t := old(info)[t].(state := Ready)])
    {
      info := info[t := info[t].(state := Ready)];
      if head.None? {
        head := Some(t);
        next := next[t := t];
      } else {
        var tail := head.value;
        ghost var i := 0;
        assert LinkAt(queue, next, 0);
        while next[tail] != head.value
          invariant 0 <= i < |queue| && tail == queue[i] && tail in next && LinkAt(queue, next, i)
          decreases |queue| - i
        {
          tail := next[tail];
          i := i + 1;
          assert LinkAt(queue, next, i);
        }
        next := next[tail := t][t := head.value];
        forall k ensures LinkAt(queue + [t], next, k) {
          assert LinkAt(queue, old(next), k);
        }
      }
      queue := queue + [t];
    }

    /** `runqueue_next`. */
    method Next() returns (c: Tid)
      requires Linked()
      modifies this
      ensures Linked()
      ensures c == Chosen(old(State())) && State() == Advanced(old(State()))
    {
      if head.None? {
        return curr;
      }
      c := head.value;
      ghost var i := 0;
      while true
        invariant 0 <= i < |queue| && c == queue[i] && State() == old(State()) && Linked()
        invariant Pick(queue, info, now) == Pick(queue, info, now, i)
        decreases |queue| - i
      {
        assert LinkAt(queue, next, i);
        if info[c].state.Blocked? && info[c].sleepUntil > 0 && now >= info[c].sleepUntil {
          info := info[c := info[c].(state := Ready, sleepUntil := 0)];
        }
        if info[c].state.Ready? {
          assert Pick(queue, old(info), now) == i;
          RotatedCycle(queue, next, i);
          head := Some(next[c]);
          queue := Rotated(queue, i);
          assert info == old(info)[c := Woken(old(info[c]))];
          return;
        }
        c := next[c];
        i := i + 1;
        if c == head.value {
          break;
        }
      }
      return idle;
    }

    /** The walk of `runqueue_remove`: the thread before `t` on the cycle. */
    method Predecessor(t: Tid) returns (found: bool, prev: Tid, ghost j: nat)
      requires Cycle(queue, next, head) && head.Some?
      ensures found <==> t in queue
      ensures found ==> j < |queue| && queue[j] == t && prev == (if j == 0 then queue[|queue| - 1] else queue[j - 1])
    {
      prev := head.value;
      j := 0;
      ghost var i := 0;
      assert LinkAt(queue, next, 0);
      while next[prev] != t
        invariant 0 <= i < |queue| && prev == queue[i] && prev in next && LinkAt(queue, next, i)
        invariant t !in queue[1..i + 1]
        decreases |queue| - i
      {
        prev := next[prev];
        i := i + 1;
        if prev == head.value {
          assert queue == [queue[0]] + queue[1..i];
          return false, prev, 0;
        }
        assert LinkAt(queue, next, i);
      }
      found := true;
      j := if i + 1 < |queue| then i + 1 else 0;
    }

    /** `runqueue_remove`: nothing happens to a thread that is not queued. */
    method Remove(t: Tid)
      requires Linked()
      modifies this
      ensures Linked()
      ensures State() == old(State()).(queue := Without(old(queue), t))
    {
      if head.None? {
        return;
      }
      assert LinkAt(queue, next, 0);
      if head == Some(t) && next[t] == t {
        assert queue == [t] by { assert LinkAt(queue, next, 0); }
        head := None;
        queue := [];
        return;
      }
      var found, prev, j := Predecessor(t);
      if !found {
        WithoutAbsent(queue, t);
        return;
      }
      assert |queue| > 1;
      UnlinkedCycle(queue, next, j);
      next := next[prev := next[t]];
      if head == Some(t) {
        head := Some(next[t]);
      }
      next := next - {t};
      queue := Without(queue, t);
    }

    /** `schedule`. */
    method Reschedule()
      requires Linked()
      modifies this
      ensures Linked()
      ensures State() == Schedule(old(State()))
    {
      var chosen := Next();
      if chosen == curr {
        return;
      }
      if info[curr].state.Running? {
        info := info[curr := info[curr].(state := Ready)];
      }
      curr := chosen;
      info := info[chosen := info[chosen].(state := Running)];
    }

    /** `thread_wake_pid`. */
    method WakePid(pid: Pid)
      requires Linked()
      modifies `info
      ensures Linked()
      ensures State() == WokenPid(old(State()), pid)
    {
      WokenAll(State(), pid);
      if head.Some? {
        WakeQueue(pid);
      }
    }

    /** Its loop. */
    method WakeQueue(pid: Pid)
      requires Linked() && head.Some?
      modifies `info
      ensures info == WokenFirst(old(info), queue, |queue|, pid)
    {
      var t := head.value;
      ghost var i := 0;
      while true
        invariant 0 <= i < |queue| && t == queue[i] && info == WokenFirst(old(info), queue, i, pid)
        decreases |queue| - i
      {
        assert LinkAt(queue, next, i);
        if info[t].state.Blocked? && info[t].waitingFor == pid {
          info := info[t := info[t].(state := Ready, waitingFor := NOBODY)];
        }
        t := next[t];
        i := i + 1;
        assert info == WokenFirst(old(info), queue, i, pid);
        if t == head.value {
          break;
        }
      }
    }

    // ----- the calls that drive it -----

    /** `thread_init`. */
    constructor (idleThread: Tid, ticks: nat)
      ensures Linked() && State() == Booted(idleThread, ticks)
    {
      info := map[idleThread := Info(Running, 0, 0, None)];
      next := map[idleThread := idleThread];
      head := Some(idleThread);
      curr, idle := idleThread, idleThread;
      procs, now, needsCleanup := [], ticks, false;
      queue := [idleThread];
    }

    /** `proc_find`. */
    method FindProc(pid: Pid) returns (r: Option<Tid>)
      ensures r == Find(procs, pid)
    {
      var i := 0;
      while i < |procs|
        invariant 0 <= i <= |procs| && Find(procs, pid) == Find(procs[i..], pid)
      {
        if procs[i].pid == pid {
          return Some(procs[i].thread);
        }
        i := i + 1;
      }
      return None;
    }

    /** The end of `proc_create`. */
    method Create(pid: Pid, t: Tid)
      requires Linked() && t !in info
      modifies this
      ensures Linked() && State() == Spawned(old(State()), pid, t)
    {
      info := info[t := Info(Ready, NOBODY, 0, Some(pid))];
      procs := [Proc(pid, t)] + procs;
      Push(t);
    }

    /** `runqueue_remove` and the mark that follows it, wherever a thread ends. */
    method Bury(t: Tid)
      requires Linked() && t in info
      modifies this
      ensures Linked() && State() == Buried(old(State()), t)
    {
      Remove(t);
      info := info[t := info[t].(state := Dead)];
    }

    /** The end of `sys_exit`. */
    method Exit()
      requires Linked() && Enabled(State(), Step.Exit)
      modifies this
      ensures Linked() && State() == Apply(old(State()), Step.Exit)
    {
      var pid := info[curr].process.value;
      Bury(curr);
      needsCleanup := true;
      WakePid(pid);
      Reschedule();
    }

    /** What `isr_handler` does to a process that faults. */
    method Fault()
      requires Linked() && Enabled(State(), Step.Fault)
      modifies this
      ensures Linked() && State() == Apply(old(State()), Step.Fault)
    {
      Bury(curr);
      Reschedule();
    }

    /** The end of `sys_kill`. */
    method Kill(pid: Pid) returns (ok: bool)
      requires Linked()
      modifies this
      ensures Linked() && State() == Apply(old(State()), Step.Kill(pid))
      ensures ok <==> Find(old(procs), pid).Some?
    {
      var found := FindProc(pid);
      if found.None? {
        return false;
      }
      var t := found.value;
      Bury(t);
      needsCleanup := true;
      if t == curr {
        Reschedule();
      }
      return true;
    }

    /** `sys_wait_pid`. */
    method Wait(pid: Pid)
      requires Linked() && Enabled(State(), WaitPid(pid))
      modifies this
      ensures Linked() && State() == Apply(old(State()), WaitPid(pid))
    {
      var found := FindProc(pid);
      if found.None? {
        return;
      }
      info := info[curr := info[curr].(state := Blocked, waitingFor := pid)];
      Reschedule();
    }

    /** `sys_sleep`. */
    method SleepFor(ms: nat)
      requires Linked() && Enabled(State(), Sleep(ms))
      modifies this
      ensures Linked() && State() == Apply(old(State()), Sleep(ms))
    {
      info := info[curr := info[curr].(sleepUntil := Deadline(now, ms), state := Blocked)];
      Reschedule();
    }

    /** The wait of `port_receive` on an empty port. */
    method AwaitMessage()
      requires Linked() && Enabled(State(), Receive)
      modifies this
      ensures Linked() && State() == Apply(old(State()), Receive)
    {
      info := info[curr := info[curr].(state := Blocked)];
      Reschedule();
    }

    /** The wake-up in `port_forward` and `port_destroy`. */
    method WakeOwner(t: Tid)
      requires Linked() && t in info
      modifies this
      ensures Linked() && State() == Nudged(old(State()), t)
    {
      if info[t].state.Blocked? {
        info := info[t := info[t].(state := Ready)];
      }
    }

    /** The first loop of `proc_cleanup`. */
    method FreeDead()
      requires OwnThreads(procs) && forall p :: p in procs ==> p.thread in info
      modifies `info, `procs
      ensures procs == LiveProcs(old(procs), old(info))
      ensures info == old(info) - Freed(old(procs), old(info))
    {
      ghost var ps, all, k := procs, info, 0;
      var i := 0;
      while i < |procs|
        invariant Swept(ps, all, k, procs, i, info)
        decreases |ps| - k
      {
        SweptNext(ps, all, k, procs, i, info);
        if info[procs[i].thread].state.Dead? {
          info := info - {procs[i].thread};
          procs := procs[..i] + procs[i + 1..];
        } else {
          i := i + 1;
        }
        k := k + 1;
      }
      assert ps[..k] == ps;
    }

    /** The second loop: is any process left alive? */
    method CountAlive() returns (alive: nat)
      requires forall p :: p in procs ==> p.thread in info
      ensures alive == |LiveProcs(procs, info)|
    {
      var i := 0;
      alive := 0;
      while i < |procs|
        invariant 0 <= i <= |procs| && alive == |LiveProcs(procs[..i], info)|
      {
        assert procs[..i + 1] == procs[..i] + [procs[i]];
        LiveProcsAppend(procs[..i], procs[i], info);
        if !info[procs[i].thread].state.Dead? {
          alive := alive + 1;
        }
        i := i + 1;
      }
      assert procs[..i] == procs;
    }

    /** `proc_cleanup`. */
    method Cleanup(pid: Pid, t: Tid)
      requires Linked() && OwnThreads(procs) && t !in info && FreedUnused(State())
      modifies this
      ensures Linked() && State() == Cleaned(old(State()), pid, t)
    {
      ghost var s := State();
      FreeDead();
      var alive := CountAlive();
      LiveProcsTwice(s.procs, s.info, info);
      FreedKnown(s, pid, t);
      if alive == 0 {
        Create(pid, t);
      }
    }

    /** The timer interrupt up to its call of `schedule`. */
    method CountTick(pid: Pid, t: Tid)
      requires Linked() && OwnThreads(procs) && t !in info && FreedUnused(State())
      modifies this
      ensures Linked() && State() == Prepared(old(State()), Tick(pid, t))
    {
      now := now + 1;
      if needsCleanup {
        needsCleanup := false;
        Cleanup(pid, t);
      }
    }

    /** The timer interrupt. */
    method OnTick(pid: Pid, t: Tid)
      requires Linked() && OwnThreads(procs) && t !in info && FreedUnused(State()) && Known(Prepared(State(), Tick(pid, t)))
      modifies this
      ensures Linked() && State() == Apply(old(State()), Tick(pid, t))
    {
      CountTick(pid, t);
      Reschedule();
    }

    /** Whatever happens next, from a state that keeps the invariant. */
    method Do(step: Step)
      requires Cycle(queue, next, head) && Inv(State()) && Enabled(State(), step)
      modifies this
      ensures Cycle(queue, next, head) && Inv(State()) && Follows(old(State()), step, State())
    {
      StepKeeps(State(), step);
      match step
      case Tick(pid, t) => CleanedKeeps(State(), pid, t); OnTick(pid, t);
      case Exit => Exit();
      case Fault => Fault();
      case Kill(pid) => var _ := Kill(pid);
      case WaitPid(pid) => Wait(pid);
      case Sleep(ms) => SleepFor(ms);
      case Receive => AwaitMessage();
      case Wake(t) => WakeOwner(t);
      case Spawn(pid, t) => Create(pid, t);
    }
  }
}
