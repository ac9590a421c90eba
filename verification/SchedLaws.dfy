/** What each step of the scheduler does to every thread, field by field: src/multi/thread.c and the
    calls of src/userspace/syscall.c, src/userspace/port.c and src/arch/idt.c. */
module SchedLaws {
  import opened Machine
  import opened Outcomes
  import opened SchedModel
  import opened SchedInvariant
  import opened SchedFairness

  /** Asleep past the deadline. */
  predicate Overdue(i: Info, now: nat) {
    i.state.Blocked? && i.sleepUntil > 0 && i.sleepUntil <= now
  }

  predicate CanRun(i: Info) {
    i.state.Ready? || i.state.Running?
  }

  /** Scheduling takes nothing from a thread: a dead one is as it was, and so is a blocked one that is
      not past a deadline; a thread that could run still can, and an overdue one that is picked has
      its deadline cleared. */
  predicate Stays(i: Info, now: nat, j: Info) {
    && j.waitingFor == i.waitingFor && j.process == i.process
    && (i.state.Dead? || (i.state.Blocked? && !Overdue(i, now)) ==> j == i)
    && (CanRun(i) ==> CanRun(j) && j.sleepUntil == i.sleepUntil)
    && (Overdue(i, now) ==> j == i || (CanRun(j) && j.sleepUntil == 0))
  }

  /** What is not about threads. */
  predicate SameRest(s: Sched, s': Sched) {
    s'.now == s.now && s'.needsCleanup == s.needsCleanup && s'.procs == s.procs && s'.idle == s.idle
  }

  lemma AdvancedLaw(s: Sched, u: Tid)
    requires Core(s) && u in s.info && Pick(s.queue, s.info, s.now) < |s.queue|
    ensures
      var a, next := Advanced(s), Chosen(s);
      && a.info.Keys == s.info.Keys && a.info[u] == (if u == next then Woken(s.info[u]) else s.info[u])
      && Eligible(s.info[next], s.now) && (u in a.queue <==> u in s.queue) && SameRest(s, a) && a.curr == s.curr
  {
    RotatedMembers(s.queue, Pick(s.queue, s.info, s.now));
  }

  lemma SwitchedLaw(a: Sched, next: Tid, u: Tid)
    requires Known(a) && next in a.info && next != a.curr && a.info[next].state.Ready? && u in a.info
    ensures
      var s' := Switched(a, next);
      && u in s'.info && SameRest(a, s') && s'.queue == a.queue
      && s'.info[u] == (if u == next then a.info[u].(state := Running)
                        else if u == a.curr && a.info[u].state.Running? then a.info[u].(state := Ready) else a.info[u])
  {}

  lemma ScheduleLaw(s: Sched, u: Tid)
    requires Core(s) && u in s.info
    ensures u in Schedule(s).info && Stays(s.info[u], s.now, Schedule(s).info[u]) && SameRest(s, Schedule(s))
    ensures u in Schedule(s).queue <==> u in s.queue
  {
    var next, a := Chosen(s), Advanced(s);
    if Pick(s.queue, s.info, s.now) == |s.queue| {
      NoPick(s);
      assert Schedule(s) == s;
    } else {
      AdvancedLaw(s, u);
      AdvancedKeeps(s);
      if next == a.curr {
        assert Schedule(s) == a;
      } else {
        assert Schedule(s) == Switched(a, next);
        SwitchedLaw(a, next, u);
      }
    }
  }

  /** `sys_exit`: every thread that waits for the process can run again, and waits for nobody; no other
      thread is touched. The exiting thread is dead, out of the queue, and to be cleaned up. */
  lemma ExitLaw(s: Sched, u: Tid)
    requires Inv(s) && Enabled(s, Exit) && u in s.info
    ensures
      var s', pid := Apply(s, Exit), s.info[s.curr].process.value;
      && s'.needsCleanup && s'.procs == s.procs && s'.now == s.now && u in s'.info
      && (u in s'.queue <==> u in s.queue && u != s.curr)
      && (if u == s.curr then s'.info[u].state.Dead?
          else if s.info[u].state.Blocked? && s.info[u].waitingFor == pid then
            CanRun(s'.info[u]) && s'.info[u].waitingFor == 0xffff_ffff_ffff_ffff && (Eligible(s'.info[u], s'.now) || s'.curr == u)
          else Stays(s.info[u], s.now, s'.info[u]))
  {
    PreparedKeeps(s, Exit);
    WithoutMembers(s.queue, s.curr);
    ScheduleLaw(Prepared(s, Exit), u);
    ScheduleKeeps(Prepared(s, Exit));
  }

  /** An exception in user mode: the thread is dead and out of the queue; nobody is woken and no
      clean-up is asked for. */
  lemma FaultLaw(s: Sched, u: Tid)
    requires Inv(s) && Enabled(s, Fault) && u in s.info
    ensures
      var s' := Apply(s, Fault);
      && SameRest(s, s') && u in s'.info && (u in s'.queue <==> u in s.queue && u != s.curr)
      && (if u == s.curr then s'.info[u].state.Dead? else Stays(s.info[u], s.now, s'.info[u]))
  {
    PreparedKeeps(s, Fault);
    WithoutMembers(s.queue, s.curr);
    ScheduleLaw(Prepared(s, Fault), u);
  }

  /** `sys_kill`: the thread of the process is dead, out of the queue, and to be cleaned up; nobody is
      woken. Nothing happens when there is no such process. */
  lemma KillLaw(s: Sched, pid: Pid, u: Tid)
    requires Inv(s) && u in s.info
    ensures
      var s', t := Apply(s, Kill(pid)), Find(s.procs, pid);
      && s'.procs == s.procs && s'.now == s.now && u in s'.info
      && (t.None? ==> s' == s)
      && (t.Some? ==>
            && s'.needsCleanup && (u in s'.queue <==> u in s.queue && u != t.value)
            && (if u == t.value then s'.info[u].state.Dead? else Stays(s.info[u], s.now, s'.info[u])))
  {
    var t := Find(s.procs, pid);
    PreparedKeeps(s, Kill(pid));
    if t.Some? {
      WithoutMembers(s.queue, t.value);
      if Schedules(s, Kill(pid)) {
        ScheduleLaw(Prepared(s, Kill(pid)), u);
      }
    }
  }

  /** `sys_wait_pid`: the caller records whom it waits for and blocks, unless an old deadline of its own
      is already past; it returns at once when there is no such process. */
  lemma WaitLaw(s: Sched, pid: Pid, u: Tid)
    requires Inv(s) && Enabled(s, WaitPid(pid)) && u in s.info
    ensures
      var s' := Apply(s, WaitPid(pid));
      && SameRest(s, s') && u in s'.info && (u in s'.queue <==> u in s.queue)
      && (Find(s.procs, pid).None? ==> s' == s)
      && (Find(s.procs, pid).Some? && u != s.curr ==> Stays(s.info[u], s.now, s'.info[u]))
      && (Find(s.procs, pid).Some? && u == s.curr ==>
            && s'.info[u].waitingFor == pid
            && (!(0 < s.info[u].sleepUntil <= s.now) ==> s'.info[u].state.Blocked? && s'.info[u].sleepUntil == s.info[u].sleepUntil))
  {
    PreparedKeeps(s, WaitPid(pid));
    if Find(s.procs, pid).Some? {
      ScheduleLaw(Prepared(s, WaitPid(pid)), u);
    }
  }

  /** `port_receive` on an empty queue: the same, without a target. */
  lemma ReceiveLaw(s: Sched, u: Tid)
    requires Inv(s) && Enabled(s, Receive) && u in s.info
    ensures
      var s' := Apply(s, Receive);
      && SameRest(s, s') && u in s'.info && (u in s'.queue <==> u in s.queue) && s'.info[u].waitingFor == s.info[u].waitingFor
      && (u != s.curr ==> Stays(s.info[u], s.now, s'.info[u]))
      && (u == s.curr && !(0 < s.info[u].sleepUntil <= s.now) ==> s'.info[u] == s.info[u].(state := Blocked))
  {
    PreparedKeeps(s, Receive);
    ScheduleLaw(Prepared(s, Receive), u);
  }

  /** `sys_sleep`: the caller blocks until the tick `now + ms`, and is runnable from that tick on. */
  lemma SleepLaw(s: Sched, ms: nat, u: Tid)
    requires Inv(s) && Enabled(s, Sleep(ms)) && u in s.info
    ensures
      var s' := Apply(s, Sleep(ms));
      && SameRest(s, s') && u in s'.info && (u in s'.queue <==> u in s.queue)
      && (u != s.curr ==> Stays(s.info[u], s.now, s'.info[u]))
      && (u == s.curr && 0 < ms && s.now + ms < WORD_LIMIT ==>
            s'.info[u].state.Blocked? && s'.info[u].sleepUntil == s.now + ms)
  {
    if s.now + ms < WORD_LIMIT {
      InTime(s.now, ms);
    }
    PreparedKeeps(s, Sleep(ms));
    ScheduleLaw(Prepared(s, Sleep(ms)), u);
  }

  lemma InTime(now: nat, ms: nat)
    requires now + ms < WORD_LIMIT
    ensures Deadline(now, ms) == now + ms
  {}

  /** A thread blocked until a tick can be picked from that tick on, and not before. */
  lemma PickedFrom(i: Info, later: nat)
    requires i.state.Blocked? && i.sleepUntil > 0
    ensures Eligible(i, later) <==> later >= i.sleepUntil
  {}

  /** Woken at the right tick, from now on. */
  ghost predicate OnTime(now: nat, ms: nat) {
    forall later: nat :: later >= now ==> DueAt(now, ms, later)
  }

  predicate DueAt(now: nat, ms: nat, later: nat) {
    Overdue(Info(Blocked, NOBODY, Deadline(now, ms), None), later) <==> later >= now + ms
  }

  /** A sleeper wakes on time exactly when its deadline is neither tick 0 nor past 64 bits. */
  lemma SleepIff(now: nat, ms: nat)
    requires now < WORD_LIMIT
    ensures OnTime(now, ms) <==> 0 < now + ms < WORD_LIMIT
  {
    if now + ms >= WORD_LIMIT {
      assert !DueAt(now, ms, now + ms) || !DueAt(now, ms, now + ms - 1);
    } else if now + ms == 0 {
      assert !DueAt(now, ms, 0);
    }
  }

  /** A message for a blocked thread, or the end of its port, makes it ready; nothing else changes. */
  lemma WakeLaw(s: Sched, t: Tid, u: Tid)
    requires Inv(s) && Enabled(s, Wake(t)) && u in s.info
    ensures
      var s' := Apply(s, Wake(t));
      && SameRest(s, s') && s'.queue == s.queue && s'.curr == s.curr && u in s'.info
      && s'.info[u] == if u == t && s.info[u].state.Blocked? then s.info[u].(state := Ready) else s.info[u]
  {
    PreparedKeeps(s, Wake(t));
  }

  /** A new process: at the head of the list, its thread ready at the end of the queue. */
  lemma SpawnLaw(s: Sched, pid: Pid, t: Tid, u: Tid)
    requires Inv(s) && Enabled(s, Spawn(pid, t))
    ensures
      var s' := Apply(s, Spawn(pid, t));
      && s'.procs == [Proc(pid, t)] + s.procs && s'.queue == s.queue + [t] && s'.curr == s.curr
      && t in s'.info && s'.info[t] == Info(Ready, 0xffff_ffff_ffff_ffff, 0, Some(pid)) && s'.now == s.now && s'.needsCleanup == s.needsCleanup
      && (u in s.info ==> u in s'.info && s'.info[u] == s.info[u])
  {
    PreparedKeeps(s, Spawn(pid, t));
  }

  /** A tick: the clock goes on by one; if a clean-up was asked for, dead threads and their processes
      go and no others, and `init` is started when no process is left. */
  lemma TickLaw(s: Sched, pid: Pid, t: Tid, u: Tid)
    requires Inv(s) && Enabled(s, Tick(pid, t)) && u in s.info
    ensures
      var s' := Apply(s, Tick(pid, t));
      && s'.now == s.now + 1 && !s'.needsCleanup
      && (u in s'.info <==> !(s.needsCleanup && s.info[u].state.Dead?))
      && (u in s'.info ==> Stays(s.info[u], s.now + 1, s'.info[u]) && (u in s'.queue <==> u in s.queue))
      && (!s.needsCleanup ==> s'.procs == s.procs)
      && (s.needsCleanup ==> ProcsAfter(s, s', pid, t))
  {
    var c := Prepared(s, Tick(pid, t));
    PreparedKeeps(s, Tick(pid, t));
    TickPrepared(s, pid, t, u);
    ScheduleLaw(c, c.curr);
    if u in c.info {
      ScheduleLaw(c, u);
    }
    if t in c.info {
      ScheduleLaw(c, t);
    }
  }

  /** The same before the call of `schedule`. */
  lemma TickPrepared(s: Sched, pid: Pid, t: Tid, u: Tid)
    requires Inv(s) && Enabled(s, Tick(pid, t)) && u in s.info
    ensures
      var c := Prepared(s, Tick(pid, t));
      && c.now == s.now + 1 && !c.needsCleanup
      && (u in c.info <==> !(s.needsCleanup && s.info[u].state.Dead?))
      && (u in c.info ==> c.info[u] == s.info[u] && (u in c.queue <==> u in s.queue))
      && (!s.needsCleanup ==> c.procs == s.procs)
      && (s.needsCleanup ==> ProcsAfter(s, c, pid, t))
  {
    if s.needsCleanup {
      CleanedInfo(s, pid, t, u);
      var live := LiveProcs(s.procs, s.info);
      assert live != [] ==> live[0] in live && live[0] in s.procs;
      assert live == [] ==> forall p :: p in s.procs ==> p !in live;
    }
  }

  /** The processes that are left, or `init` alone. */
  ghost predicate ProcsAfter(s: Sched, s': Sched, pid: Pid, t: Tid) {
    if exists p :: p in s.procs && !IsDead(s.info, p.thread) then
      forall p :: p in s'.procs <==> p in s.procs && !IsDead(s.info, p.thread)
    else s'.procs == [Proc(pid, t)] && t in s'.info && t in s'.queue && CanRun(s'.info[t]) && s'.info[t].waitingFor == NOBODY
  }

  lemma CleanedInfo(s: Sched, pid: Pid, t: Tid, u: Tid)
    requires Inv(s) && t !in s.info && u in s.info
    ensures
      var c := Cleaned(s, pid, t);
      && (u in c.info <==> !s.info[u].state.Dead?) && (u in c.info ==> c.info[u] == s.info[u] && (u in c.queue <==> u in s.queue))
  {
    if s.info[u].state.Dead? {
      assert Proc(s.info[u].process.value, u) in s.procs;
    }
  }

  /** A waiter of the exiting process runs next, or stands in the queue, able to run. */
  lemma WaiterWaits(s: Sched, t: Tid) returns (d: nat)
    requires Inv(s) && Enabled(s, Exit) && t in s.info && t != s.curr && t in s.queue
    requires s.info[t].state.Blocked? && Some(s.info[t].waitingFor) == s.info[s.curr].process
    ensures Known(Prepared(s, Exit)) && (Apply(s, Exit).curr == t || Waits(Apply(s, Exit), t, d))
  {
    StepKeeps(s, Exit);
    ExitLaw(s, t);
    d :| 0 <= d < |Apply(s, Exit).queue| && Apply(s, Exit).queue[d] == t;
  }

  lemma NextState(states: seq<Sched>, steps: seq<Step>, i: nat)
    requires IsRun(states, steps) && i < |steps|
    ensures Inv(states[i]) && Enabled(states[i], steps[i]) && Known(Prepared(states[i], steps[i]))
    ensures states[i + 1] == Apply(states[i], steps[i])
  {
    RunKeeps(states, steps, i);
    assert RunStep(states, steps, i);
    StepKeeps(states[i], steps[i]);
  }

  /** `t` waits for the process of the current thread. */
  predicate AwaitsCurrent(s: Sched, t: Tid) {
    && t in s.info && s.curr in s.info && t != s.curr && t in s.queue
    && s.info[t].state.Blocked? && Some(s.info[t].waitingFor) == s.info[s.curr].process
  }

  lemma ExitStep(states: seq<Sched>, steps: seq<Step>, i: nat, t: Tid) returns (d: nat)
    requires IsRun(states, steps) && i < |steps| && steps[i] == Exit && AwaitsCurrent(states[i], t)
    ensures states[i + 1].curr == t || Waits(states[i + 1], t, d)
  {
    NextState(states, steps, i);
    d := WaiterWaits(states[i], t);
  }

  /** Whoever waits for a process that exits runs again: at once, or within as many calls of
      `runqueue_next` as there are threads in the queue, unless it leaves before. */
  lemma WaiterRuns(states: seq<Sched>, steps: seq<Step>, i: nat, j: nat, t: Tid)
    requires IsRun(states, steps) && i < j <= |steps| && steps[i] == Exit && AwaitsCurrent(states[i], t)
    requires forall k :: i < k < j ==> !Leaves(states[k], steps[k], t)
    requires Calls(states, steps, i + 1, j) >= |states[i + 1].queue|
    ensures states[i + 1].curr == t || exists k :: i + 1 <= k < j && Picked(states, steps, t, k)
  {
    var d := ExitStep(states, steps, i, t);
    if states[i + 1].curr != t {
      BoundedBypass(states, steps, t, d, i + 1, j);
    }
  }
}
