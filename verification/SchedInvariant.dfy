/** What every reachable scheduler state keeps. */
module SchedInvariant {
  import opened Lists
  import opened Outcomes
  import opened SchedModel

  /** The live threads are exactly the queued ones. */
  ghost predicate QueueIsLive(s: Sched) {
    forall t :: t in s.info ==> (t in s.queue <==> !s.info[t].state.Dead?)
  }

  ghost predicate OneRunning(s: Sched) {
    forall t :: t in s.info && s.info[t].state.Running? ==> t == s.curr
  }

  /** The idle thread is always there to run. */
  ghost predicate IdleStands(s: Sched) {
    && s.idle in s.queue && s.idle in s.info
    && (s.info[s.idle].state.Ready? || (s.idle == s.curr && s.info[s.idle].state.Running?))
  }

  /** No two processes share a thread. */
  ghost predicate OwnThreads(ps: seq<Proc>) {
    forall i, j :: 0 <= i < j < |ps| ==> ps[i].thread != ps[j].thread
  }

  /** Processes and user threads belong to each other. */
  ghost predicate ProcsMatch(s: Sched) {
    && OwnThreads(s.procs)
    && (forall p :: p in s.procs ==> p.thread != s.idle)
    && (forall t :: t in s.info && t != s.idle ==> s.info[t].process.Some? && Proc(s.info[t].process.value, t) in s.procs)
  }

  /** Holds inside a call as well, when the current thread may have just blocked or died. */
  ghost predicate Core(s: Sched) {
    Known(s) && Distinct(s.queue) && QueueIsLive(s) && OneRunning(s) && IdleStands(s) && ProcsMatch(s)
  }

  /** Holds between steps: the current thread can run. */
  ghost predicate Inv(s: Sched) {
    Core(s) && (s.info[s.curr].state.Running? || s.info[s.curr].state.Ready?)
  }

  // ----- the queue as a set -----

  lemma RotatedMembers(q: seq<Tid>, i: nat)
    requires i < |q|
    ensures forall t :: t in Rotated(q, i) <==> t in q
    ensures Distinct(q) ==> Distinct(Rotated(q, i))
  {
    assert q == q[..i + 1] + q[i + 1..];
  }

  lemma {:induction false} WithoutMembers(q: seq<Tid>, t: Tid)
    requires Distinct(q)
    ensures Distinct(Without(q, t))
    ensures forall u :: u in Without(q, t) <==> u in q && u != t
  {
    if q != [] {
      assert q == [q[0]] + q[1..];
      WithoutMembers(q[1..], t);
      assert forall u :: u in q <==> u == q[0] || u in q[1..];
      assert q[0] !in q[1..];
      var r := Without(q[1..], t);
      assert forall k :: 0 <= k < |r| ==> r[k] in q[1..] && r[k] != q[0];
    }
  }

  lemma {:induction false} LiveProcsOwn(ps: seq<Proc>, info: map<Tid, Info>)
    requires OwnThreads(ps)
    ensures OwnThreads(LiveProcs(ps, info))
  {
    if ps != [] {
      LiveProcsOwn(ps[1..], info);
      var r := LiveProcs(ps[1..], info);
      assert forall k :: 0 <= k < |r| ==> r[k] in ps[1..] && r[k].thread != ps[0].thread;
    }
  }

  // ----- schedule -----

  lemma AdvancedKeeps(s: Sched)
    requires Core(s) && Pick(s.queue, s.info, s.now) < |s.queue|
    ensures Core(Advanced(s)) && Chosen(s) in s.queue
    ensures Advanced(s).info[Chosen(s)].state.Ready?
  {
    RotatedMembers(s.queue, Pick(s.queue, s.info, s.now));
  }

  /** The switch itself, from a state whose pick is ready. */
  function Switched(a: Sched, next: Tid): Sched
    requires Known(a) && next in a.info
  {
    var prev := a.info[a.curr];
    var info := if prev.state.Running? then a.info[a.curr := prev.(state := Ready)] else a.info;
    a.(curr := next, info := info[next := info[next].(state := Running)])
  }

  lemma SwitchedKeeps(a: Sched, next: Tid)
    requires Core(a) && next in a.queue && next != a.curr && a.info[next].state.Ready?
    ensures Inv(Switched(a, next))
  {}

  lemma NoPick(s: Sched)
    requires Core(s) && Pick(s.queue, s.info, s.now) == |s.queue|
    ensures s.curr == s.idle && s.info[s.idle].state.Running?
  {
    var j :| 0 <= j < |s.queue| && s.queue[j] == s.idle;
    assert !Eligible(s.info[s.queue[j]], s.now);
  }

  /** `schedule` restores the full invariant; it never switches to a blocked or dead thread, and
      falls back on the idle thread only when that thread is already running. */
  lemma ScheduleKeeps(s: Sched)
    requires Core(s)
    ensures Inv(Schedule(s))
    ensures Schedule(s).curr == Chosen(s)
    ensures Pick(s.queue, s.info, s.now) == |s.queue| ==> s.curr == s.idle && Chosen(s) == s.idle
    ensures Chosen(s) != s.curr ==> Eligible(s.info[Chosen(s)], s.now)
  {
    if Pick(s.queue, s.info, s.now) == |s.queue| {
      NoPick(s);
    } else {
      AdvancedKeeps(s);
      if Chosen(s) != s.curr {
        assert Schedule(s) == Switched(Advanced(s), Chosen(s));
        RotatedMembers(s.queue, Pick(s.queue, s.info, s.now));
        SwitchedKeeps(Advanced(s), Chosen(s));
      }
    }
  }

  // ----- the steps -----

  lemma BuriedKeeps(s: Sched, t: Tid)
    requires Core(s) && t in s.info && t != s.idle
    ensures Core(Buried(s, t))
  {
    WithoutMembers(s.queue, t);
  }

  lemma WokenPidKeeps(s: Sched, pid: Pid)
    requires Core(s)
    ensures Core(WokenPid(s, pid))
    ensures forall t :: t in s.info && s.info[t].state.Dead? ==> WokenPid(s, pid).info[t].state.Dead?
  {}

  lemma BlockedKeeps(s: Sched, i: Info)
    requires Inv(s) && s.curr != s.idle && i.process == s.info[s.curr].process
    ensures Core(BlockedAs(s, i))
  {}

  lemma NudgedKeeps(s: Sched, t: Tid)
    requires Inv(s) && t in s.info && t != s.idle
    ensures Inv(Nudged(s, t))
  {}

  lemma SpawnedKeeps(s: Sched, pid: Pid, t: Tid)
    requires Inv(s) && t !in s.info
    ensures Inv(Spawned(s, pid, t))
  {
    assert t !in s.queue;
  }

  /** `proc_cleanup` frees dead threads only: none of them is queued, current or idle. */
  lemma CleanedKeeps(s: Sched, pid: Pid, t: Tid)
    requires Inv(s) && t !in s.info
    ensures Inv(Cleaned(s, pid, t))
    ensures forall u :: u in Freed(s.procs, s.info) ==> u !in s.queue && u != s.curr && u != s.idle
  {
    var live := LiveProcs(s.procs, s.info);
    LiveProcsOwn(s.procs, s.info);
    var c := s.(procs := live, info := s.info - Freed(s.procs, s.info));
    assert Inv(c);
    assert t !in c.queue;
  }

  lemma ExitKeeps(s: Sched)
    requires Inv(s) && Enabled(s, Exit)
    ensures Core(Prepared(s, Exit))
  {
    BuriedKeeps(s, s.curr);
    var b := Buried(s, s.curr).(needsCleanup := true);
    assert Core(b);
    WokenPidKeeps(b, s.info[s.curr].process.value);
  }

  lemma KillKeeps(s: Sched, pid: Pid)
    requires Inv(s)
    ensures Core(Prepared(s, Kill(pid)))
    ensures !Schedules(s, Kill(pid)) ==> Inv(Prepared(s, Kill(pid)))
  {
    if Find(s.procs, pid).Some? {
      BuriedKeeps(s, Find(s.procs, pid).value);
    }
  }

  lemma PreparedKeeps(s: Sched, step: Step)
    requires Inv(s) && Enabled(s, step)
    ensures Core(Prepared(s, step))
    ensures !Schedules(s, step) ==> Inv(Prepared(s, step))
  {
    match step
    case Tick(pid, t) => CleanedKeeps(s, pid, t);
    case Exit => ExitKeeps(s);
    case Fault => BuriedKeeps(s, s.curr);
    case Kill(pid) => KillKeeps(s, pid);
    case WaitPid(pid) => BlockedKeeps(s, s.info[s.curr].(waitingFor := pid));
    case Sleep(ms) => BlockedKeeps(s, s.info[s.curr].(sleepUntil := Deadline(s.now, ms)));
    case Receive => BlockedKeeps(s, s.info[s.curr]);
    case Wake(t) => NudgedKeeps(s, t);
    case Spawn(pid, t) => SpawnedKeeps(s, pid, t);
  }

  /** Every step from a good state is possible and leads to a good state. */
  lemma StepKeeps(s: Sched, step: Step)
    requires Inv(s) && Enabled(s, step)
    ensures Known(Prepared(s, step)) && Inv(Apply(s, step))
  {
    PreparedKeeps(s, step);
    ScheduleKeeps(Prepared(s, step));
  }

  ghost predicate IsRun(states: seq<Sched>, steps: seq<Step>) {
    && |states| == |steps| + 1
    && Inv(states[0])
    && forall i :: 0 <= i < |steps| ==> RunStep(states, steps, i)
  }

  ghost predicate RunStep(states: seq<Sched>, steps: seq<Step>, i: nat)
    requires i < |steps| && i + 1 < |states|
  {
    Enabled(states[i], steps[i]) && (Inv(states[i]) ==> Follows(states[i], steps[i], states[i + 1]))
  }

  ghost predicate Follows(s: Sched, step: Step, s': Sched)
    requires Inv(s) && Enabled(s, step)
  {
    StepKeeps(s, step);
    s' == Apply(s, step)
  }

  /** The boot state of `thread_init`. */
  function Booted(idle: Tid, now: nat): Sched {
    Sched([idle], map[idle := Info(Running, 0, 0, None)], idle, idle, [], now, false)
  }

  lemma BootedIsGood(idle: Tid, now: nat)
    ensures Inv(Booted(idle, now))
  {}

  /** Safety over whole runs. */
  lemma {:induction false} RunKeeps(states: seq<Sched>, steps: seq<Step>, i: nat)
    requires IsRun(states, steps) && i < |states|
    ensures Inv(states[i])
  {
    if i > 0 {
      RunKeeps(states, steps, i - 1);
      assert RunStep(states, steps, i - 1);
      StepKeeps(states[i - 1], steps[i - 1]);
    }
  }
}
