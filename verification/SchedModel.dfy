/** The scheduler of src/multi/thread.c and the calls that drive it, as a transition system on
    values: one step per system call, user fault or timer tick. The run queue is the cycle read
    from its head. */
module SchedModel {
  import opened Machine
  import opened Outcomes

  type Tid = nat
  type Pid = nat

  datatype ThreadState = Ready | Running | Blocked | Dead

  const NOBODY: nat := 0xffff_ffff_ffff_ffff

  datatype Info = Info(state: ThreadState, waitingFor: nat, sleepUntil: nat, process: Option<Pid>)

  datatype Proc = Proc(pid: Pid, thread: Tid)

  datatype Sched = Sched(queue: seq<Tid>, info: map<Tid, Info>, curr: Tid, idle: Tid, procs: seq<Proc>, now: nat, needsCleanup: bool)

  // ----- run queue operations -----

  /** Ready, or asleep with the deadline reached. */
  predicate Eligible(i: Info, now: nat) {
    i.state.Ready? || (i.state.Blocked? && 0 < i.sleepUntil <= now)
  }

  /** What `runqueue_next` makes of the thread it picks. */
  function Woken(i: Info): Info {
    if i.state.Blocked? then i.(state := Ready, sleepUntil := 0) else i
  }

  /** Every thread named by the state exists. */
  predicate Known(s: Sched) {
    && s.curr in s.info && s.idle in s.info
    && (forall t :: t in s.queue ==> t in s.info)
    && (forall p :: p in s.procs ==> p.thread in s.info)
  }

  /** The first eligible position from `from`; the length of the queue when there is none. */
  function Pick(q: seq<Tid>, info: map<Tid, Info>, now: nat, from: nat := 0): (i: nat)
    requires from <= |q| && forall t :: t in q ==> t in info
    ensures from <= i <= |q|
    ensures i < |q| ==> Eligible(info[q[i]], now)
    ensures forall j :: from <= j < i ==> !Eligible(info[q[j]], now)
    decreases |q| - from
  {
    if from == |q| || Eligible(info[q[from]], now) then from else Pick(q, info, now, from + 1)
  }

  function Rotated(q: seq<Tid>, i: nat): seq<Tid>
    requires i < |q|
  {
    q[i + 1..] + q[..i + 1]
  }

  /** `runqueue_next`: the thread to run; the queue moves its head past the pick. */
  function Chosen(s: Sched): Tid
    requires Known(s)
  {
    if s.queue == [] then s.curr
    else
      var i := Pick(s.queue, s.info, s.now);
      if i == |s.queue| then s.idle else s.queue[i]
  }

  function Advanced(s: Sched): (s': Sched)
    requires Known(s)
    ensures Known(s') && s'.curr == s.curr && s'.idle == s.idle
  {
    var i := Pick(s.queue, s.info, s.now);
    if i == |s.queue| then s
    else s.(queue := Rotated(s.queue, i), info := s.info[s.queue[i] := Woken(s.info[s.queue[i]])])
  }

  /** `schedule`. */
  function Schedule(s: Sched): (s': Sched)
    requires Known(s)
    ensures Known(s')
  {
    var next, a := Chosen(s), Advanced(s);
    if next == a.curr then a
    else
      var prev := a.info[a.curr];
      var info := if prev.state.Running? then a.info[a.curr := prev.(state := Ready)] else a.info;
      a.(curr := next, info := info[next := info[next].(state := Running)])
  }

  function Without(q: seq<Tid>, t: Tid): (r: seq<Tid>)
    ensures forall u :: u in r ==> u in q
  {
    if q == [] then [] else if q[0] == t then q[1..] else [q[0]] + Without(q[1..], t)
  }

  function WithState(s: Sched, t: Tid, state: ThreadState): (s': Sched)
    requires Known(s) && t in s.info
    ensures Known(s')
  {
    s.(info := s.info[t := s.info[t].(state := state)])
  }

  /** `runqueue_remove` and the DEAD mark that follows it. */
  function Buried(s: Sched, t: Tid): (s': Sched)
    requires Known(s) && t in s.info
    ensures Known(s')
  {
    WithState(s, t, Dead).(queue := Without(s.queue, t))
  }

  predicate WaitsFor(i: Info, pid: Pid) {
    i.state.Blocked? && i.waitingFor == pid
  }

  /** `thread_wake_pid`: every queued thread that waits for `pid` is made ready. */
  function WokenPid(s: Sched, pid: Pid): (s': Sched)
    requires Known(s)
    ensures Known(s')
  {
    s.(info := map t | t in s.info ::
         if t in s.queue && WaitsFor(s.info[t], pid) then s.info[t].(state := Ready, waitingFor := NOBODY) else s.info[t])
  }

  /** A BLOCKED thread is made ready: a message for it arrived, or its port went away. */
  function Nudged(s: Sched, t: Tid): (s': Sched)
    requires Known(s) && t in s.info
    ensures Known(s')
  {
    if s.info[t].state.Blocked? then WithState(s, t, Ready) else s
  }

  /** `runqueue_push` of a new user thread, and its process at the head of the process list. */
  function Spawned(s: Sched, pid: Pid, t: Tid): (s': Sched)
    requires Known(s)
    ensures Known(s')
  {
    s.(queue := s.queue + [t], info := s.info[t := Info(Ready, NOBODY, 0, Some(pid))], procs := [Proc(pid, t)] + s.procs)
  }

  predicate IsDead(info: map<Tid, Info>, t: Tid) {
    t in info && info[t].state.Dead?
  }

  function LiveProcs(ps: seq<Proc>, info: map<Tid, Info>): (r: seq<Proc>)
    ensures forall p :: p in r <==> p in ps && !IsDead(info, p.thread)
  {
    if ps == [] then []
    else if IsDead(info, ps[0].thread) then LiveProcs(ps[1..], info)
    else [ps[0]] + LiveProcs(ps[1..], info)
  }

  /** The threads `proc_cleanup` frees. */
  function Freed(ps: seq<Proc>, info: map<Tid, Info>): set<Tid> {
    set p | p in ps && IsDead(info, p.thread) :: p.thread
  }

  /** `proc_cleanup`: dead processes and their threads go; with none alive, `init` is started. */
  function Cleaned(s: Sched, pid: Pid, t: Tid): Sched
    requires Known(s)
  {
    var live := LiveProcs(s.procs, s.info);
    var c := s.(procs := live, info := s.info - Freed(s.procs, s.info));
    if live == [] then c.(queue := c.queue + [t], info := c.info[t := Info(Ready, NOBODY, 0, Some(pid))], procs := [Proc(pid, t)])
    else c
  }

  function Find(ps: seq<Proc>, pid: Pid): (r: Option<Tid>)
    ensures r.Some? ==> Proc(pid, r.value) in ps
    ensures r.None? ==> forall p :: p in ps ==> p.pid != pid
  {
    if ps == [] then None else if ps[0].pid == pid then Some(ps[0].thread) else Find(ps[1..], pid)
  }

  // ----- steps -----

  datatype Step =
    | Tick(pid: Pid, t: Tid)   // timer interrupt; the pair is for `init`, should it be restarted
    | Exit
    | Fault                    // an exception in user mode
    | Kill(pid: Pid)
    | WaitPid(pid: Pid)
    | Sleep(ms: nat)
    | Receive                  // a receive on an empty port
    | Wake(t: Tid)             // a message or the end of a port for a thread
    | Spawn(pid: Pid, t: Tid)

  /** System calls are made by a process, never by the idle thread; new ids are new. */
  predicate Enabled(s: Sched, step: Step) {
    match step
    case Tick(pid, t) => t !in s.info
    case Spawn(pid, t) => t !in s.info
    case Wake(t) => t in s.info && t != s.idle
    case Kill(_) => true
    case _ => s.curr != s.idle && s.curr in s.info && s.info[s.curr].process.Some?
  }

  /** The deadline `sys_sleep` sets, in 64 bits. */
  function Deadline(now: nat, ms: nat): nat {
    (now + ms) % WORD_LIMIT
  }

  function BlockedAs(s: Sched, i: Info): (s': Sched)
    requires Known(s)
    ensures Known(s')
  {
    s.(info := s.info[s.curr := i.(state := Blocked)])
  }

  /** What the step does before it calls `schedule`, if it does. */
  function Prepared(s: Sched, step: Step): Sched
    requires Known(s) && Enabled(s, step)
  {
    match step
    case Tick(pid, t) => (if s.needsCleanup then Cleaned(s, pid, t).(needsCleanup := false) else s).(now := s.now + 1)
    case Exit => WokenPid(Buried(s, s.curr).(needsCleanup := true), s.info[s.curr].process.value)
    case Fault => Buried(s, s.curr)
    case Kill(pid) =>
      (match Find(s.procs, pid)
       case None => s
       case Some(t) => Buried(s, t).(needsCleanup := true))
    case WaitPid(pid) => if Find(s.procs, pid).None? then s else BlockedAs(s, s.info[s.curr].(waitingFor := pid))
    case Sleep(ms) => BlockedAs(s, s.info[s.curr].(sleepUntil := Deadline(s.now, ms)))
    case Receive => BlockedAs(s, s.info[s.curr])
    case Wake(t) => Nudged(s, t)
    case Spawn(pid, t) => Spawned(s, pid, t)
  }

  /** Does the step call `schedule`, and so `runqueue_next`? */
  predicate Schedules(s: Sched, step: Step) {
    match step
    case Kill(pid) => Find(s.procs, pid) == Some(s.curr)
    case WaitPid(pid) => Find(s.procs, pid).Some?
    case Wake(_) => false
    case Spawn(_, _) => false
    case _ => true
  }

  function Apply(s: Sched, step: Step): Sched
    requires Known(s) && Enabled(s, step) && Known(Prepared(s, step))
  {
    if Schedules(s, step) then Schedule(Prepared(s, step)) else Prepared(s, step)
  }
}
