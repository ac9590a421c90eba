/** Bounded bypass: a thread that could run, at distance d from the head of the run queue, is
    chosen within d + 1 calls of `runqueue_next`, whatever happens to the other threads. */
module SchedFairness {
  import opened Outcomes
  import opened SchedModel
  import opened SchedInvariant

  /** `t` could be chosen, at distance `d` from the head. It may be the current thread, when an
      expired sleep left it ready. */
  ghost predicate Waits(s: Sched, t: Tid, d: nat) {
    d < |s.queue| && s.queue[d] == t && t in s.info && Eligible(s.info[t], s.now)
  }

  /** The thread is killed, or is the current one and blocks or ends itself. */
  predicate Leaves(s: Sched, step: Step, t: Tid) {
    match step
    case Kill(pid) => Find(s.procs, pid) == Some(t)
    case WaitPid(pid) => t == s.curr && Find(s.procs, pid).Some?
    case Tick(_, _) => false
    case Wake(_) => false
    case Spawn(_, _) => false
    case _ => t == s.curr
  }

  // ----- the queue -----

  lemma {:induction false} WithoutIndex(q: seq<Tid>, t: Tid, u: Tid, d: nat) returns (d': nat)
    requires d < |q| && q[d] == t && t != u
    ensures d' <= d && d' < |Without(q, u)| && Without(q, u)[d'] == t
  {
    if q[0] == u {
      d' := d - 1;
    } else if d == 0 {
      d' := 0;
    } else {
      var r := WithoutIndex(q[1..], t, u, d - 1);
      d' := r + 1;
    }
  }

  /** One call of `schedule` picks the thread or brings it closer to the head. */
  lemma ScheduleCloser(s: Sched, t: Tid, d: nat) returns (d': nat)
    requires Core(s) && Waits(s, t, d)
    ensures Schedule(s).curr == t || (d' < d && Waits(Schedule(s), t, d'))
  {
    var p := Pick(s.queue, s.info, s.now);
    assert p <= d;
    if p == d {
      d' := 0;
    } else {
      d' := d - p - 1;
      var r := Rotated(s.queue, p);
      assert r[d'] == s.queue[p + 1..][d'] == s.queue[d];
      assert s.queue[p] != t;
    }
  }

  // ----- steps and runs -----

  /** What a step does before it schedules leaves the thread able to run, and no further back. */
  lemma PreparedNoFurther(s: Sched, step: Step, t: Tid, d: nat) returns (d': nat)
    requires Inv(s) && Enabled(s, step) && Waits(s, t, d) && !Leaves(s, step, t)
    ensures d' <= d && Waits(Prepared(s, step), t, d')
  {
    d' := d;
    match step
    case Tick(pid, u) => CleanedKeeps(s, pid, u);
    case Exit => d' := WithoutIndex(s.queue, t, s.curr, d);
    case Fault => d' := WithoutIndex(s.queue, t, s.curr, d);
    case Kill(pid) =>
      if Find(s.procs, pid).Some? {
        d' := WithoutIndex(s.queue, t, Find(s.procs, pid).value, d);
      }
    case _ =>
  }

  lemma StepCloser(s: Sched, step: Step, t: Tid, d: nat) returns (d': nat)
    requires Inv(s) && Enabled(s, step) && Waits(s, t, d) && !Leaves(s, step, t)
    ensures Known(Prepared(s, step))
    ensures
      || (Schedules(s, step) && Apply(s, step).curr == t)
      || (Waits(Apply(s, step), t, d') && (if Schedules(s, step) then d' < d else d' <= d))
  {
    PreparedKeeps(s, step);
    d' := PreparedNoFurther(s, step, t, d);
    if Schedules(s, step) {
      d' := ScheduleCloser(Prepared(s, step), t, d');
    }
  }

  /** Calls of `runqueue_next` in the steps from `i` up to `j`. */
  ghost function Calls(states: seq<Sched>, steps: seq<Step>, i: nat, j: nat): nat
    requires i <= j <= |steps| < |states|
    decreases j - i
  {
    if i == j then 0 else (if Schedules(states[i], steps[i]) then 1 else 0) + Calls(states, steps, i + 1, j)
  }

  ghost predicate Picked(states: seq<Sched>, steps: seq<Step>, t: Tid, k: nat)
    requires k < |steps| && k + 1 < |states|
  {
    Schedules(states[k], steps[k]) && states[k + 1].curr == t
  }

  /** In every run, whatever other threads are pushed, woken or removed in between. */
  lemma {:induction false} BoundedBypass(states: seq<Sched>, steps: seq<Step>, t: Tid, d: nat, i: nat, j: nat)
    requires IsRun(states, steps) && i <= j <= |steps|
    requires Waits(states[i], t, d)
    requires forall k :: i <= k < j ==> !Leaves(states[k], steps[k], t)
    requires Calls(states, steps, i, j) >= d + 1
    ensures exists k :: i <= k < j && Picked(states, steps, t, k)
    decreases j - i
  {
    RunKeeps(states, steps, i);
    assert RunStep(states, steps, i);
    var d' := StepCloser(states[i], steps[i], t, d);
    if Schedules(states[i], steps[i]) && states[i + 1].curr == t {
      assert Picked(states, steps, t, i);
    } else {
      BoundedBypass(states, steps, t, d', i + 1, j);
    }
  }
}
