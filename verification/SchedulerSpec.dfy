/**
 The cooperative scheduler as a value: task states, the selection rule, and what each
 primitive does. Tick counters are unbounded here.
 */
module SchedulerSpec {
  import opened Prelude

  const MAX_TASKS: nat := 16
  const PRIORITY_LEVELS: nat := 5
  const PRIORITY_NORMAL: nat := 2
  const PRIORITY_WEIGHT: nat := 4
  const FAIRNESS_MAX_AGE: nat := 15

  datatype TaskState = Ready | Running | Waiting | Sleeping

  datatype Task = Task(
    priority: nat,
    period: nat,
    nextRun: nat,
    readySince: nat,
    wakeTick: nat,
    runCount: nat,
    lastRun: nat,
    urgent: bool,
    state: TaskState,
    hasCallback: bool)

  datatype Sched = Sched(
    tasks: seq<Task>,
    ticks: nat,
    cursor: nat,
    current: Option<nat>,
    totalRuns: nat,
    urgentWakes: nat)

  const BOOT: Sched := Sched([], 0, 0, None, 0, 0)

  // ---- primitives ----

  function MarkReady(t: Task, ticks: nat, next: nat): Task {
    t.(state := Ready, wakeTick := 0, nextRun := next, readySince := Max(ticks, next), urgent := false)
  }

  function Sanitized(priority: nat): nat {
    if priority >= PRIORITY_LEVELS then PRIORITY_NORMAL else priority
  }

  function NewTask(priority: nat, start: nat, period: nat): Task {
    Task(Sanitized(priority), period, start, start, 0, 0, 0, false, Ready, true)
  }

  function Register(s: Sched, priority: nat, delay: nat, period: nat, hasCallback: bool): Sched {
    if |s.tasks| >= MAX_TASKS || !hasCallback then s
    else s.(tasks := s.tasks + [NewTask(priority, s.ticks + delay, period)])
  }

  function Wake(s: Sched, i: nat): Sched {
    if i >= |s.tasks| || !s.tasks[i].hasCallback || s.tasks[i].state == Running then s
    else s.(tasks := s.tasks[i := MarkReady(s.tasks[i], s.ticks, s.ticks)])
  }

  function WakeUrgent(s: Sched, i: nat): Sched {
    if i >= |s.tasks| || !s.tasks[i].hasCallback || s.tasks[i].state == Running then s
    else s.(tasks := s.tasks[i := MarkReady(s.tasks[i], s.ticks, s.ticks).(urgent := true)],
            urgentWakes := s.urgentWakes + 1)
  }

  function WaitCurrent(s: Sched): Sched {
    if s.current.None? || s.current.value >= |s.tasks| then s
    else
      var i := s.current.value;
      s.(tasks := s.tasks[i := s.tasks[i].(state := Waiting, wakeTick := 0, readySince := 0, urgent := false)])
  }

  function SleepCurrent(s: Sched, ticks: nat): Sched {
    if s.current.None? || s.current.value >= |s.tasks| then s
    else
      var i, wake := s.current.value, s.ticks + Max(ticks, 1);
      s.(tasks := s.tasks[i := s.tasks[i].(state := Sleeping, wakeTick := wake, nextRun := wake,
                                           readySince := wake, urgent := false)])
  }

  function WokenSleeper(t: Task, ticks: nat): Task {
    if t.state == Sleeping && t.wakeTick != 0 && t.wakeTick <= ticks then MarkReady(t, ticks, ticks) else t
  }

  function OnTick(s: Sched): Sched {
    var now := s.ticks + 1;
    s.(ticks := now, tasks := seq(|s.tasks|, i requires 0 <= i < |s.tasks| => WokenSleeper(s.tasks[i], now)))
  }

  // ---- selection ----

  predicate Due(s: Sched, i: nat) {
    i < |s.tasks| && s.tasks[i].hasCallback && s.tasks[i].state == Ready && s.tasks[i].nextRun <= s.ticks
  }

  function Age(s: Sched, i: nat): nat
    requires i < |s.tasks|
  {
    if s.ticks <= s.tasks[i].readySince then 0 else Min(s.ticks - s.tasks[i].readySince, FAIRNESS_MAX_AGE)
  }

  function Score(s: Sched, i: nat): nat
    requires i < |s.tasks|
  {
    s.tasks[i].priority * PRIORITY_WEIGHT + Age(s, i)
  }

  predicate UrgentBeats(s: Sched, a: nat, b: nat)
    requires a < |s.tasks| && b < |s.tasks|
  {
    || s.tasks[a].priority > s.tasks[b].priority
    || (s.tasks[a].priority == s.tasks[b].priority && Age(s, a) > Age(s, b))
  }

  /** How many steps after the cursor a slot comes in cyclic order. */
  function Distance(s: Sched, i: nat): nat
    requires i < |s.tasks| && s.cursor < |s.tasks|
  {
    if i >= s.cursor then i - s.cursor else i + |s.tasks| - s.cursor
  }

  predicate AnyUrgentDue(s: Sched) {
    exists i :: 0 <= i < |s.tasks| && Due(s, i) && s.tasks[i].urgent
  }

  /**
   The selection rule. If any due task is urgent, the urgent one of highest (priority, age);
   otherwise the one of highest score; ties go to the first in cyclic order from the cursor.
   */
  predicate IsPick(s: Sched, b: nat)
    requires s.cursor < |s.tasks|
  {
    && Due(s, b)
    && if AnyUrgentDue(s)
       then s.tasks[b].urgent
            && forall j :: 0 <= j < |s.tasks| && Due(s, j) && s.tasks[j].urgent ==>
                 !UrgentBeats(s, j, b) && (UrgentBeats(s, b, j) || Distance(s, b) <= Distance(s, j))
       else forall j :: 0 <= j < |s.tasks| && Due(s, j) ==>
              Score(s, j) <= Score(s, b) && (Score(s, j) == Score(s, b) ==> Distance(s, b) <= Distance(s, j))
  }

  /** A later candidate replaces the best so far. */
  predicate Replaces(s: Sched, c: nat, best: nat)
    requires c < |s.tasks| && best < |s.tasks|
  {
    if s.tasks[c].urgent
    then !s.tasks[best].urgent || UrgentBeats(s, c, best)
    else !s.tasks[best].urgent && Score(s, c) > Score(s, best)
  }

  /** The best of the first `k` slots in cyclic order, as a single pass finds it. */
  function Scan(s: Sched, k: nat): (r: Option<nat>)
    requires k <= |s.tasks|
    ensures r.Some? ==> r.value < |s.tasks| && Due(s, r.value)
  {
    if k == 0 then None
    else
      var best, c := Scan(s, k - 1), (s.cursor + k - 1) % |s.tasks|;
      if !Due(s, c) then best
      else if best.None? || Replaces(s, c, best.value) then Some(c)
      else best
  }

  function Pick(s: Sched): Option<nat> {
    Scan(s, |s.tasks|)
  }

  /** The rule leaves no choice. */
  lemma PickUnique(s: Sched, a: nat, b: nat)
    requires s.cursor < |s.tasks| && IsPick(s, a) && IsPick(s, b)
    ensures a == b
  {
    assert Distance(s, a) == Distance(s, b);
  }

  lemma Position(s: Sched, k: nat)
    requires s.cursor < |s.tasks| && k < |s.tasks|
    ensures var c := (s.cursor + k) % |s.tasks|; c < |s.tasks| && Distance(s, c) == k
  {
    WrapOnce(s.cursor + k, |s.tasks|);
  }

  lemma AtDistance(s: Sched, j: nat)
    requires s.cursor < |s.tasks| && j < |s.tasks|
    ensures (s.cursor + Distance(s, j)) % |s.tasks| == j
  {
    Position(s, Distance(s, j));
  }

  /** What the single pass has established after `k` candidates. */
  lemma {:induction false} ScanBest(s: Sched, k: nat)
    requires s.cursor < |s.tasks| && k <= |s.tasks|
    ensures Scan(s, k).None? ==> forall j :: 0 <= j < |s.tasks| && Distance(s, j) < k ==> !Due(s, j)
    ensures Scan(s, k).Some? ==>
              var b := Scan(s, k).value;
              && Distance(s, b) < k
              && forall j :: 0 <= j < |s.tasks| && Distance(s, j) < k && Due(s, j) && j != b ==>
                   !Replaces(s, j, b) && (Replaces(s, b, j) || Distance(s, b) < Distance(s, j))
  {
    if k != 0 {
      ScanBest(s, k - 1);
      Position(s, k - 1);
      var c := (s.cursor + k - 1) % |s.tasks|;
      forall j | 0 <= j < |s.tasks| && Distance(s, j) < k
        ensures Distance(s, j) < k - 1 || j == c
      {
        AtDistance(s, j);
      }
    }
  }

  /** The single pass finds the rule's choice, and finds nothing only when nothing is due. */
  lemma PickIsPick(s: Sched)
    requires s.cursor < |s.tasks|
    ensures match Pick(s)
            case Some(b) => IsPick(s, b)
            case None => forall i :: 0 <= i < |s.tasks| ==> !Due(s, i)
  {
    ScanBest(s, |s.tasks|);
    if Pick(s).Some? {
      var b := Pick(s).value;
      forall j | 0 <= j < |s.tasks| && Due(s, j)
        ensures Distance(s, j) < |s.tasks|
      {
      }
    }
  }

  // ---- running ----

  function Begin(s: Sched, i: nat): Sched
    requires i < |s.tasks|
  {
    s.(cursor := (i + 1) % |s.tasks|,
       current := Some(i),
       tasks := s.tasks[i := s.tasks[i].(state := Running, urgent := false,
                                         runCount := s.tasks[i].runCount + 1, lastRun := s.ticks)])
  }

  function Finish(s: Sched, i: nat): Sched
    requires i < |s.tasks|
  {
    var t := s.tasks[i];
    var done := if t.state != Running then t
                else if t.period == 0 then t.(state := Waiting, readySince := 0)
                else MarkReady(t, s.ticks, s.ticks + t.period);
    s.(tasks := s.tasks[i := done], current := None, totalRuns := s.totalRuns + 1)
  }

  /** What a callback may ask of the scheduler. */
  datatype Action = DoWake(task: nat) | DoWakeUrgent(task: nat) | DoWait | DoSleep(ticks: nat)

  function Act(s: Sched, a: Action): Sched {
    match a
    case DoWake(i) => Wake(s, i)
    case DoWakeUrgent(i) => WakeUrgent(s, i)
    case DoWait => WaitCurrent(s)
    case DoSleep(n) => SleepCurrent(s, n)
  }

  function ActAll(s: Sched, script: seq<Action>): Sched
    decreases script
  {
    if script == [] then s else ActAll(Act(s, script[0]), script[1..])
  }

  lemma {:induction false} ActAllShape(s: Sched, script: seq<Action>)
    ensures var u := ActAll(s, script);
            |u.tasks| == |s.tasks| && u.ticks == s.ticks && u.cursor == s.cursor && u.current == s.current
    decreases script
  {
    if script != [] {
      ActAllShape(Act(s, script[0]), script[1..]);
    }
  }

  /** One iteration of the run loop: pick, run the callback's script, settle the task. */
  function RunOne(s: Sched, script: seq<Action>): Sched {
    match Pick(s)
    case None => s
    case Some(i) =>
      var u := ActAll(Begin(s, i), script);
      ActAllShape(Begin(s, i), script);
      Finish(u, i)
  }
}
