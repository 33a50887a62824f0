/**
 Whole-run properties of the scheduler: urgent flags are only ever set on tasks that are
 ready and due, urgent tasks are served first and in priority order, and the aging rule
 bounds how long a fresh higher-priority task can overtake.
 */
module SchedulerRuns {
  import opened Prelude
  import opened SchedulerSpec

  // ---- urgent flags ----

  predicate UrgentOk(s: Sched) {
    forall i :: 0 <= i < |s.tasks| && s.tasks[i].urgent ==> Due(s, i)
  }

  predicate SchedOk(s: Sched) {
    && |s.tasks| <= MAX_TASKS
    && (if |s.tasks| == 0 then s.cursor == 0 else s.cursor < |s.tasks|)
    && (forall i :: 0 <= i < |s.tasks| ==> s.tasks[i].priority < PRIORITY_LEVELS)
    && UrgentOk(s)
  }

  datatype SchedStep =
    | RegisterStep(priority: nat, delay: nat, period: nat, hasCallback: bool)
    | TickStep
    | WakeStep(task: nat)
    | WakeUrgentStep(task: nat)
    | RunStep(script: seq<Action>)

  function ApplyStep(s: Sched, step: SchedStep): Sched {
    match step
    case RegisterStep(priority, delay, period, hasCallback) => Register(s, priority, delay, period, hasCallback)
    case TickStep => OnTick(s)
    case WakeStep(i) => Wake(s, i)
    case WakeUrgentStep(i) => WakeUrgent(s, i)
    case RunStep(script) => RunOne(s, script)
  }

  function ApplySteps(s: Sched, steps: seq<SchedStep>): Sched
    decreases steps
  {
    if steps == [] then s else ApplySteps(ApplyStep(s, steps[0]), steps[1..])
  }

  lemma {:induction false} ActAllKeepsOk(s: Sched, script: seq<Action>)
    requires SchedOk(s)
    ensures SchedOk(ActAll(s, script))
    decreases script
  {
    if script != [] {
      ActAllKeepsOk(Act(s, script[0]), script[1..]);
    }
  }

  lemma FinishKeepsOk(s: Sched, i: nat)
    requires SchedOk(s) && i < |s.tasks|
    ensures SchedOk(Finish(s, i))
  {
  }

  lemma RunOneKeepsOk(s: Sched, script: seq<Action>)
    requires SchedOk(s)
    ensures SchedOk(RunOne(s, script))
  {
    if Pick(s).Some? {
      var i := Pick(s).value;
      ActAllShape(Begin(s, i), script);
      ActAllKeepsOk(Begin(s, i), script);
      FinishKeepsOk(ActAll(Begin(s, i), script), i);
    }
  }

  lemma StepKeepsOk(s: Sched, step: SchedStep)
    requires SchedOk(s)
    ensures SchedOk(ApplyStep(s, step))
  {
    match step
    case RunStep(script) => RunOneKeepsOk(s, script);
    case RegisterStep(_, _, _, _) =>
    case TickStep =>
    case WakeStep(_) =>
    case WakeUrgentStep(_) =>
  }

  /** In every reachable state an urgent task is ready and due. */
  lemma {:induction false} RunsKeepOk(s: Sched, steps: seq<SchedStep>)
    requires SchedOk(s)
    ensures SchedOk(ApplySteps(s, steps))
    decreases steps
  {
    if steps != [] {
      StepKeepsOk(s, steps[0]);
      RunsKeepOk(ApplyStep(s, steps[0]), steps[1..]);
    }
  }

  lemma UrgentImpliesDueFromBoot(steps: seq<SchedStep>)
    ensures var s := ApplySteps(BOOT, steps);
            forall i :: 0 <= i < |s.tasks| && s.tasks[i].urgent ==> Due(s, i)
  {
    RunsKeepOk(BOOT, steps);
  }

  /** A run is skipped only when no task is due. */
  lemma RunOneIdleIff(s: Sched, script: seq<Action>)
    requires SchedOk(s)
    ensures RunOne(s, script) == s <==> forall i :: 0 <= i < |s.tasks| ==> !Due(s, i)
  {
    if |s.tasks| > 0 {
      PickIsPick(s);
    }
    if Pick(s).Some? {
      var i := Pick(s).value;
      ActAllShape(Begin(s, i), script);
      ActAllRuns(Begin(s, i), script);
    }
  }

  lemma {:induction false} ActAllRuns(s: Sched, script: seq<Action>)
    ensures ActAll(s, script).totalRuns == s.totalRuns
    decreases script
  {
    if script != [] {
      ActAllRuns(Act(s, script[0]), script[1..]);
    }
  }

  // ---- draining the urgent tasks ----

  function UrgentSet(s: Sched): set<nat> {
    set i | 0 <= i < |s.tasks| && s.tasks[i].urgent
  }

  /** A script that wakes nobody. */
  predicate Quiet(script: seq<Action>) {
    forall a :: a in script ==> a.DoWait? || a.DoSleep?
  }

  lemma {:induction false} QuietTouchesCurrent(s: Sched, script: seq<Action>, i: nat)
    requires Quiet(script) && s.current == Some(i) && i < |s.tasks| && !s.tasks[i].urgent
    ensures var u := ActAll(s, script);
            && |u.tasks| == |s.tasks| && u.ticks == s.ticks && u.cursor == s.cursor
            && !u.tasks[i].urgent
            && u.tasks[i].priority == s.tasks[i].priority
            && forall j :: 0 <= j < |s.tasks| && j != i ==> u.tasks[j] == s.tasks[j]
    decreases script
  {
    if script != [] {
      assert script[0] in script;
      QuietTouchesCurrent(Act(s, script[0]), script[1..], i);
    }
  }

  lemma UrgentPickIsTop(s: Sched)
    requires SchedOk(s) && UrgentSet(s) != {}
    ensures Pick(s).Some? && Pick(s).value in UrgentSet(s)
    ensures forall j :: j in UrgentSet(s) ==> s.tasks[j].priority <= s.tasks[Pick(s).value].priority
  {
    var u :| u in UrgentSet(s);
    assert Due(s, u);
    PickIsPick(s);
    var b := Pick(s).value;
    forall j | j in UrgentSet(s)
      ensures s.tasks[j].priority <= s.tasks[b].priority
    {
      assert Due(s, j) && !UrgentBeats(s, j, b);
    }
  }

  /** One quiet run takes exactly the picked task out of the urgent set. */
  lemma QuietRunRemovesPick(s: Sched, script: seq<Action>)
    requires SchedOk(s) && UrgentSet(s) != {} && Quiet(script)
    ensures Pick(s).Some?
    ensures var u := RunOne(s, script);
            && SchedOk(u)
            && |u.tasks| == |s.tasks|
            && UrgentSet(u) == UrgentSet(s) - {Pick(s).value}
            && forall j :: 0 <= j < |s.tasks| ==> u.tasks[j].priority == s.tasks[j].priority
  {
    UrgentPickIsTop(s);
    var b := Pick(s).value;
    RunOneKeepsOk(s, script);
    QuietTouchesCurrent(Begin(s, b), script, b);
  }

  /** The tasks picked by running these scripts one after another. */
  function Picks(s: Sched, scripts: seq<seq<Action>>): seq<nat>
    decreases scripts
  {
    if scripts == [] then []
    else
      match Pick(s)
      case None => []
      case Some(b) => [b] + Picks(RunOne(s, scripts[0]), scripts[1..])
  }

  predicate NonIncreasing(s: Sched, picks: seq<nat>) {
    && (forall k :: 0 <= k < |picks| ==> picks[k] < |s.tasks|)
    && forall k, m :: 0 <= k < m < |picks| ==> s.tasks[picks[m]].priority <= s.tasks[picks[k]].priority
  }

  /** One pick of the drain, with everything about the next state that the rest needs. */
  lemma DrainStep(s: Sched, scripts: seq<seq<Action>>) returns (b: nat, u: Sched)
    requires SchedOk(s) && UrgentSet(s) != {} && scripts != [] && Quiet(scripts[0])
    ensures Picks(s, scripts) == [b] + Picks(u, scripts[1..])
    ensures SchedOk(u) && SamePriorities(s, u)
    ensures b in UrgentSet(s) && UrgentSet(u) == UrgentSet(s) - {b}
    ensures forall j :: j in UrgentSet(s) ==> s.tasks[j].priority <= s.tasks[b].priority
  {
    UrgentPickIsTop(s);
    QuietRunRemovesPick(s, scripts[0]);
    b, u := Pick(s).value, RunOne(s, scripts[0]);
  }

  predicate SamePriorities(s: Sched, u: Sched) {
    |u.tasks| == |s.tasks| && forall j :: 0 <= j < |s.tasks| ==> u.tasks[j].priority == s.tasks[j].priority
  }

  predicate IsDrain(s: Sched, picks: seq<nat>) {
    && |picks| == |UrgentSet(s)|
    && (forall k :: 0 <= k < |picks| ==> picks[k] in UrgentSet(s))
    && (forall i :: i in UrgentSet(s) ==> i in picks)
    && NonIncreasing(s, picks)
  }

  lemma PicksCons(s: Sched, u: Sched, b: nat, rest: seq<nat>)
    requires SamePriorities(s, u) && IsDrain(u, rest)
    requires b in UrgentSet(s) && UrgentSet(u) == UrgentSet(s) - {b}
    requires forall j :: j in UrgentSet(s) ==> s.tasks[j].priority <= s.tasks[b].priority
    ensures IsDrain(s, [b] + rest)
  {
    var picks := [b] + rest;
    forall k, m | 0 <= k < m < |picks|
      ensures s.tasks[picks[m]].priority <= s.tasks[picks[k]].priority
    {
      assert picks[m] == rest[m - 1] && rest[m - 1] in UrgentSet(s);
      if k > 0 {
        assert picks[k] == rest[k - 1];
      }
    }
    forall i | i in UrgentSet(s)
      ensures i in picks
    {
      assert i == b || i in rest;
    }
  }

  /**
   With n urgent tasks and callbacks that wake nothing, the next n picks are exactly those
   tasks, each once, in non-increasing priority.
   */
  lemma {:induction false} UrgentDrain(s: Sched, scripts: seq<seq<Action>>)
    requires SchedOk(s) && |scripts| == |UrgentSet(s)|
    requires forall x :: x in scripts ==> Quiet(x)
    ensures IsDrain(s, Picks(s, scripts))
    decreases scripts
  {
    if scripts != [] {
      var b, u := DrainStep(s, scripts);
      UrgentDrain(u, scripts[1..]);
      var rest := Picks(u, scripts[1..]);
      PicksCons(s, u, b, rest);
    }
  }

  // ---- aging ----

  /** Ticks a task has been ready for. */
  function Waited(s: Sched, i: nat): int
    requires i < |s.tasks|
  {
    s.ticks - s.tasks[i].readySince
  }

  /**
   Among non-urgent due tasks, one of priority p outscores a task of priority q that became
   ready this tick exactly when it has waited more than 4(q - p) ticks, for q - p up to 3;
   at q - p = 4 the cap on age means it never does.
   */
  lemma AgingIsSharp(s: Sched, old_: nat, fresh_: nat)
    requires old_ < |s.tasks| && fresh_ < |s.tasks|
    requires s.tasks[old_].priority <= s.tasks[fresh_].priority < PRIORITY_LEVELS
    requires Waited(s, fresh_) == 0
    ensures var gap := s.tasks[fresh_].priority - s.tasks[old_].priority;
            && (gap <= 3 ==> (Score(s, old_) > Score(s, fresh_) <==> Waited(s, old_) > 4 * gap))
            && (gap == 4 ==> Score(s, old_) < Score(s, fresh_))
  {
  }

  /** So a task that waited long enough is never passed over for the fresh one. */
  lemma AgedIsNotPassedOver(s: Sched, old_: nat, fresh_: nat)
    requires SchedOk(s) && !AnyUrgentDue(s)
    requires old_ < |s.tasks| && fresh_ < |s.tasks| && Due(s, old_) && Due(s, fresh_)
    requires Waited(s, fresh_) == 0
    requires var gap := s.tasks[fresh_].priority - s.tasks[old_].priority;
             0 <= gap <= 3 && Waited(s, old_) > 4 * gap
    ensures Pick(s) != Some(fresh_)
  {
    PickIsPick(s);
    AgingIsSharp(s, old_, fresh_);
  }

  /** And a fresh critical task is never passed over for a background one. */
  lemma CriticalBeatsBackground(s: Sched, old_: nat, fresh_: nat)
    requires SchedOk(s) && !AnyUrgentDue(s)
    requires old_ < |s.tasks| && fresh_ < |s.tasks| && Due(s, old_) && Due(s, fresh_)
    requires Waited(s, fresh_) == 0
    requires s.tasks[old_].priority == 0 && s.tasks[fresh_].priority == 4
    ensures Pick(s) != Some(old_)
  {
    PickIsPick(s);
    AgingIsSharp(s, old_, fresh_);
  }
}
