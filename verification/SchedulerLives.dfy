/**
 The scheduler told as a diary. Of each task the diary keeps only what it last did or had done
 to it: it waits, it runs, or it may run from some tick on, perhaps urgently. States, wake
 ticks, next-run ticks and ready-since ticks are all derived from that, over every run; and so
 is who runs next, by a rule on priorities and waiting times alone.
 */
module SchedulerLives {
  import opened Prelude
  import opened SchedulerSpec
  import opened SchedulerRuns

  /** Waiting for a wake, running, or free to run from a tick on. */
  datatype Life = Idle | Busy | From(tick: nat, urgent: bool)

  datatype Diary = Diary(
    now: nat,
    lives: seq<Life>,
    priorities: seq<nat>,
    periods: seq<nat>,
    runs: seq<nat>,
    next: nat,
    totalRuns: nat,
    boosts: nat)

  const BLANK: Diary := Diary(0, [], [], [], [], 0, 0, 0)

  predicate Sized(d: Diary) {
    |d.lives| == |d.priorities| == |d.periods| == |d.runs|
  }

  // ---- what each step writes ----

  /** A new task may run after its delay; an unknown priority counts as normal. */
  function NoteRegister(d: Diary, priority: nat, delay: nat, period: nat, hasCallback: bool): Diary {
    if |d.lives| >= 16 || !hasCallback then d
    else d.(lives := d.lives + [From(d.now + delay, false)], periods := d.periods + [period], runs := d.runs + [0],
            priorities := d.priorities + [if priority <= 4 then priority else 2])
  }

  /** A wake counts from now, and does nothing to a running task. */
  function NoteWake(d: Diary, i: nat, urgent: bool): Diary {
    if i < |d.lives| && !d.lives[i].Busy?
    then d.(lives := d.lives[i := From(d.now, urgent)], boosts := d.boosts + if urgent then 1 else 0)
    else d
  }

  /** What a callback of task `i` asks for; a sleep lasts at least one tick. */
  function NoteAction(d: Diary, i: nat, a: Action): Diary
    requires i < |d.lives|
  {
    match a
    case DoWake(j) => NoteWake(d, j, false)
    case DoWakeUrgent(j) => NoteWake(d, j, true)
    case DoWait => d.(lives := d.lives[i := Idle])
    case DoSleep(n) => d.(lives := d.lives[i := From(d.now + if n == 0 then 1 else n, false)])
  }

  function NoteActions(d: Diary, i: nat, script: seq<Action>): (r: Diary)
    requires i < |d.lives|
    ensures |r.lives| == |d.lives| && r.periods == d.periods && r.priorities == d.priorities && r.runs == d.runs
    ensures r.now == d.now && r.next == d.next && r.totalRuns == d.totalRuns
    decreases script
  {
    if script == [] then d else NoteActions(NoteAction(d, i, script[0]), i, script[1..])
  }

  function NoteBegin(d: Diary, i: nat): Diary
    requires Sized(d) && i < |d.lives|
  {
    d.(lives := d.lives[i := Busy], runs := d.runs[i := d.runs[i] + 1], next := if i + 1 < |d.lives| then i + 1 else 0)
  }

  /** A callback that asked for nothing runs again a period later, or waits if it has none. */
  function NoteEnd(d: Diary, i: nat): Diary
    requires Sized(d) && i < |d.lives|
  {
    d.(lives := d.lives[i := if !d.lives[i].Busy? then d.lives[i]
                             else if d.periods[i] == 0 then Idle else From(d.now + d.periods[i], false)],
       totalRuns := d.totalRuns + 1)
  }

  // ---- who runs ----

  predicate MayRun(d: Diary, i: nat) {
    i < |d.lives| && d.lives[i].From? && d.lives[i].tick <= d.now
  }

  /** How long a task that may run has been let wait, as far as it counts. */
  function Patience(d: Diary, i: nat): nat
    requires MayRun(d, i)
  {
    if d.now - d.lives[i].tick < 15 then d.now - d.lives[i].tick else 15
  }

  /** Place in the round that starts at the task after the last one that ran. */
  function Turn(d: Diary, i: nat): int {
    if d.next <= i then i - d.next else i - d.next + |d.lives|
  }

  /** Urgent before ordinary, then priority, then patience, then the round. */
  predicate UrgentFirst(d: Diary, b: nat, j: nat)
    requires Sized(d) && MayRun(d, b) && MayRun(d, j)
  {
    || !d.lives[j].urgent
    || d.priorities[j] < d.priorities[b]
    || (d.priorities[j] == d.priorities[b]
        && (Patience(d, j) < Patience(d, b) || (Patience(d, j) == Patience(d, b) && Turn(d, b) <= Turn(d, j))))
  }

  /** Four ticks of patience weigh as much as one level of priority. */
  predicate HeavierFirst(d: Diary, b: nat, j: nat)
    requires Sized(d) && MayRun(d, b) && MayRun(d, j)
  {
    var wb, wj := 4 * d.priorities[b] + Patience(d, b), 4 * d.priorities[j] + Patience(d, j);
    wj < wb || (wj == wb && Turn(d, b) <= Turn(d, j))
  }

  ghost predicate Chosen(d: Diary, b: nat)
    requires Sized(d)
  {
    && MayRun(d, b)
    && if d.lives[b].urgent then forall j: nat :: MayRun(d, j) ==> UrgentFirst(d, b, j)
       else forall j: nat :: MayRun(d, j) ==> !d.lives[j].urgent && HeavierFirst(d, b, j)
  }

  /** The one task that the rule chooses, if any may run. */
  ghost function Choice(d: Diary): Option<nat>
    requires Sized(d)
  {
    if exists b: nat :: Chosen(d, b) then
      var b: nat :| Chosen(d, b);
      Some(b)
    else None
  }

  ghost function Note(d: Diary, step: SchedStep): (r: Diary)
    requires Sized(d)
    ensures Sized(r)
  {
    match step
    case RegisterStep(priority, delay, period, hasCallback) => NoteRegister(d, priority, delay, period, hasCallback)
    case TickStep => d.(now := d.now + 1)
    case WakeStep(i) => NoteWake(d, i, false)
    case WakeUrgentStep(i) => NoteWake(d, i, true)
    case RunStep(script) =>
      match Choice(d)
      case None => d
      case Some(b) => NoteEnd(NoteActions(NoteBegin(d, b), b, script), b)
  }

  ghost function NoteAll(d: Diary, steps: seq<SchedStep>): (r: Diary)
    requires Sized(d)
    ensures Sized(r)
    decreases steps
  {
    if steps == [] then d else NoteAll(Note(d, steps[0]), steps[1..])
  }

  // ---- the scheduler keeps to its diary ----

  /** A task's fields follow from its life: what may run from a tick is due then and ready since then. */
  predicate Lives(t: Task, life: Life, now: nat) {
    && t.hasCallback
    && match life
       case Idle => t.state == Waiting && !t.urgent
       case Busy => t.state == Running && !t.urgent
       case From(tick, urgent) =>
         && t.nextRun == t.readySince == tick && t.urgent == urgent
         && (t.state == Ready || (t.state == Sleeping && t.wakeTick == tick > now))
         && (urgent ==> t.state == Ready && tick <= now)
  }

  predicate TaskKept(s: Sched, d: Diary, i: nat)
    requires Sized(d) && i < |s.tasks| == |d.lives|
  {
    && Lives(s.tasks[i], d.lives[i], d.now)
    && s.tasks[i].priority == d.priorities[i] && s.tasks[i].period == d.periods[i]
    && s.tasks[i].runCount == d.runs[i]
    && (d.lives[i].Busy? ==> s.current == Some(i))
  }

  predicate Kept(s: Sched, d: Diary) {
    && Sized(d) && |s.tasks| == |d.lives| && s.ticks == d.now && s.cursor == d.next
    && s.totalRuns == d.totalRuns && s.urgentWakes == d.boosts
    && (if |s.tasks| == 0 then s.cursor == 0 else s.cursor < |s.tasks|)
    && (forall i :: 0 <= i < |s.tasks| ==> TaskKept(s, d, i))
  }

  lemma RegisterKept(s: Sched, d: Diary, priority: nat, delay: nat, period: nat, hasCallback: bool)
    requires Kept(s, d)
    ensures Kept(Register(s, priority, delay, period, hasCallback),
                 NoteRegister(d, priority, delay, period, hasCallback))
  {
    var u := Register(s, priority, delay, period, hasCallback);
    var e := NoteRegister(d, priority, delay, period, hasCallback);
    forall i | 0 <= i < |u.tasks|
      ensures TaskKept(u, e, i)
    {
      if i < |s.tasks| {
        assert TaskKept(s, d, i);
      }
    }
  }

  lemma WakeKept(s: Sched, d: Diary, i: nat)
    requires Kept(s, d)
    ensures Kept(Wake(s, i), NoteWake(d, i, false)) && Kept(WakeUrgent(s, i), NoteWake(d, i, true))
    ensures Wake(s, i).current == WakeUrgent(s, i).current == s.current
  {
    forall j | 0 <= j < |s.tasks|
      ensures TaskKept(Wake(s, i), NoteWake(d, i, false), j) && TaskKept(WakeUrgent(s, i), NoteWake(d, i, true), j)
    {
      assert TaskKept(s, d, j);
      if i < |s.tasks| {
        assert TaskKept(s, d, i);
      }
    }
    if i < |s.tasks| {
      assert TaskKept(s, d, i);
    }
  }

  lemma TickKept(s: Sched, d: Diary)
    requires Kept(s, d)
    ensures Kept(OnTick(s), d.(now := d.now + 1))
  {
    var u, e := OnTick(s), d.(now := d.now + 1);
    forall i | 0 <= i < |u.tasks|
      ensures TaskKept(u, e, i)
    {
      assert TaskKept(s, d, i);
    }
  }

  lemma ActionKept(s: Sched, d: Diary, i: nat, a: Action)
    requires Kept(s, d) && i < |s.tasks| && s.current == Some(i)
    ensures Kept(Act(s, a), NoteAction(d, i, a)) && Act(s, a).current == s.current
  {
    match a
    case DoWake(j) => WakeKept(s, d, j);
    case DoWakeUrgent(j) => WakeKept(s, d, j);
    case DoWait =>
      forall j | 0 <= j < |s.tasks|
        ensures TaskKept(Act(s, a), NoteAction(d, i, a), j)
      {
        assert TaskKept(s, d, j);
      }
    case DoSleep(_) =>
      forall j | 0 <= j < |s.tasks|
        ensures TaskKept(Act(s, a), NoteAction(d, i, a), j)
      {
        assert TaskKept(s, d, j);
      }
  }

  lemma {:induction false} ScriptKept(s: Sched, d: Diary, i: nat, script: seq<Action>)
    requires Kept(s, d) && i < |s.tasks| && s.current == Some(i)
    ensures Kept(ActAll(s, script), NoteActions(d, i, script)) && ActAll(s, script).current == s.current
    decreases script
  {
    if script != [] {
      ActionKept(s, d, i, script[0]);
      ScriptKept(Act(s, script[0]), NoteAction(d, i, script[0]), i, script[1..]);
    }
  }

  /** Between steps nothing runs. */
  predicate NoneBusy(d: Diary) {
    forall i :: 0 <= i < |d.lives| ==> !d.lives[i].Busy?
  }

  lemma BeginKept(s: Sched, d: Diary, i: nat)
    requires Kept(s, d) && NoneBusy(d) && i < |s.tasks|
    ensures Kept(Begin(s, i), NoteBegin(d, i))
  {
    forall j | 0 <= j < |s.tasks|
      ensures TaskKept(Begin(s, i), NoteBegin(d, i), j)
    {
      assert TaskKept(s, d, j);
    }
    assert (i + 1) % |s.tasks| == if i + 1 < |s.tasks| then i + 1 else 0;
  }

  lemma EndKept(s: Sched, d: Diary, i: nat)
    requires Kept(s, d) && i < |s.tasks| && s.current == Some(i)
    ensures Kept(Finish(s, i), NoteEnd(d, i)) && NoneBusy(NoteEnd(d, i))
  {
    assert TaskKept(s, d, i);
    forall j | 0 <= j < |s.tasks|
      ensures TaskKept(Finish(s, i), NoteEnd(d, i), j) && !NoteEnd(d, i).lives[j].Busy?
    {
      assert TaskKept(s, d, j);
    }
  }

  // ---- and picks by it ----

  lemma DueIsMayRun(s: Sched, d: Diary, i: nat)
    requires Kept(s, d) && i < |s.tasks|
    ensures Due(s, i) <==> MayRun(d, i)
    ensures MayRun(d, i) ==> s.tasks[i].urgent == d.lives[i].urgent && Age(s, i) == Patience(d, i)
                             && s.tasks[i].priority == d.priorities[i] && Distance(s, i) == Turn(d, i)
  {
    assert TaskKept(s, d, i);
  }

  lemma PickIsChosen(s: Sched, d: Diary, b: nat)
    requires Kept(s, d) && b < |s.tasks|
    ensures IsPick(s, b) <==> Chosen(d, b)
  {
    forall j | 0 <= j < |s.tasks|
      ensures Due(s, j) <==> MayRun(d, j)
      ensures MayRun(d, j) ==> s.tasks[j].urgent == d.lives[j].urgent && Age(s, j) == Patience(d, j)
                               && s.tasks[j].priority == d.priorities[j] && Distance(s, j) == Turn(d, j)
    {
      DueIsMayRun(s, d, j);
    }
    hide Due, Age, Distance, Lives;
  }

  /** The scheduler picks what the diary's rule chooses. */
  lemma PickIsChoice(s: Sched, d: Diary)
    requires Kept(s, d)
    ensures Pick(s) == Choice(d)
  {
    if |s.tasks| > 0 {
      PickIsPick(s);
      forall b | 0 <= b < |s.tasks|
        ensures IsPick(s, b) <==> Chosen(d, b)
      {
        PickIsChosen(s, d, b);
      }
      if Pick(s).Some? {
        assert Chosen(d, Pick(s).value);
        PickUnique(s, Pick(s).value, Choice(d).value);
      }
    }
  }

  lemma StepKept(s: Sched, d: Diary, step: SchedStep)
    requires Kept(s, d) && NoneBusy(d)
    ensures Kept(ApplyStep(s, step), Note(d, step)) && NoneBusy(Note(d, step))
  {
    match step
    case RegisterStep(priority, delay, period, hasCallback) => RegisterKept(s, d, priority, delay, period, hasCallback);
    case TickStep => TickKept(s, d);
    case WakeStep(i) => WakeKept(s, d, i);
    case WakeUrgentStep(i) => WakeKept(s, d, i);
    case RunStep(script) =>
      PickIsChoice(s, d);
      hide Kept, NoneBusy, Pick;
      if Pick(s).Some? {
        var b := Pick(s).value;
        BeginKept(s, d, b);
        ScriptKept(Begin(s, b), NoteBegin(d, b), b, script);
        ActAllShape(Begin(s, b), script);
        EndKept(ActAll(Begin(s, b), script), NoteActions(NoteBegin(d, b), b, script), b);
      }
  }

  /** Over every run the scheduler is what its diary says. */
  lemma {:induction false} RunKept(s: Sched, d: Diary, steps: seq<SchedStep>)
    requires Kept(s, d) && NoneBusy(d)
    ensures Kept(ApplySteps(s, steps), NoteAll(d, steps)) && NoneBusy(NoteAll(d, steps))
    decreases steps
  {
    assert Sized(d);
    hide Kept, NoneBusy, Note, ApplyStep;
    if steps != [] {
      StepKept(s, d, steps[0]);
      RunKept(ApplyStep(s, steps[0]), Note(d, steps[0]), steps[1..]);
    }
  }

  /**
   From boot, over every run: a task is due exactly when its diary lets it run, it has aged by
   the ticks since then, up to 15, and the next pick is the diary's choice.
   */
  lemma SchedulerKeepsDiary(steps: seq<SchedStep>, i: nat)
    ensures var s, d := ApplySteps(BOOT, steps), NoteAll(BLANK, steps);
            && Pick(s) == Choice(d) && |s.tasks| == |d.lives| && s.ticks == d.now
            && (i < |s.tasks| ==>
                  && (Due(s, i) <==> d.lives[i].From? && d.lives[i].tick <= d.now)
                  && (d.lives[i].From? ==>
                        && s.tasks[i].readySince == s.tasks[i].nextRun == d.lives[i].tick
                        && Age(s, i) == Min(15, Max(0, d.now - d.lives[i].tick)))
                  && (s.tasks[i].urgent <==> d.lives[i].From? && d.lives[i].urgent)
                  && s.tasks[i].priority == d.priorities[i] && s.tasks[i].runCount == d.runs[i])
            && s.totalRuns == d.totalRuns && s.urgentWakes == d.boosts
  {
    RunKept(BOOT, BLANK, steps);
    var s, d := ApplySteps(BOOT, steps), NoteAll(BLANK, steps);
    PickIsChoice(s, d);
    if i < |s.tasks| {
      assert TaskKept(s, d, i);
    }
    hide Pick, Choice, NoteAll, ApplySteps;
  }

  // ---- what follows about single tasks ----

  predicate Wakes(script: seq<Action>, i: nat) {
    DoWake(i) in script || DoWakeUrgent(i) in script
  }

  /** The steps neither wake nor run the task. */
  ghost predicate LeftAlone(d: Diary, steps: seq<SchedStep>, i: nat)
    requires Sized(d)
    decreases steps
  {
    steps == [] ||
    (&& (match steps[0]
         case WakeStep(j) => j != i
         case WakeUrgentStep(j) => j != i
         case RunStep(script) => !Wakes(script, i) && Choice(d) != Some(i)
         case RegisterStep(_, _, _, _) => true
         case TickStep => true)
     && LeftAlone(Note(d, steps[0]), steps[1..], i))
  }

  lemma {:induction false} ActionsLeave(d: Diary, b: nat, script: seq<Action>, i: nat)
    requires b < |d.lives| && i < |d.lives| && i != b && !Wakes(script, i)
    ensures NoteActions(d, b, script).lives[i] == d.lives[i]
    decreases script
  {
    if script != [] {
      assert script[0] in script && forall a :: a in script[1..] ==> a in script;
      ActionsLeave(NoteAction(d, b, script[0]), b, script[1..], i);
    }
  }

  lemma StepLeaves(d: Diary, step: SchedStep, i: nat)
    requires Sized(d) && i < |d.lives| && LeftAlone(d, [step], i)
    ensures i < |Note(d, step).lives| && Note(d, step).lives[i] == d.lives[i]
  {
    if step.RunStep? && Choice(d).Some? {
      var b := Choice(d).value;
      ActionsLeave(NoteBegin(d, b), b, step.script, i);
    }
  }

  lemma {:induction false} RunLeaves(d: Diary, steps: seq<SchedStep>, i: nat)
    requires Sized(d) && i < |d.lives| && LeftAlone(d, steps, i)
    ensures i < |NoteAll(d, steps).lives| && NoteAll(d, steps).lives[i] == d.lives[i]
    decreases steps
  {
    if steps != [] {
      assert [steps[0]][1..] == [];
      assert LeftAlone(d, [steps[0]], i);
      StepLeaves(d, steps[0], i);
      hide Note;
      RunLeaves(Note(d, steps[0]), steps[1..], i);
    }
  }

  /** A task that may run from a tick on, and is left alone, has the age of the ticks since then. */
  lemma AgesFromItsTick(s: Sched, d: Diary, steps: seq<SchedStep>, i: nat)
    requires Kept(s, d) && NoneBusy(d) && i < |d.lives| && d.lives[i].From? && LeftAlone(d, steps, i)
    ensures var u := ApplySteps(s, steps);
            i < |u.tasks| && Age(u, i) == Min(15, Max(0, u.ticks - d.lives[i].tick))
            && (Due(u, i) <==> u.ticks >= d.lives[i].tick)
  {
    RunKept(s, d, steps);
    RunLeaves(d, steps, i);
    assert TaskKept(ApplySteps(s, steps), NoteAll(d, steps), i);
    hide ApplySteps, NoteAll, LeftAlone;
  }

  /** After its turn, a periodic task whose callback asked for nothing ages from a period later on. */
  lemma PeriodicAge(s: Sched, d: Diary, script: seq<Action>, steps: seq<SchedStep>)
    requires Kept(s, d) && NoneBusy(d) && Pick(s).Some? && s.tasks[Pick(s).value].period != 0
    requires var i := Pick(s).value;
             && (forall a :: a in script ==> !a.DoWait? && !a.DoSleep?)
             && LeftAlone(Note(d, RunStep(script)), steps, i)
    ensures var i, u := Pick(s).value, ApplySteps(RunOne(s, script), steps);
            && i < |u.tasks| && Age(u, i) == Min(15, Max(0, u.ticks - (s.ticks + s.tasks[i].period)))
            && (Due(u, i) <==> u.ticks >= s.ticks + s.tasks[i].period)
  {
    var i := Pick(s).value;
    PickIsChoice(s, d);
    assert TaskKept(s, d, i);
    StaysBusy(NoteBegin(d, i), i, script);
    StepKept(s, d, RunStep(script));
    assert Note(d, RunStep(script)).lives[i] == From(d.now + d.periods[i], false);
    hide Note, Kept, NoneBusy, Pick;
    AgesFromItsTick(RunOne(s, script), Note(d, RunStep(script)), steps, i);
  }

  lemma {:induction false} StaysBusy(d: Diary, i: nat, script: seq<Action>)
    requires i < |d.lives| && d.lives[i].Busy? && forall a :: a in script ==> !a.DoWait? && !a.DoSleep?
    ensures NoteActions(d, i, script).lives[i].Busy?
    decreases script
  {
    if script != [] {
      assert script[0] in script && forall a :: a in script[1..] ==> a in script;
      StaysBusy(NoteAction(d, i, script[0]), i, script[1..]);
    }
  }

  /** A woken task ages from the wake on. */
  lemma WokenAge(s: Sched, d: Diary, urgent: bool, steps: seq<SchedStep>, i: nat)
    requires Kept(s, d) && NoneBusy(d) && i < |s.tasks|
    requires LeftAlone(NoteWake(d, i, urgent), steps, i)
    ensures var u := ApplySteps(if urgent then WakeUrgent(s, i) else Wake(s, i), steps);
            i < |u.tasks| && Due(u, i) && Age(u, i) == Min(15, u.ticks - s.ticks)
  {
    var e := NoteWake(d, i, urgent);
    WakeKept(s, d, i);
    RunKept(if urgent then WakeUrgent(s, i) else Wake(s, i), e, steps);
    AgesFromItsTick(if urgent then WakeUrgent(s, i) else Wake(s, i), e, steps, i);
    NowGrows(e, steps);
    hide ApplySteps, NoteAll, LeftAlone;
  }

  lemma {:induction false} NowGrows(d: Diary, steps: seq<SchedStep>)
    requires Sized(d)
    ensures NoteAll(d, steps).now >= d.now
    decreases steps
  {
    if steps != [] {
      NowGrows(Note(d, steps[0]), steps[1..]);
    }
  }

  /** The task that ran last is last in the round: on equal weight any other goes first. */
  lemma LastGoesLast(s: Sched, d: Diary, script: seq<Action>)
    requires Kept(s, d) && NoneBusy(d) && Pick(s).Some?
    ensures var i, e := Pick(s).value, Note(d, RunStep(script));
            Turn(e, i) == |e.lives| - 1 && RunOne(s, script).cursor == if i + 1 < |s.tasks| then i + 1 else 0
  {
    PickIsChoice(s, d);
    StepKept(s, d, RunStep(script));
  }
}
