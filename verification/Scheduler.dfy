/**
 The scheduler in its own form: a fixed task array with a selection loop over running-best
 variables, and primitives that update one task in place. `View` is the value the methods
 are proved against. Callbacks appear as the scripts of scheduler calls they make.
 */
module Scheduler {
  import opened Prelude
  import opened SchedulerSpec
  import opened SchedulerRuns

  /** Runs until the scripts are used up or nothing is due. */
  function RunMany(s: Sched, scripts: seq<seq<Action>>): Sched
    decreases scripts
  {
    if scripts == [] || Pick(s).None? then s else RunMany(RunOne(s, scripts[0]), scripts[1..])
  }

  class Scheduler {
    const tasks: array<Task>
    var taskCount: nat
    var ticks: nat
    var cursor: nat
    var current: Option<nat>
    var totalRuns: nat
    var urgentWakes: nat

    ghost predicate Shape()
      reads this
    {
      && tasks.Length == MAX_TASKS
      && taskCount <= MAX_TASKS
      && (current.Some? ==> current.value < taskCount)
    }

    ghost function View(): Sched
      reads this, tasks
      requires Shape()
    {
      Sched(tasks[..taskCount], ticks, cursor, current, totalRuns, urgentWakes)
    }

    ghost predicate Valid()
      reads this, tasks
    {
      Shape() && SchedOk(View())
    }

    constructor ()
      ensures Valid() && fresh(tasks) && View() == BOOT
    {
      tasks := new Task[MAX_TASKS](_ => Task(0, 0, 0, 0, 0, 0, 0, false, Ready, false));
      taskCount, ticks, cursor, current, totalRuns, urgentWakes := 0, 0, 0, None, 0, 0;
      new;
      assert tasks[..0] == [];
    }

    /** Registers a task; refused when the table is full or there is no callback. */
    method RegisterCommon(priority: nat, delay: nat, period: nat, hasCallback: bool) returns (r: Option<nat>)
      requires Valid()
      modifies this, tasks
      ensures Valid()
      ensures View() == Register(old(View()), priority, delay, period, hasCallback)
      ensures r == if old(taskCount) >= MAX_TASKS || !hasCallback then None else Some(old(taskCount))
    {
      ghost var s := View();
      if taskCount >= MAX_TASKS || !hasCallback {
        return None;
      }
      var sane := if priority >= PRIORITY_LEVELS then PRIORITY_NORMAL else priority;
      tasks[taskCount] := Task(sane, period, ticks + delay, ticks + delay, 0, 0, 0, false, Ready, true);
      taskCount := taskCount + 1;
      r := Some(taskCount - 1);
      assert tasks[..taskCount] == s.tasks + [NewTask(priority, ticks + delay, period)];
      StepKeepsOk(s, RegisterStep(priority, delay, period, hasCallback));
    }

    method MarkTaskReady(i: nat, next: nat)
      requires Shape() && i < taskCount
      modifies tasks
      ensures tasks[..] == old(tasks[..])[i := MarkReady(old(tasks[i]), ticks, next)]
    {
      tasks[i] := tasks[i].(state := Ready, wakeTick := 0, nextRun := next,
                            readySince := if ticks >= next then ticks else next, urgent := false);
    }

    /** Advances time and wakes the sleepers that are due. */
    method Tick()
      requires Valid()
      modifies this`ticks, tasks
      ensures Valid()
      ensures View() == OnTick(old(View()))
    {
      ghost var s := View();
      ticks := ticks + 1;
      for index := 0 to taskCount
        invariant ticks == s.ticks + 1
        invariant forall j :: 0 <= j < index ==> tasks[j] == WokenSleeper(s.tasks[j], ticks)
        invariant forall j :: index <= j < taskCount ==> tasks[j] == s.tasks[j]
      {
        if tasks[index].state == Sleeping && tasks[index].wakeTick != 0 && tasks[index].wakeTick <= ticks {
          MarkTaskReady(index, ticks);
        }
      }
      assert tasks[..taskCount] == OnTick(s).tasks;
      StepKeepsOk(s, TickStep);
    }

    method WakeTask(i: nat)
      requires Valid()
      modifies tasks
      ensures Valid()
      ensures View() == Wake(old(View()), i)
    {
      ghost var s := View();
      StepKeepsOk(s, WakeStep(i));
      if i >= taskCount || !tasks[i].hasCallback || tasks[i].state == Running {
        return;
      }
      MarkTaskReady(i, ticks);
      assert tasks[..taskCount] == s.tasks[i := MarkReady(s.tasks[i], ticks, ticks)];
    }

    method WakeTaskUrgent(i: nat)
      requires Valid()
      modifies this`urgentWakes, tasks
      ensures Valid()
      ensures View() == WakeUrgent(old(View()), i)
    {
      ghost var s := View();
      StepKeepsOk(s, WakeUrgentStep(i));
      if i >= taskCount || !tasks[i].hasCallback || tasks[i].state == Running {
        return;
      }
      MarkTaskReady(i, ticks);
      if !tasks[i].urgent {
        urgentWakes := urgentWakes + 1;
      }
      tasks[i] := tasks[i].(urgent := true);
      assert tasks[..taskCount] == s.tasks[i := MarkReady(s.tasks[i], ticks, ticks).(urgent := true)];
    }

    method WaitTask()
      requires Valid()
      modifies tasks
      ensures Valid()
      ensures View() == WaitCurrent(old(View()))
    {
      ghost var s := View();
      ActAllKeepsOk(s, [DoWait]);
      if current.Some? {
        var i := current.value;
        tasks[i] := tasks[i].(state := Waiting, wakeTick := 0, readySince := 0, urgent := false);
        assert tasks[..taskCount] == WaitCurrent(s).tasks;
      }
    }

    method SleepTask(duration: nat)
      requires Valid()
      modifies tasks
      ensures Valid()
      ensures View() == SleepCurrent(old(View()), duration)
    {
      ghost var s := View();
      ActAllKeepsOk(s, [DoSleep(duration)]);
      if current.None? {
        return;
      }
      var span := if duration == 0 then 1 else duration;
      var i := current.value;
      tasks[i] := tasks[i].(state := Sleeping, wakeTick := ticks + span, nextRun := ticks + span,
                            readySince := ticks + span, urgent := false);
      assert tasks[..taskCount] == SleepCurrent(s, duration).tasks;
    }

    method AgeBonus(i: nat) returns (age: nat)
      requires Shape() && i < taskCount
      ensures age == Age(View(), i)
    {
      if ticks <= tasks[i].readySince {
        return 0;
      }
      age := ticks - tasks[i].readySince;
      if age > FAIRNESS_MAX_AGE {
        age := FAIRNESS_MAX_AGE;
      }
    }

    /** The selection loop: one pass over the tasks from the cursor, with running bests. */
    method Select() returns (r: Option<nat>)
      requires Valid()
      ensures r == Pick(View())
      ensures r.Some? ==> IsPick(View(), r.value)
      ensures r.None? ==> forall i :: 0 <= i < taskCount ==> !Due(View(), i)
    {
      ghost var s := View();
      var best, bestScore, bestUrgentPriority, bestUrgentAge := 0, 0, 0, 0;
      var found, foundUrgent := false, false;
      for index := 0 to taskCount
        invariant Scan(s, index) == if found || foundUrgent then Some(best) else None
        invariant foundUrgent ==> s.tasks[best].urgent && bestUrgentPriority == s.tasks[best].priority
                                  && bestUrgentAge == Age(s, best)
        invariant found && !foundUrgent ==> !s.tasks[best].urgent && bestScore == Score(s, best)
      {
        var c := (cursor + index) % taskCount;
        if !tasks[c].hasCallback || tasks[c].state != Ready || ticks < tasks[c].nextRun {
          continue;
        }
        var age := AgeBonus(c);
        if tasks[c].urgent {
          if !foundUrgent
             || tasks[c].priority > bestUrgentPriority
             || (tasks[c].priority == bestUrgentPriority && age > bestUrgentAge)
          {
            best, bestUrgentPriority, bestUrgentAge := c, tasks[c].priority, age;
            foundUrgent := true;
          }
          continue;
        }
        if foundUrgent {
          continue;
        }
        var score := tasks[c].priority * PRIORITY_WEIGHT + age;
        if !found || score > bestScore {
          best, bestScore, found := c, score, true;
        }
      }
      if taskCount > 0 {
        PickIsPick(s);
      }
      r := if found || foundUrgent then Some(best) else None;
    }

    /** The bookkeeping before a callback runs. */
    method BeginRun(i: nat)
      requires Valid() && i < taskCount
      modifies this`cursor, this`current, tasks
      ensures Valid()
      ensures View() == Begin(old(View()), i)
    {
      ghost var s := View();
      cursor := (i + 1) % taskCount;
      current := Some(i);
      tasks[i] := tasks[i].(state := Running, urgent := false);
      tasks[i] := tasks[i].(runCount := tasks[i].runCount + 1, lastRun := ticks);
      assert tasks[..taskCount] == Begin(s, i).tasks;
    }

    /** The bookkeeping after a callback returned. */
    method FinishRun(i: nat)
      requires Valid() && i < taskCount
      modifies this`current, this`totalRuns, tasks
      ensures Valid()
      ensures View() == Finish(old(View()), i)
    {
      ghost var s := View();
      FinishKeepsOk(s, i);
      if tasks[i].state == Running {
        if tasks[i].period == 0 {
          tasks[i] := tasks[i].(state := Waiting, readySince := 0);
        } else {
          MarkTaskReady(i, ticks + tasks[i].period);
        }
      }
      current := None;
      totalRuns := totalRuns + 1;
      assert tasks[..taskCount] == Finish(s, i).tasks;
    }

    method Perform(a: Action)
      requires Valid()
      modifies this`urgentWakes, tasks
      ensures Valid()
      ensures View() == Act(old(View()), a)
    {
      match a
      case DoWake(i) => WakeTask(i);
      case DoWakeUrgent(i) => WakeTaskUrgent(i);
      case DoWait => WaitTask();
      case DoSleep(n) => SleepTask(n);
    }

    method PerformAll(script: seq<Action>)
      requires Valid()
      modifies this`urgentWakes, tasks
      ensures Valid()
      ensures View() == ActAll(old(View()), script)
    {
      ghost var goal := ActAll(View(), script);
      for k := 0 to |script|
        invariant Valid() && ActAll(View(), script[k..]) == goal
      {
        assert script[k..][1..] == script[k + 1..];
        Perform(script[k]);
      }
    }

    /**
     The run loop: the k-th pick's callback makes the calls of the k-th script. The budget
     is left unused only when nothing is due.
     */
    method RunReady(scripts: seq<seq<Action>>) returns (runs: nat)
      requires Valid()
      modifies this, tasks
      ensures Valid()
      ensures View() == RunMany(old(View()), scripts)
      ensures runs <= |scripts|
      ensures runs < |scripts| ==> forall i :: 0 <= i < taskCount ==> !Due(View(), i)
      ensures totalRuns == old(totalRuns) + runs
    {
      runs := 0;
      ghost var goal := RunMany(View(), scripts);
      while runs < |scripts|
        invariant 0 <= runs <= |scripts|
        invariant Valid() && RunMany(View(), scripts[runs..]) == goal
        invariant totalRuns == old(totalRuns) + runs
      {
        ghost var s := View();
        var pick := Select();
        if pick.None? {
          break;
        }
        var i := pick.value;
        BeginRun(i);
        ActAllShape(View(), scripts[runs]);
        ActAllRuns(View(), scripts[runs]);
        PerformAll(scripts[runs]);
        FinishRun(i);
        assert View() == RunOne(s, scripts[runs]);
        assert scripts[runs..][1..] == scripts[runs + 1..];
        runs := runs + 1;
      }
    }
  }
}
