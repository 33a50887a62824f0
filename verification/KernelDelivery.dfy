/**
 Bounded delivery. Without further user requests, a fixed number of scheduler turns empties
 the queues of the supervisor and the broker, from every reachable state and whatever ticks,
 exits and spawns come between the turns. Every turn lowers a load that counts the due
 services, the sends the supervisor still has to make, and the telemetry turns to come.
 */
module KernelDelivery {
  import opened Prelude
  import opened SchedulerSpec
  import opened IpcSpec
  import opened IpcRuns
  import opened KernelSpec
  import opened KernelRuns
  import opened KernelTalk

  const TELEMETRY_TASK: nat := 3
  const TELEMETRY_PERIOD: nat := 100

  // ---- what the services leave alone ----

  /** A service that is ready is due, telemetry keeps its period, and only the broker is ever urgent. */
  predicate Steady(s: Sched) {
    && |s.tasks| == 4 && s.tasks[TELEMETRY_TASK].period == TELEMETRY_PERIOD
    && (forall i :: 0 <= i < 4 && i != POLICY_TASK ==> !s.tasks[i].urgent)
    && forall i :: 0 <= i < 3 && s.tasks[i].state == Ready ==> s.tasks[i].nextRun <= s.ticks
  }

  /** Sends that the supervisor has still to make: the greeting and the probe. */
  function SendsLeft(i: InitState): nat {
    One(i.beats == 0) + One(!i.probeSent)
  }

  /** Nothing but task `other` changed in the schedule, and only into ready and due. */
  predicate OnlyWakes(s: Sched, u: Sched, other: nat) {
    && |u.tasks| == |s.tasks| == 4 && u.ticks == s.ticks && u.current == s.current && u.cursor == s.cursor
    && (forall j :: 0 <= j < 4 && j != other ==> u.tasks[j] == s.tasks[j])
    && other < 4 && (u.tasks[other] == s.tasks[other] || Due(u, other))
    && (u.tasks[other].urgent ==> other == POLICY_TASK || s.tasks[other].urgent)
    && u.tasks[other].period == s.tasks[other].period
  }

  lemma WakeOnlyWakes(s: Sched, i: nat)
    requires |s.tasks| == 4 && i < 4
    ensures OnlyWakes(s, s, i) && OnlyWakes(s, Wake(s, i), i)
    ensures i == POLICY_TASK ==> OnlyWakes(s, WakeUrgent(s, i), i)
  {
  }

  /** A delivery wakes the owner of the endpoint, urgently only if it is the broker and someone waits. */
  lemma DeliverWakesOwner(k: Kernel, destination: nat, q: Message)
    requires 1 <= destination <= 3
    ensures Deliver(k, destination, q).sched ==
            if destination == AI_POLICY && k.waiters != 0 then WakeUrgent(k.sched, destination - 1)
            else Wake(k.sched, destination - 1)
  {
  }

  lemma SendOnlyWakes(k: Kernel, destination: nat, m: Message)
    requires 1 <= destination <= 3 && |k.sched.tasks| == 4
    ensures OnlyWakes(k.sched, Send(k, destination, m).0.sched, destination - 1)
    ensures Send(k, destination, m).1 != Ok ==> Send(k, destination, m).0.sched == k.sched
  {
    hide OnlyWakes, Judge, Wake, WakeUrgent;
    WakeOnlyWakes(k.sched, destination - 1);
    if Judge(k, destination, m).Admitted? {
      DeliverWakesOwner(k, destination, Judge(k, destination, m).message);
      hide Deliver;
    }
  }

  /** The supervisor wakes the broker only by one of its two sends. */
  predicate SupervisorWork(k: Kernel, u: Kernel) {
    && OnlyWakes(k.sched, u.sched, POLICY_TASK)
    && SendsLeft(u.init) <= SendsLeft(k.init)
    && (u.sched == k.sched || SendsLeft(u.init) < SendsLeft(k.init))
  }

  lemma WorkTrans(a: Kernel, b: Kernel, c: Kernel)
    requires SupervisorWork(a, b) && SupervisorWork(b, c)
    ensures SupervisorWork(a, c)
  {
  }

  lemma GreetsWork(k: Kernel)
    requires |k.sched.tasks| == 4
    ensures SupervisorWork(k, InitGreets(k))
  {
    var u := k.(init := k.init.(beats := k.init.beats + 1));
    SendOnlyWakes(u, AI_POLICY, HELLO);
    SendFrame(u, AI_POLICY, HELLO);
    hide Send;
  }

  lemma HandlesWork(k: Kernel)
    requires |k.sched.tasks| == 4 && k.ipc.queues.init != []
    ensures SupervisorWork(k, InitHandles(k))
  {
    var u := SpawnOnce(Take(k, INIT));
    SendOnlyWakes(u, AI_POLICY, PROBE);
    SendFrame(u, AI_POLICY, PROBE);
    hide Send;
  }

  lemma {:induction false} DrainsWork(k: Kernel)
    requires |k.sched.tasks| == 4
    ensures SupervisorWork(k, InitDrains(k))
    decreases |k.ipc.queues.init|
  {
    if k.ipc.queues.init != [] {
      HandlesWork(k);
      hide InitHandles;
      DrainsWork(InitHandles(k));
      WorkTrans(k, InitHandles(k), InitDrains(k));
    }
  }

  lemma BrokerHandlesWakes(k: Kernel)
    requires |k.sched.tasks| == 4 && k.ipc.queues.policy != []
    ensures OnlyWakes(k.sched, PolicyHandles(k).sched, INIT_TASK) && PolicyHandles(k).init == k.init
  {
    var m, u := k.ipc.queues.policy[0], Take(k, AI_POLICY);
    SendOnlyWakes(u, INIT, Reply(m));
    SendFrame(u, INIT, Reply(m));
    hide Send;
  }

  lemma {:induction false} BrokerDrainsWakes(k: Kernel)
    requires |k.sched.tasks| == 4
    ensures OnlyWakes(k.sched, PolicyDrains(k).sched, INIT_TASK) && PolicyDrains(k).init == k.init
    decreases |k.ipc.queues.policy|
  {
    if k.ipc.queues.policy != [] {
      BrokerHandlesWakes(k);
      hide PolicyHandles;
      BrokerDrainsWakes(PolicyHandles(k));
    }
  }

  // ---- the load ----

  /** Turns that telemetry can take up to a tick: one a period from when it is next due. */
  function Reports(s: Sched, horizon: nat): nat
    requires |s.tasks| == 4
  {
    var next := Max(s.tasks[TELEMETRY_TASK].nextRun, s.ticks);
    if next > horizon then 0 else 1 + (horizon - next) / TELEMETRY_PERIOD
  }

  function Load(k: Kernel, horizon: nat): nat
    requires |k.sched.tasks| == 4
  {
    var s := k.sched;
    Reports(s, horizon) + One(Due(s, DRIVER_TASK)) + One(Due(s, INIT_TASK)) + 2 * One(Due(s, POLICY_TASK))
      + 2 * SendsLeft(k.init)
  }

  /** Neither the supervisor nor the broker has anything to do. */
  predicate Settled(k: Kernel) {
    !Due(k.sched, INIT_TASK) && !Due(k.sched, POLICY_TASK)
  }

  lemma LoadBound(k: Kernel, horizon: nat)
    requires |k.sched.tasks| == 4 && k.sched.ticks <= horizon
    ensures Load(k, horizon) <= 9 + (horizon - k.sched.ticks) / TELEMETRY_PERIOD
  {
  }

  /** After its turn a service waits, whatever it woke. */
  lemma ServiceTurn(s: Sched, u: Sched, i: nat, other: nat)
    requires Steady(s) && i < 3 && other < 3 && i != other && OnlyWakes(Begin(s, i), u, other) && u.current == Some(i)
    ensures var f := Finish(WaitCurrent(u), i);
            && Steady(f) && f.ticks == s.ticks && f.tasks[TELEMETRY_TASK] == s.tasks[TELEMETRY_TASK]
            && !Due(f, i) && (Due(f, other) ==> Due(s, other) || u != Begin(s, i))
            && forall j :: 0 <= j < 3 && j != i && j != other ==> (Due(f, j) <==> Due(s, j))
  {
  }

  lemma ReportTurn(s: Sched, horizon: nat)
    requires Steady(s) && Due(s, TELEMETRY_TASK) && s.ticks <= horizon
    ensures var f := Finish(Begin(s, TELEMETRY_TASK), TELEMETRY_TASK);
            && Steady(f) && f.ticks == s.ticks && Reports(f, horizon) + 1 == Reports(s, horizon)
            && forall j :: 0 <= j < 3 ==> (Due(f, j) <==> Due(s, j))
  {
    var now := s.ticks;
    var f := Finish(Begin(s, TELEMETRY_TASK), TELEMETRY_TASK);
    assert f.tasks[TELEMETRY_TASK].nextRun == now + TELEMETRY_PERIOD;
    assert (horizon - now) / TELEMETRY_PERIOD
        == if horizon - now < TELEMETRY_PERIOD then 0 else 1 + (horizon - now - TELEMETRY_PERIOD) / TELEMETRY_PERIOD;
  }

  /** The turn of task `i` keeps the schedule steady, lowers the load, and leaves a settled kernel settled. */
  ghost predicate Lowers(k: Kernel, u: Kernel, horizon: nat)
    requires Steady(k.sched)
  {
    && Steady(u.sched) && u.sched.ticks == k.sched.ticks && Load(u, horizon) < Load(k, horizon)
    && (Settled(k) ==> Settled(u))
  }

  lemma SupervisorTurn(k: Kernel, horizon: nat)
    requires Steady(k.sched) && Due(k.sched, INIT_TASK)
    ensures var u := InitService(k.(sched := Begin(k.sched, INIT_TASK)));
            INIT_TASK < |u.sched.tasks| && Lowers(k, u.(sched := Finish(u.sched, INIT_TASK)), horizon)
  {
    var b := k.(sched := Begin(k.sched, INIT_TASK));
    GreetsWork(b);
    DrainsWork(InitGreets(b));
    WorkTrans(b, InitGreets(b), InitDrains(InitGreets(b)));
    hide InitGreets, InitDrains;
    ServiceTurn(k.sched, InitDrains(InitGreets(b)).sched, INIT_TASK, POLICY_TASK);
  }

  lemma DriverTurn(k: Kernel, horizon: nat)
    requires Steady(k.sched) && Due(k.sched, DRIVER_TASK)
    ensures var u := DriverService(k.(sched := Begin(k.sched, DRIVER_TASK)));
            DRIVER_TASK < |u.sched.tasks| && Lowers(k, u.(sched := Finish(u.sched, DRIVER_TASK)), horizon)
  {
    var b := k.(sched := Begin(k.sched, DRIVER_TASK));
    EscalationDenied(b.(driverBeats := b.driverBeats + 1));
    hide Send;
    ServiceTurn(k.sched, b.sched, DRIVER_TASK, INIT_TASK);
  }

  lemma BrokerTurn(k: Kernel, horizon: nat)
    requires Steady(k.sched) && Due(k.sched, POLICY_TASK)
    ensures var u := PolicyService(k.(sched := Begin(k.sched, POLICY_TASK)));
            POLICY_TASK < |u.sched.tasks| && Lowers(k, u.(sched := Finish(u.sched, POLICY_TASK)), horizon)
  {
    var b := k.(sched := Begin(k.sched, POLICY_TASK));
    BrokerDrainsWakes(b);
    hide PolicyDrains;
    ServiceTurn(k.sched, PolicyDrains(b).sched, POLICY_TASK, INIT_TASK);
  }

  /** A turn that runs anything lowers the load. */
  lemma TurnLowersLoad(k: Kernel, horizon: nat)
    requires Steady(k.sched) && k.sched.ticks <= horizon && Pick(k.sched).Some?
    ensures Lowers(k, RunOneTask(k), horizon)
  {
    var i := Pick(k.sched).value;
    assert Due(k.sched, i);
    hide Pick, InitService, DriverService, PolicyService;
    if i == INIT_TASK {
      SupervisorTurn(k, horizon);
      hide Lowers, Begin, Finish;
    } else if i == DRIVER_TASK {
      DriverTurn(k, horizon);
      hide Lowers, Begin, Finish;
    } else if i == POLICY_TASK {
      BrokerTurn(k, horizon);
      hide Lowers, Begin, Finish;
    } else {
      ReportTurn(k.sched, horizon);
    }
  }

  lemma TickKeepsLoad(k: Kernel, horizon: nat)
    requires KernelOk(k) && Steady(k.sched) && k.sched.ticks < horizon
    ensures var u := Apply(k, TimerTick);
            Steady(u.sched) && u.sched.ticks == k.sched.ticks + 1 && Load(u, horizon) <= Load(k, horizon)
    ensures forall j :: 0 <= j < 3 ==> (Due(Apply(k, TimerTick).sched, j) <==> Due(k.sched, j))
  {
    var s, u := k.sched, OnTick(k.sched);
    forall j | 0 <= j < 4
      ensures u.tasks[j] == s.tasks[j]
    {
      assert s.tasks[j].state != Sleeping;
    }
  }

  // ---- runs without requests ----

  predicate NoRequests(steps: seq<Step>) {
    forall i :: 0 <= i < |steps| ==> !steps[i].UserRequest?
  }

  function Turns(steps: seq<Step>): nat {
    if steps == [] then 0 else One(steps[0].RunTask?) + Turns(steps[1..])
  }

  function Ticks(steps: seq<Step>): nat {
    if steps == [] then 0 else One(steps[0].TimerTick?) + Ticks(steps[1..])
  }

  lemma NothingPicked(s: Sched)
    requires s.cursor < |s.tasks| && Pick(s).None?
    ensures forall i :: 0 <= i < |s.tasks| ==> !Due(s, i)
  {
    PickIsPick(s);
  }

  /** A step without a request lowers the load if it is a turn, and never raises it. */
  lemma StepSettles(k: Kernel, step: Step, horizon: nat)
    requires KernelOk(k) && Steady(k.sched) && !step.UserRequest?
    requires k.sched.ticks + One(step.TimerTick?) <= horizon
    ensures var u := Apply(k, step);
            && Steady(u.sched) && u.sched.ticks == k.sched.ticks + One(step.TimerTick?)
            && Load(u, horizon) <= Load(k, horizon)
            && (step.RunTask? && Load(u, horizon) == Load(k, horizon) ==> Settled(u))
            && (Settled(k) ==> Settled(u))
  {
    match step
    case TimerTick => TickKeepsLoad(k, horizon);
    case RunTask =>
      if Pick(k.sched).Some? {
        TurnLowersLoad(k, horizon);
      } else {
        NothingPicked(k.sched);
      }
    case World(_, _) =>
  }

  /** A run without requests settles, unless its turns are fewer than the load it started with. */
  lemma {:induction false} RunSettles(k: Kernel, steps: seq<Step>, horizon: nat)
    requires KernelOk(k) && AtRest(k) && Steady(k.sched) && NoRequests(steps)
    requires k.sched.ticks + Ticks(steps) <= horizon
    ensures var u := Run(k, steps);
            && Steady(u.sched) && (Settled(k) ==> Settled(u))
            && (Settled(u) || Load(u, horizon) + Turns(steps) <= Load(k, horizon))
    decreases steps
  {
    if steps != [] {
      var u := Apply(k, steps[0]);
      StepSettles(k, steps[0], horizon);
      ApplyKeepsOk(k, steps[0]);
      hide KernelOk, AtRest, Steady, Apply, Load, Settled;
      RunSettles(u, steps[1..], horizon);
    }
  }

  lemma SendStaysSteady(k: Kernel, m: Message)
    requires Steady(k.sched)
    ensures Steady(Send(k, AI_POLICY, m).0.sched)
  {
    SendOnlyWakes(k, AI_POLICY, m);
  }

  lemma {:induction false} RunStaysSteady(k: Kernel, steps: seq<Step>)
    requires KernelOk(k) && AtRest(k) && Steady(k.sched)
    ensures Steady(Run(k, steps).sched)
    decreases steps
  {
    if steps != [] {
      var u := Apply(k, steps[0]);
      if steps[0].UserRequest? {
        SendStaysSteady(k, RequestMessage(steps[0].source, steps[0].arg0, steps[0].arg1, steps[0].interactive));
      } else {
        StepSettles(k, steps[0], k.sched.ticks + 1);
      }
      ApplyKeepsOk(k, steps[0]);
      hide KernelOk, AtRest, Steady, Apply;
      RunStaysSteady(u, steps[1..]);
    }
  }

  // ---- theorems over every run from boot ----

  /** Everything accepted for the supervisor and the broker has been received. */
  predicate AllReceived(ipc: Ipc) {
    && ipc.queues.init == [] && ipc.queues.policy == []
    && ipc.received.init == Messages(ipc.accepted.init)
    && ipc.received.policy == Messages(ipc.accepted.policy)
  }

  lemma SettledIsReceived(k: Kernel)
    requires KernelOk(k) && AtRest(k) && Settled(k)
    ensures AllReceived(k.ipc)
  {
  }

  lemma BootIsSteady()
    ensures Steady(BootKernel().sched)
  {
    assert BootSched().tasks == [NewTask(3, 0, 0), NewTask(2, 0, 0), NewTask(4, 0, 0), NewTask(0, 100, 100)];
  }

  lemma ReachableIsSteady(steps: seq<Step>)
    ensures var k := Run(BootKernel(), steps); KernelOk(k) && AtRest(k) && Steady(k.sched)
  {
    hide KernelOk, AtRest, Steady, Run, BootKernel;
    BootKernelOk();
    BootIsSteady();
    RunStaysSteady(BootKernel(), steps);
    RunKeepsOk(BootKernel(), steps);
  }

  /**
   From every reachable state, nine turns, and one more for each telemetry period that passes,
   deliver everything that is queued for the supervisor and the broker, in every interleaving
   with ticks, exits and spawns, if no user makes a request meanwhile.
   */
  lemma BoundedDelivery(before: seq<Step>, after: seq<Step>)
    requires NoRequests(after) && Turns(after) >= 9 + Ticks(after) / TELEMETRY_PERIOD
    ensures AllReceived(Run(Run(BootKernel(), before), after).ipc)
  {
    ReachableIsSteady(before);
    var k := Run(BootKernel(), before);
    var horizon := k.sched.ticks + Ticks(after);
    hide KernelOk, AtRest, Run, AllReceived;
    RunSettles(k, after, horizon);
    LoadBound(k, horizon);
    RunKeepsOk(k, after);
    UnsettledIsLoaded(Run(k, after), horizon);
    SettledIsReceived(Run(k, after));
  }

  lemma UnsettledIsLoaded(k: Kernel, horizon: nat)
    requires |k.sched.tasks| == 4
    ensures Settled(k) || Load(k, horizon) > 0
  {
  }

  /** So five timer interrupts without a request deliver everything. */
  lemma FiveInterruptsDeliver(before: seq<Step>)
    ensures var k := Run(BootKernel(), before);
            AllReceived(Interrupt(Interrupt(Interrupt(Interrupt(Interrupt(k))))).ipc)
  {
    var k, two := Run(BootKernel(), before), INTERRUPT + INTERRUPT;
    hide Interrupt, Run, AllReceived;
    InterruptIsRun(k);
    var k1 := Interrupt(k);
    InterruptIsRun(k1);
    var k2 := Interrupt(k1);
    InterruptIsRun(k2);
    var k3 := Interrupt(k2);
    InterruptIsRun(k3);
    InterruptIsRun(Interrupt(k3));
    RunConcat(k, INTERRUPT, INTERRUPT);
    RunConcat(k2, INTERRUPT, INTERRUPT);
    RunConcat(k, two, two);
    RunConcat(k, two + two, INTERRUPT);
    TenTurns();
    BoundedDelivery(before, two + two + INTERRUPT);
  }

  lemma {:induction false} CountsConcat(a: seq<Step>, b: seq<Step>)
    ensures Turns(a + b) == Turns(a) + Turns(b) && Ticks(a + b) == Ticks(a) + Ticks(b)
    decreases a
  {
    if a == [] {
      assert a + b == b;
    } else {
      assert (a + b)[1..] == a[1..] + b;
      CountsConcat(a[1..], b);
    }
  }

  lemma TenTurns()
    ensures var five := INTERRUPT + INTERRUPT + (INTERRUPT + INTERRUPT) + INTERRUPT;
            Turns(five) == 10 && Ticks(five) == 5 && NoRequests(five)
  {
    var one, two := INTERRUPT, INTERRUPT + INTERRUPT;
    assert one[1..] == [RunTask, RunTask] && one[1..][1..] == [RunTask] && one[1..][1..][1..] == [];
    assert Turns(one) == 2 && Ticks(one) == 1;
    CountsConcat(one, one);
    CountsConcat(two, two);
    CountsConcat(two + two, one);
  }
}
