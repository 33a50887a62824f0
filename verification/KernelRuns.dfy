/**
 Properties of every run of the step system: no wakeup is lost, and everything `IpcRuns`
 says about queues, routes and rates holds in every reachable state.
 */
module KernelRuns {
  import opened Prelude
  import opened SchedulerSpec
  import opened SchedulerRuns
  import opened IpcSpec
  import opened IpcRuns
  import opened KernelSpec

  // ---- invariant ----

  predicate TasksOk(s: Sched) {
    && |s.tasks| == 4 && SchedOk(s)
    && (s.current.Some? ==> s.current.value < 4)
    && forall i :: 0 <= i < 4 ==>
         s.tasks[i].hasCallback && s.tasks[i].state != Sleeping
         && (s.tasks[i].state == Running ==> s.current == Some(i))
  }

  ghost predicate Base(k: Kernel) {
    TasksOk(k.sched) && IpcOk(k.ipc, k.sched.ticks) && forall u :: u in k.users ==> IsUserId(u)
  }

  /** The task will look at its queue: it is the one running, or it is ready and due. */
  predicate WillLook(s: Sched, task: nat) {
    s.current == Some(task) || Due(s, task)
  }

  /** A non-empty supervisor or broker queue has its owner on the way. */
  predicate Woken(k: Kernel) {
    && (k.ipc.queues.init != [] ==> WillLook(k.sched, INIT_TASK))
    && (k.ipc.queues.policy != [] ==> WillLook(k.sched, POLICY_TASK))
  }

  ghost predicate KernelOk(k: Kernel) {
    Base(k) && Woken(k)
  }

  /** Between steps nothing runs and there is no message context. */
  predicate AtRest(k: Kernel) {
    && k.sched.current == None && k.contextFlags == 0 && k.contextDepth == 0
    && forall i :: 0 <= i < |k.sched.tasks| ==> k.sched.tasks[i].state != Running
  }

  // ---- sends ----

  lemma WakeKeepsTasks(s: Sched, i: nat)
    requires TasksOk(s) && i < 4
    ensures TasksOk(Wake(s, i)) && TasksOk(WakeUrgent(s, i))
    ensures s.tasks[i].state != Running ==> Due(Wake(s, i), i) && Due(WakeUrgent(s, i), i)
    ensures forall j :: 0 <= j < 4 && WillLook(s, j) ==> WillLook(Wake(s, i), j) && WillLook(WakeUrgent(s, i), j)
  {
    StepKeepsOk(s, WakeStep(i));
    StepKeepsOk(s, WakeUrgentStep(i));
  }

  lemma DeliverKeepsBase(k: Kernel, destination: nat, q: Message)
    requires Base(k) && RouteOk(destination, q) && RoomFor(k.ipc, k.users, k.sched.ticks, destination, q)
    requires IsUserId(q.source) ==> q.source in k.users
    ensures Base(Deliver(k, destination, q))
  {
    assert 1 <= destination <= 3;
    hide IpcOk, RouteOk, RoomFor, Wake, WakeUrgent;
    var d := Deliver(k, destination, q);
    DeliverIs(k, destination, q);
    hide Deliver;
    EnqueueKeepsOk(k.ipc, k.users, k.sched.ticks, destination, q);
    WakeKeepsTasks(k.sched, destination - 1);
  }

  lemma DeliverIs(k: Kernel, destination: nat, q: Message)
    requires 1 <= destination <= 3
    ensures var d := Deliver(k, destination, q);
            && d.ipc == Enqueue(k.ipc, k.users, k.sched.ticks, destination, q)
            && (d.sched == Wake(k.sched, destination - 1) || d.sched == WakeUrgent(k.sched, destination - 1))
            && d.sched.ticks == k.sched.ticks && d.sched.current == k.sched.current
            && |d.sched.tasks| == |k.sched.tasks|
            && d == k.(ipc := d.ipc, sched := d.sched)
  {
  }

  lemma DeliverWakes(k: Kernel, destination: nat, q: Message)
    requires TasksOk(k.sched) && Woken(k) && 1 <= destination <= 3
    ensures Woken(Deliver(k, destination, q))
  {
    WakeKeepsTasks(k.sched, destination - 1);
  }

  /** The sending context is a service task, or the kernel acting for a live user endpoint. */
  predicate MaySend(k: Kernel, m: Message) {
    match k.sched.current
    case None => m.source in k.users
    case Some(i) => i < 3
  }

  lemma SendKeepsOk(k: Kernel, destination: nat, m: Message)
    requires KernelOk(k) && MaySend(k, m)
    ensures KernelOk(Send(k, destination, m).0)
  {
    var v := Judge(k, destination, m);
    if v.Admitted? {
      RoutesAllowed(k.ipc, CurrentSender(k), k.users, k.sched.ticks, destination, m);
      AdmittedHasRoom(k.ipc, CurrentSender(k), k.users, k.sched.ticks, destination, m);
      DeliverKeepsBase(k, destination, v.message);
      DeliverWakes(k, destination, v.message);
    }
  }

  /** A send changes queues, broker tables and task states, and nothing else. */
  lemma SendFrame(k: Kernel, destination: nat, m: Message)
    ensures var u := Send(k, destination, m).0;
            && u.sched.current == k.sched.current && u.sched.ticks == k.sched.ticks
            && |u.sched.tasks| == |k.sched.tasks|
            && u.contextFlags == k.contextFlags && u.contextDepth == k.contextDepth
            && u.init == k.init && u.driverBeats == k.driverBeats
            && u.users == k.users && u.waiters == k.waiters
            && u.ipc.received == k.ipc.received
  {
    var v := Judge(k, destination, m);
    if v.Admitted? {
      DeliverIs(k, destination, v.message);
    }
  }

  lemma TakeKeepsOk(k: Kernel, endpoint: nat)
    requires KernelOk(k) && 1 <= endpoint <= 3 && k.ipc.queues.At(endpoint) != []
    ensures KernelOk(Take(k, endpoint))
  {
    DequeueKeepsOk(k.ipc, k.sched.ticks, endpoint);
  }

  // ---- the services ----

  lemma ProbeKeepsOk(k: Kernel)
    requires KernelOk(k) && k.sched.current == Some(INIT_TASK)
    ensures KernelOk(ProbeOnce(k)) && ProbeOnce(k).sched.current == k.sched.current
  {
    SendKeepsOk(k, AI_POLICY, PROBE);
    SendFrame(k, AI_POLICY, PROBE);
  }

  lemma InitHandlesKeepsOk(k: Kernel)
    requires KernelOk(k) && k.sched.current == Some(INIT_TASK) && k.ipc.queues.init != []
    ensures KernelOk(InitHandles(k)) && InitHandles(k).sched.current == k.sched.current
  {
    TakeKeepsOk(k, INIT);
    var u := SpawnOnce(Take(k, INIT));
    assert KernelOk(u) && u.sched == k.sched;
    ProbeKeepsOk(u);
  }

  lemma {:induction false} InitDrainsKeepsOk(k: Kernel)
    requires KernelOk(k) && k.sched.current == Some(INIT_TASK)
    ensures KernelOk(InitDrains(k)) && InitDrains(k).sched.current == k.sched.current
    decreases |k.ipc.queues.init|
  {
    if k.ipc.queues.init != [] {
      InitHandlesKeepsOk(k);
      InitDrainsKeepsOk(InitHandles(k));
    }
  }

  lemma PolicyHandlesKeepsOk(k: Kernel)
    requires KernelOk(k) && k.sched.current == Some(POLICY_TASK) && k.ipc.queues.policy != []
    ensures KernelOk(PolicyHandles(k)) && PolicyHandles(k).sched.current == k.sched.current
  {
    TakeKeepsOk(k, AI_POLICY);
    var m, u := k.ipc.queues.policy[0], Take(k, AI_POLICY);
    SendKeepsOk(u, INIT, Reply(m));
    SendFrame(u, INIT, Reply(m));
  }

  lemma {:induction false} PolicyDrainsKeepsOk(k: Kernel)
    requires KernelOk(k) && k.sched.current == Some(POLICY_TASK)
    ensures KernelOk(PolicyDrains(k)) && PolicyDrains(k).sched.current == k.sched.current
    decreases |k.ipc.queues.policy|
  {
    if k.ipc.queues.policy != [] {
      PolicyHandlesKeepsOk(k);
      PolicyDrainsKeepsOk(PolicyHandles(k));
    }
  }

  /** The queue a task owns is empty, for the tasks that drain theirs. */
  predicate Drained(k: Kernel, task: nat) {
    && (task == INIT_TASK ==> k.ipc.queues.init == [])
    && (task == POLICY_TASK ==> k.ipc.queues.policy == [])
  }

  lemma BeatKeepsOk(k: Kernel)
    requires KernelOk(k)
    ensures KernelOk(k.(init := k.init.(beats := k.init.beats + 1)))
  {
  }

  lemma InitGreetsKeepsOk(k: Kernel)
    requires KernelOk(k) && k.sched.current == Some(INIT_TASK)
    ensures KernelOk(InitGreets(k)) && InitGreets(k).sched.current == k.sched.current
  {
    hide KernelOk, Send;
    BeatKeepsOk(k);
    var u := k.(init := k.init.(beats := k.init.beats + 1));
    SendKeepsOk(u, AI_POLICY, HELLO);
    SendFrame(u, AI_POLICY, HELLO);
  }

  lemma InitServiceKeepsOk(k: Kernel)
    requires KernelOk(k) && k.sched.current == Some(INIT_TASK)
    ensures KernelOk(InitService(k)) && InitService(k).sched.current == k.sched.current
  {
    var g := InitGreets(k);
    assert KernelOk(g) && g.sched.current == k.sched.current by { InitGreetsKeepsOk(k); }
    InitDrainsKeepsOk(g);
    WaitKeepsOk(InitDrains(g), INIT_TASK);
  }

  lemma DriverServiceKeepsOk(k: Kernel)
    requires KernelOk(k) && k.sched.current == Some(DRIVER_TASK)
    ensures KernelOk(DriverService(k)) && DriverService(k).sched.current == k.sched.current
  {
    var u := k.(driverBeats := k.driverBeats + 1);
    SendKeepsOk(u, AI_POLICY, ESCALATION);
    SendFrame(u, AI_POLICY, ESCALATION);
    WaitKeepsOk(if u.driverBeats == 1 then Send(u, AI_POLICY, ESCALATION).0 else u, DRIVER_TASK);
  }

  lemma PolicyServiceKeepsOk(k: Kernel)
    requires KernelOk(k) && k.sched.current == Some(POLICY_TASK)
    ensures KernelOk(PolicyService(k)) && PolicyService(k).sched.current == k.sched.current
  {
    PolicyDrainsKeepsOk(k);
    WaitKeepsOk(PolicyDrains(k), POLICY_TASK);
  }

  lemma CallbackKeepsOk(k: Kernel, i: nat)
    requires KernelOk(k) && k.sched.current == Some(i) && i < 4
    ensures KernelOk(Callback(k, i)) && Callback(k, i).sched.current == Some(i)
  {
    if i == INIT_TASK {
      InitServiceKeepsOk(k);
    } else if i == DRIVER_TASK {
      DriverServiceKeepsOk(k);
    } else if i == POLICY_TASK {
      PolicyServiceKeepsOk(k);
    }
  }

  lemma CallbackDrains(k: Kernel, i: nat)
    ensures Drained(Callback(k, i), i)
  {
  }

  lemma WaitKeepsOk(k: Kernel, i: nat)
    requires KernelOk(k) && k.sched.current == Some(i) && i < 4
    ensures KernelOk(Wait(k)) && Wait(k).sched.current == Some(i)
  {
    ActAllKeepsOk(k.sched, [DoWait]);
  }

  lemma BeginKeepsOk(k: Kernel, i: nat)
    requires KernelOk(k) && AtRest(k) && Pick(k.sched) == Some(i)
    ensures KernelOk(k.(sched := Begin(k.sched, i)))
  {
    var s, u := k.sched, Begin(k.sched, i);
    assert forall j :: 0 <= j < 4 && j != i && Due(s, j) ==> Due(u, j);
  }

  /** Settling the task after its callback keeps the invariant because its own queue is empty. */
  lemma FinishKeepsKernel(k: Kernel, i: nat)
    requires Base(k) && Woken(k) && Drained(k, i) && k.sched.current == Some(i) && i < 4
    ensures KernelOk(k.(sched := Finish(k.sched, i)))
    ensures forall j :: 0 <= j < 4 ==> Finish(k.sched, i).tasks[j].state != Running
  {
    FinishKeepsOk(k.sched, i);
    var s, u := k.sched, Finish(k.sched, i);
    assert forall j :: 0 <= j < 4 && j != i && Due(s, j) ==> Due(u, j);
  }

  lemma CallbackContext(k: Kernel, i: nat)
    requires k.contextFlags == 0 && k.contextDepth == 0
    ensures Callback(k, i).contextFlags == 0 && Callback(k, i).contextDepth == 0
  {
    if i == INIT_TASK {
      var g := InitGreets(k);
      assert g.contextFlags == 0 && g.contextDepth == 0 by {
        SendFrame(k.(init := k.init.(beats := k.init.beats + 1)), AI_POLICY, HELLO);
      }
      InitDrainsContext(g);
    } else if i == DRIVER_TASK {
      SendFrame(k.(driverBeats := k.driverBeats + 1), AI_POLICY, ESCALATION);
    } else if i == POLICY_TASK {
      PolicyDrainsContext(k);
    }
  }

  lemma {:induction false} InitDrainsContext(k: Kernel)
    requires k.contextFlags == 0 && k.contextDepth == 0
    ensures InitDrains(k).contextFlags == 0 && InitDrains(k).contextDepth == 0
    decreases |k.ipc.queues.init|
  {
    if k.ipc.queues.init != [] {
      InitDrainsContext(InitHandles(k));
    }
  }

  lemma {:induction false} PolicyDrainsContext(k: Kernel)
    requires k.contextFlags == 0 && k.contextDepth == 0
    ensures PolicyDrains(k).contextFlags == 0 && PolicyDrains(k).contextDepth == 0
    decreases |k.ipc.queues.policy|
  {
    if k.ipc.queues.policy != [] {
      PolicyDrainsContext(PolicyHandles(k));
    }
  }

  // ---- steps ----

  lemma RunOneTaskKeepsOk(k: Kernel)
    requires KernelOk(k) && AtRest(k)
    ensures KernelOk(RunOneTask(k)) && AtRest(RunOneTask(k))
  {
    if Pick(k.sched).Some? {
      var i := Pick(k.sched).value;
      var b := k.(sched := Begin(k.sched, i));
      BeginKeepsOk(k, i);
      CallbackKeepsOk(b, i);
      CallbackDrains(b, i);
      CallbackContext(b, i);
      FinishKeepsKernel(Callback(b, i), i);
    }
  }

  lemma TickKeepsOk(k: Kernel)
    requires KernelOk(k) && AtRest(k)
    ensures KernelOk(k.(sched := OnTick(k.sched))) && AtRest(k.(sched := OnTick(k.sched)))
  {
    StepKeepsOk(k.sched, TickStep);
    TimePasses(k.ipc, k.sched.ticks, k.sched.ticks + 1);
    var s, u := k.sched, OnTick(k.sched);
    assert forall j :: 0 <= j < 4 && Due(s, j) ==> Due(u, j);
  }

  lemma ApplyKeepsOk(k: Kernel, step: Step)
    requires KernelOk(k) && AtRest(k)
    ensures KernelOk(Apply(k, step)) && AtRest(Apply(k, step))
  {
    match step
    case TimerTick => TickKeepsOk(k);
    case RunTask => RunOneTaskKeepsOk(k);
    case UserRequest(source, arg0, arg1, interactive) =>
      if source in k.users {
        var m := RequestMessage(source, arg0, arg1, interactive);
        SendKeepsOk(k, AI_POLICY, m);
        SendFrame(k, AI_POLICY, m);
        SendStartsNothing(k, AI_POLICY, m);
      }
    case World(_, _) =>
  }

  lemma SendStartsNothing(k: Kernel, destination: nat, m: Message)
    requires AtRest(k)
    ensures AtRest(Send(k, destination, m).0)
  {
  }

  lemma BootKernelOk()
    ensures KernelOk(BootKernel()) && AtRest(BootKernel())
  {
    BootIpcOk();
    BootTasksOk();
  }

  lemma BootTasksOk()
    ensures TasksOk(BootSched()) && BootSched().ticks == 0 && BootSched().current == None
    ensures forall i :: 0 <= i < 4 ==> BootSched().tasks[i].state == Ready
  {
    assert BootSched().tasks == [NewTask(3, 0, 0), NewTask(2, 0, 0), NewTask(4, 0, 0), NewTask(0, 100, 100)];
  }

  lemma {:induction false} RunKeepsOk(k: Kernel, steps: seq<Step>)
    requires KernelOk(k) && AtRest(k)
    ensures KernelOk(Run(k, steps)) && AtRest(Run(k, steps))
    decreases steps
  {
    if steps != [] {
      ApplyKeepsOk(k, steps[0]);
      RunKeepsOk(Apply(k, steps[0]), steps[1..]);
    }
  }

  // ---- theorems over every run from boot ----

  /**
   No lost wakeup: in every reachable state a non-empty supervisor or broker queue has its
   owner task ready and due.
   */
  lemma NoLostWakeup(steps: seq<Step>)
    ensures var k := Run(BootKernel(), steps);
            && (k.ipc.queues.init != [] ==> Due(k.sched, INIT_TASK))
            && (k.ipc.queues.policy != [] ==> Due(k.sched, POLICY_TASK))
  {
    BootKernelOk();
    RunKeepsOk(BootKernel(), steps);
  }

  /** Queue contents, conservation, the route graph and the rate limit, in every reachable state. */
  lemma BrokerInvariants(steps: seq<Step>)
    ensures var k := Run(BootKernel(), steps);
            && QueuesOk(k.ipc)
            && Conserved(k.ipc)
            && GraphOk(k.ipc) && |k.ipc.edges| == 16
            && RateOk(k.ipc, k.sched.ticks) && |k.ipc.windows| == 8
  {
    BootKernelOk();
    RunKeepsOk(BootKernel(), steps);
  }

  /** Accepted ordinary requests of a source that holds a window are at least 3 ticks apart. */
  lemma RateLimit(steps: seq<Step>, source: nat, i: nat, j: nat)
    requires var k := Run(BootKernel(), steps);
             && source != 0 && Holds(k.ipc.windows, source)
             && i < j < |OrdinaryTicks(k.ipc.accepted.policy, source)|
    ensures var ticks := OrdinaryTicks(Run(BootKernel(), steps).ipc.accepted.policy, source);
            ticks[i] + BURST_TICKS <= ticks[j]
  {
    BrokerInvariants(steps);
    var k := Run(BootKernel(), steps);
    var w :| 0 <= w < |k.ipc.windows| && k.ipc.windows[w].source == source;
    assert WindowOk(k.ipc.windows[w], k.ipc.accepted.policy);
  }
}
