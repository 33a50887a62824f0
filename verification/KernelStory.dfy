/**
 The supervisor's boot conversation, message by message. Until it spawns the user processes
 every run is in one of three stages; it always gets its approval, within a fixed number of
 turns; and what the three services then have said to each other is known word for word.
 */
module KernelStory {
  import opened Prelude
  import opened SchedulerSpec
  import opened IpcSpec
  import opened IpcRuns
  import opened KernelSpec
  import opened KernelRuns
  import opened KernelTalk
  import opened KernelHistory
  import opened KernelAdmission
  import opened KernelDelivery

  /** The greeting, its approval and the probe, as queued: source, kind, arguments, flags, depth. */
  const GREETING: Message := Message(1, 0x100, 1, 0, 0, 1)
  const APPROVAL: Message := Message(3, 0x102, 1, 0, 0, 2)
  const PROBING: Message := Message(1, 0x100, 3, 0, 2, 2)

  // ---- the stages ----

  predicate Logs(ipc: Ipc, asked: seq<Message>, heard: seq<Message>, approved: seq<Message>) {
    && Messages(ipc.accepted.policy) == asked && ipc.received.policy == heard
    && Messages(ipc.accepted.init) == approved && ipc.received.init == []
  }

  /** Before the greeting. */
  predicate Silent(k: Kernel) {
    k.init.beats == 0 && Due(k.sched, INIT_TASK) && Logs(k.ipc, [], [], [])
  }

  /** The greeting waits for the broker. */
  predicate Greeted(k: Kernel) {
    k.init.beats >= 1 && Logs(k.ipc, [GREETING], [], [])
  }

  /** The approval waits for the supervisor. */
  predicate Approved(k: Kernel) {
    k.init.beats >= 1 && Logs(k.ipc, [GREETING], [GREETING], [APPROVAL])
  }

  predicate Early(k: Kernel) {
    && !k.init.spawned && !k.init.probeSent && k.init.spawns == 0 && k.users == {}
    && (Silent(k) || Greeted(k) || Approved(k))
  }

  /** The user processes are spawned, once, and the probe is sent. */
  predicate Spawned(k: Kernel) {
    && k.init.spawned && k.init.probeSent && k.init.spawns == 1
    && [GREETING, PROBING] <= Messages(k.ipc.accepted.policy)
    && [APPROVAL] <= Messages(k.ipc.accepted.init)
  }

  // ---- the turns that matter ----

  lemma QueuesFromLogs(k: Kernel, asked: seq<Message>, heard: seq<Message>, approved: seq<Message>)
    requires Conserved(k.ipc) && Logs(k.ipc, asked, heard, approved) && |heard| <= |asked|
    ensures k.ipc.queues.policy == asked[|heard|..] && k.ipc.queues.init == approved
  {
    assert asked == heard + k.ipc.queues.policy;
    assert approved == [] + k.ipc.queues.init;
  }

  /** The first beat of the supervisor queues the greeting. */
  lemma BeatGreets(k: Kernel)
    requires k.sched.current == Some(INIT_TASK) && Conserved(k.ipc) && k.users == {} && k.init.beats == 0
    requires k.contextFlags == 0 && k.contextDepth == 0 && Logs(k.ipc, [], [], [])
    ensures var u := InitService(k);
            Logs(u.ipc, [GREETING], [], []) && u.init == k.init.(beats := 1) && u.users == {}
  {
    var b := k.(init := k.init.(beats := 1));
    QueuesFromLogs(k, [], [], []);
    ServiceSendOutcome(b, INIT_TASK, AI_POLICY, HELLO);
    assert Inherited(b, INIT_TASK, HELLO) == GREETING;
    MessagesAppend(k.ipc.accepted.policy, Stamped(GREETING, k.sched.ticks));
    SendFrame(b, AI_POLICY, HELLO);
    DeliverIs(b, AI_POLICY, GREETING);
    hide Judge, Deliver;
  }

  /** The broker's turn answers it. */
  lemma BrokerAnswers(k: Kernel)
    requires k.sched.current == Some(POLICY_TASK) && Conserved(k.ipc) && k.users == {}
    requires Logs(k.ipc, [GREETING], [], [])
    ensures var u := PolicyService(k);
            Logs(u.ipc, [GREETING], [GREETING], [APPROVAL]) && u.init == k.init && u.users == {}
  {
    QueuesFromLogs(k, [GREETING], [], []);
    var u := Take(k, AI_POLICY);
    ServiceSendOutcome(u, POLICY_TASK, INIT, Reply(GREETING));
    assert Inherited(u, POLICY_TASK, Reply(GREETING)) == APPROVAL;
    MessagesAppend(k.ipc.accepted.init, Stamped(APPROVAL, k.sched.ticks));
    SendFrame(u, INIT, Reply(GREETING));
    DeliverIs(u, INIT, APPROVAL);
    hide Judge, Deliver;
    assert PolicyDrains(k) == PolicyHandles(k);
  }

  /** The probe of the supervisor, with the greeting answered and nothing else asked. */
  lemma ProbeGoesOut(u: Kernel)
    requires u.sched.current == Some(INIT_TASK) && u.users == {} && u.ipc.queues.policy == []
    requires Messages(u.ipc.accepted.policy) == [GREETING]
    ensures var v := Send(u, AI_POLICY, PROBE).0;
            && Messages(v.ipc.accepted.policy) == [GREETING, PROBING]
            && v.ipc.accepted.init == u.ipc.accepted.init && v.init == u.init
            && v.ipc.queues.init == u.ipc.queues.init
  {
    ServiceSendOutcome(u, INIT_TASK, AI_POLICY, PROBE);
    hide Judge;
    assert PROBE.flags != 0;
    assert Inherited(u, INIT_TASK, PROBE) == PROBING;
    MessagesAppend(u.ipc.accepted.policy, Stamped(PROBING, u.sched.ticks));
    SendFrame(u, AI_POLICY, PROBE);
    DeliverIs(u, AI_POLICY, PROBING);
    hide Deliver, Messages;
  }

  /** The supervisor's next turn spawns and probes. */
  lemma SupervisorSpawns(k: Kernel)
    requires k.sched.current == Some(INIT_TASK) && Conserved(k.ipc) && k.users == {} && k.init.beats >= 1
    requires !k.init.spawned && !k.init.probeSent && k.init.spawns == 0
    requires Logs(k.ipc, [GREETING], [GREETING], [APPROVAL])
    ensures Spawned(InitService(k))
  {
    var b := k.(init := k.init.(beats := k.init.beats + 1));
    QueuesFromLogs(k, [GREETING], [GREETING], [APPROVAL]);
    var u := SpawnOnce(Take(b, INIT));
    hide Send, Conserved, Messages;
    ProbeGoesOut(u);
    assert InitDrains(b) == InitHandles(b);
  }

  // ---- every step stays on the path ----

  lemma SameTurn(k: Kernel, i: nat)
    requires KernelOk(k) && AtRest(k) && Pick(k.sched) == Some(i)
    ensures var b := k.(sched := Begin(k.sched, i));
            b.sched.current == Some(i) && i < 4 && Conserved(b.ipc) && KernelOk(b)
            && b.contextFlags == 0 && b.contextDepth == 0
  {
    BeginKeepsOk(k, i);
  }

  /** A turn of the supervisor before its approval, other than the first, does nothing but beat. */
  lemma IdleBeat(k: Kernel)
    requires k.ipc.queues.init == [] && k.init.beats >= 1
    ensures InitService(k) == Wait(k.(init := k.init.(beats := k.init.beats + 1)))
  {
  }

  lemma DriverOnlyTries(k: Kernel)
    requires k.sched.current == Some(DRIVER_TASK)
    ensures DriverService(k) == Wait(k.(driverBeats := k.driverBeats + 1))
  {
    EscalationDenied(k.(driverBeats := k.driverBeats + 1));
  }

  /** After the turn of task `i`, tasks whose fields it left alone are due as before. */
  lemma DueStays(s: Sched, i: nat, j: nat)
    requires i < |s.tasks| && j < |s.tasks| && i != j
    ensures Due(Finish(WaitCurrent(Begin(s, i)), i), j) <==> Due(s, j)
    ensures Due(Finish(Begin(s, i), i), j) <==> Due(s, j)
  {
  }

  lemma EarlyTurn(k: Kernel)
    requires KernelOk(k) && AtRest(k) && Early(k)
    ensures Early(RunOneTask(k)) || Spawned(RunOneTask(k))
  {
    if Pick(k.sched).Some? {
      var i := Pick(k.sched).value;
      var b := k.(sched := Begin(k.sched, i));
      SameTurn(k, i);
      hide KernelOk, AtRest, Pick;
      if i == INIT_TASK {
        if Silent(k) {
          BeatGreets(b);
        } else if Greeted(k) {
          QueuesFromLogs(k, [GREETING], [], []);
          IdleBeat(b);
        } else {
          SupervisorSpawns(b);
        }
        hide InitService;
      } else if i == POLICY_TASK {
        if Greeted(k) {
          BrokerAnswers(b);
          hide PolicyService;
        } else {
          BrokerIdle(k);
          DueStays(k.sched, POLICY_TASK, INIT_TASK);
        }
      } else if i == DRIVER_TASK {
        DriverOnlyTries(b);
        DueStays(k.sched, DRIVER_TASK, INIT_TASK);
        hide DriverService;
      } else {
        DueStays(k.sched, i, INIT_TASK);
      }
    }
  }

  lemma BrokerIdle(k: Kernel)
    requires Conserved(k.ipc) && (Logs(k.ipc, [], [], []) || Logs(k.ipc, [GREETING], [GREETING], [APPROVAL]))
    ensures k.ipc.queues.policy == []
  {
    if Logs(k.ipc, [], [], []) {
      QueuesFromLogs(k, [], [], []);
    } else {
      QueuesFromLogs(k, [GREETING], [GREETING], [APPROVAL]);
    }
  }

  lemma EarlyStep(k: Kernel, step: Step)
    requires KernelOk(k) && AtRest(k) && Early(k)
    ensures Early(Apply(k, step)) || Spawned(Apply(k, step))
  {
    match step
    case TimerTick => assert Due(k.sched, INIT_TASK) ==> Due(OnTick(k.sched), INIT_TASK);
    case RunTask => EarlyTurn(k);
    case UserRequest(_, _, _, _) =>
    case World(_, _) =>
  }

  // ---- once spawned ----

  lemma {:induction false} InitDrainsKeepsSpawned(k: Kernel)
    requires k.init.spawned && k.init.probeSent
    ensures InitDrains(k).init == k.init
    decreases |k.ipc.queues.init|
  {
    if k.ipc.queues.init != [] {
      InitDrainsKeepsSpawned(InitHandles(k));
    }
  }

  lemma SpawnedStays(k: Kernel, step: Step)
    requires KernelOk(k) && Spawned(k)
    ensures Spawned(Apply(k, step))
  {
    ApplyGrows(k, step);
    GrownMessages(k.ipc.accepted.policy, Apply(k, step).ipc.accepted.policy);
    GrownMessages(k.ipc.accepted.init, Apply(k, step).ipc.accepted.init);
    InitKept(k, step);
    hide Apply, KernelOk, Messages;
  }

  lemma GrownMessages(a: seq<Stamped>, b: seq<Stamped>)
    requires a <= b
    ensures Messages(a) <= Messages(b)
  {
    assert forall i :: 0 <= i < |a| ==> Messages(a)[i] == Messages(b)[i];
  }

  lemma InitKept(k: Kernel, step: Step)
    requires k.init.spawned && k.init.probeSent
    ensures var u := Apply(k, step).init; u.spawned && u.probeSent && u.spawns == k.init.spawns
  {
    match step
    case TimerTick =>
    case RunTask =>
      if Pick(k.sched).Some? {
        var i := Pick(k.sched).value;
        CallbackKeepsInit(k.(sched := Begin(k.sched, i)), i);
        hide Callback, Pick;
      }
    case UserRequest(source, arg0, arg1, interactive) =>
      SendFrame(k, AI_POLICY, RequestMessage(source, arg0, arg1, interactive));
    case World(_, _) =>
  }

  lemma CallbackKeepsInit(k: Kernel, i: nat)
    requires k.init.spawned && k.init.probeSent
    ensures var u := Callback(k, i).init; u.spawned && u.probeSent && u.spawns == k.init.spawns
  {
    if i == INIT_TASK {
      SendFrame(k.(init := k.init.(beats := k.init.beats + 1)), AI_POLICY, HELLO);
      InitDrainsKeepsSpawned(InitGreets(k));
    } else if i == DRIVER_TASK {
      SendFrame(k.(driverBeats := k.driverBeats + 1), AI_POLICY, ESCALATION);
    } else if i == POLICY_TASK {
      DrainKeepsInit(k);
    }
  }

  lemma {:induction false} DrainKeepsInit(k: Kernel)
    ensures PolicyDrains(k).init == k.init
    decreases |k.ipc.queues.policy|
  {
    if k.ipc.queues.policy != [] {
      var m, u := k.ipc.queues.policy[0], Take(k, AI_POLICY);
      SendFrame(u, INIT, Reply(m));
      hide Send;
      assert PolicyHandles(k).init == k.init;
      DrainKeepsInit(PolicyHandles(k));
    }
  }

  // ---- every run ----

  lemma {:induction false} RunTellsStory(k: Kernel, steps: seq<Step>)
    requires KernelOk(k) && AtRest(k) && (Early(k) || Spawned(k))
    ensures Early(Run(k, steps)) || Spawned(Run(k, steps))
    decreases steps
  {
    if steps != [] {
      if Early(k) {
        EarlyStep(k, steps[0]);
      } else {
        SpawnedStays(k, steps[0]);
      }
      ApplyKeepsOk(k, steps[0]);
      hide KernelOk, AtRest, Early, Spawned, Apply;
      RunTellsStory(Apply(k, steps[0]), steps[1..]);
    }
  }

  lemma BootIsEarly()
    ensures Early(BootKernel())
  {
    BootTasksOk();
    assert BootSched().tasks == [NewTask(3, 0, 0), NewTask(2, 0, 0), NewTask(4, 0, 0), NewTask(0, 100, 100)];
  }

  /** In every reachable state the conversation is silent, greeted, approved, or over with the processes spawned. */
  lemma Story(steps: seq<Step>)
    ensures var k := Run(BootKernel(), steps); Early(k) || Spawned(k)
  {
    BootKernelOk();
    BootIsEarly();
    hide KernelOk, AtRest, Early, Spawned, BootKernel;
    RunTellsStory(BootKernel(), steps);
  }

  // ---- and it comes to its end ----

  /** While it is early, the supervisor or the broker has something to do. */
  lemma EarlyIsUnsettled(k: Kernel)
    requires KernelOk(k) && AtRest(k) && Early(k)
    ensures !Settled(k)
  {
    if Greeted(k) {
      QueuesFromLogs(k, [GREETING], [], []);
    } else if Approved(k) {
      QueuesFromLogs(k, [GREETING], [GREETING], [APPROVAL]);
    }
  }

  /** So every turn brings the end nearer, whatever comes between. */
  lemma {:induction false} RunSpawns(k: Kernel, steps: seq<Step>, horizon: nat)
    requires KernelOk(k) && AtRest(k) && Early(k) && Steady(k.sched) && k.sched.ticks + Ticks(steps) <= horizon
    ensures Spawned(Run(k, steps)) || Load(k, horizon) > Turns(steps)
    decreases steps
  {
    EarlyIsUnsettled(k);
    UnsettledIsLoaded(k, horizon);
    if steps != [] {
      var u := Apply(k, steps[0]);
      EarlyStep(k, steps[0]);
      ApplyKeepsOk(k, steps[0]);
      if steps[0].UserRequest? {
        assert u == k;
      } else {
        StepSettles(k, steps[0], horizon);
      }
      if Early(u) {
        EarlyIsUnsettled(u);
        hide KernelOk, AtRest, Early, Spawned, Apply, Load, Steady, Settled;
        RunSpawns(u, steps[1..], horizon);
      } else {
        hide KernelOk, AtRest, Early, Apply, Load, Steady;
        RunTellsSpawned(u, steps[1..]);
      }
    }
  }

  lemma {:induction false} RunTellsSpawned(k: Kernel, steps: seq<Step>)
    requires KernelOk(k) && AtRest(k) && Spawned(k)
    ensures Spawned(Run(k, steps))
    decreases steps
  {
    if steps != [] {
      SpawnedStays(k, steps[0]);
      ApplyKeepsOk(k, steps[0]);
      hide KernelOk, AtRest, Spawned, Apply;
      RunTellsSpawned(Apply(k, steps[0]), steps[1..]);
    }
  }

  /** From boot, nine turns, and one more per hundred ticks, spawn the user processes in every run. */
  lemma BootSpawns(steps: seq<Step>)
    requires Turns(steps) >= 9 + Ticks(steps) / 100
    ensures Spawned(Run(BootKernel(), steps))
  {
    BootKernelOk();
    BootIsEarly();
    BootIsSteady();
    assert BootKernel().sched.ticks == 0 by { BootTasksOk(); }
    hide KernelOk, AtRest, Early, Spawned, BootKernel, Run;
    RunSpawns(BootKernel(), steps, Ticks(steps));
    LoadBound(BootKernel(), Ticks(steps));
  }
}
