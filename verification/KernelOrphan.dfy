/**
 A run in which two approvals reach the supervisor, made of timer interrupts and what user
 processes do between them. In the first interrupt the broker idles and the supervisor asks;
 in the second the broker approves, and the supervisor spawns the session shell and the
 automation worker and sends its probe; then the worker asks the broker and exits; the third
 interrupt gives the broker its turn.
 */
module KernelOrphan {
  import opened Prelude
  import opened SchedulerSpec
  import opened IpcSpec
  import opened KernelSpec
  import opened KernelApprovals

  /** The policy endpoints of the session shell, process 1, and of the worker, process 2. */
  const SHELL: nat := 0x102
  const WORKER: nat := 0x106

  /** The worker is not of the interactive class, so its request is ordinary and nobody waits. */
  const REQUEST: Step := UserRequest(WORKER, 7, 2, false)
  const SPAWNED: Step := World({SHELL, WORKER}, 0)
  const EXITED: Step := World({SHELL}, 0)

  const ORPHANING_RUN: seq<Step> := INTERRUPT + INTERRUPT + [SPAWNED, REQUEST, EXITED] + INTERRUPT

  const GREETING: Message := HELLO.(source := INIT)
  const PROBING: Message := PROBE.(source := INIT)
  const ASKING: Message := Message(WORKER, HANDSHAKE, 7, 2, 0, 1)

  // ---- the scheduler in the first three ticks ----

  /** A task that has nothing but its queue to run for: ready and due, or waiting. */
  predicate Idle(t: Task, priority: nat, on: bool, now: nat) {
    && t.priority == priority && t.period == 0 && t.hasCallback && !t.urgent
    && if on then t.state == Ready && t.nextRun <= now else t.state == Waiting
  }

  /** Between turns: who of the supervisor and the broker is ready. */
  predicate Calm(s: Sched, now: nat, init: bool, policy: bool) {
    && |s.tasks| == 4 && s.ticks == now <= 3 && s.cursor < 4 && s.current == None
    && Idle(s.tasks[0], 3, init, now) && s.tasks[1] == NewTask(2, 0, 0)
    && Idle(s.tasks[2], 4, policy, now) && s.tasks[3] == NewTask(0, 100, 100)
  }

  lemma TickKeepsCalm(s: Sched, now: nat, init: bool, policy: bool)
    requires Calm(s, now, init, policy) && now < 3
    ensures Calm(OnTick(s), now + 1, init, policy)
  {
  }

  lemma PickIs(s: Sched, b: nat)
    requires s.cursor < |s.tasks| && IsPick(s, b)
    ensures Pick(s) == Some(b)
  {
    PickIsPick(s);
    if Pick(s).Some? {
      PickUnique(s, b, Pick(s).value);
    }
  }

  lemma BrokerFirst(s: Sched, now: nat, init: bool)
    requires Calm(s, now, init, true)
    ensures Pick(s) == Some(POLICY_TASK)
  {
    assert IsPick(s, POLICY_TASK);
    PickIs(s, POLICY_TASK);
  }

  lemma SupervisorNext(s: Sched, now: nat)
    requires Calm(s, now, true, false)
    ensures Pick(s) == Some(INIT_TASK)
  {
    assert IsPick(s, INIT_TASK);
    PickIs(s, INIT_TASK);
  }

  /** A turn that ends in waiting, with or without waking the other service. */
  lemma TurnKeepsCalm(s: Sched, now: nat, init: bool, policy: bool, i: nat)
    requires Calm(s, now, init, policy) && (i == INIT_TASK || i == POLICY_TASK)
    ensures Calm(Finish(WaitCurrent(Begin(s, i)), i), now, init && i != INIT_TASK, policy && i != POLICY_TASK)
    ensures Calm(Finish(WaitCurrent(Wake(Begin(s, i), 2 - i)), i), now, i != INIT_TASK, i != POLICY_TASK)
  {
  }

  // ---- the turns ----

  predicate Quiet(k: Kernel, now: nat, init: bool, policy: bool) {
    && Calm(k.sched, now, init, policy) && k.contextFlags == 0 && k.contextDepth == 0 && k.waiters == 0
    && k.ipc.windows == BootIpc().windows
  }

  lemma Boots()
    ensures Quiet(BootKernel(), 0, true, true)
  {
    assert BootSched().tasks == [NewTask(3, 0, 0), NewTask(2, 0, 0), NewTask(4, 0, 0), NewTask(0, 100, 100)];
  }

  lemma TickKeepsQuiet(k: Kernel, now: nat, init: bool, policy: bool)
    requires Quiet(k, now, init, policy) && now < 3
    ensures var u := Apply(k, TimerTick); Quiet(u, now + 1, init, policy) && u == k.(sched := u.sched)
  {
    TickKeepsCalm(k.sched, now, init, policy);
  }

  lemma BrokerIdles(k: Kernel, now: nat)
    requires Quiet(k, now, true, true) && k.ipc.queues.policy == []
    ensures Quiet(RunOneTask(k), now, true, false) && RunOneTask(k) == k.(sched := RunOneTask(k).sched)
  {
    BrokerFirst(k.sched, now, true);
    TurnKeepsCalm(k.sched, now, true, true, POLICY_TASK);
  }

  /** A service's send to the empty broker queue is queued and wakes the broker. */
  lemma InitSends(k: Kernel, m: Message)
    requires k.sched.current == Some(INIT_TASK) && k.waiters == 0 && INIT !in k.users && k.ipc.queues.policy == []
    requires 0 < m.depth <= DEPTH_LIMIT && (m.flags != 0 || k.contextFlags == 0)
    ensures Send(k, AI_POLICY, m) ==
            (k.(ipc := Enqueue(k.ipc, k.users, k.sched.ticks, AI_POLICY, m.(source := INIT)),
                sched := Wake(k.sched, POLICY_TASK)), Ok)
  {
    assert Grants(CapsFor(INIT), CAP_ROUTE_POLICY);
    assert Judge(k, AI_POLICY, m) == Admitted(m.(source := INIT));
  }

  lemma SupervisorGreets(k: Kernel, now: nat)
    requires Quiet(k, now, true, false) && k.users == {} && k.init.beats == 0
    requires k.ipc.queues.policy == [] && k.ipc.queues.init == []
    ensures var u := RunOneTask(k);
            && Quiet(u, now, false, true) && u.users == {} && u.init == k.init.(beats := 1)
            && u.ipc.queues.policy == [GREETING] && u.ipc.queues.init == []
  {
    SupervisorNext(k.sched, now);
    TurnKeepsCalm(k.sched, now, true, false, INIT_TASK);
    var b := k.(sched := Begin(k.sched, INIT_TASK), init := k.init.(beats := 1));
    InitSends(b, HELLO);
  }

  lemma BrokerReplies(k: Kernel, m: Message)
    requires k.sched.current == Some(POLICY_TASK) && k.contextDepth == m.depth == 1 && k.ipc.queues.init == []
    ensures var q := Queued(CurrentSender(k), Reply(m));
            && q.kind == APPROVED
            && Send(k, INIT, Reply(m)) ==
               (k.(ipc := Enqueue(k.ipc, k.users, k.sched.ticks, INIT, q), sched := Wake(k.sched, INIT_TASK)), Ok)
  {
    assert Grants(CapsFor(AI_POLICY), CAP_ROUTE_INIT);
    assert Judge(k, INIT, Reply(m)) == Admitted(Queued(CurrentSender(k), Reply(m)));
  }

  lemma BrokerApproves(k: Kernel, now: nat)
    requires Quiet(k, now, false, true) && k.users == {} && k.ipc.queues.policy == [GREETING] && k.ipc.queues.init == []
    ensures var u := RunOneTask(k);
            && Quiet(u, now, true, false) && u.users == {} && u.init == k.init
            && u.ipc.queues.policy == [] && |u.ipc.queues.init| == 1 && u.ipc.queues.init[0].kind == APPROVED
  {
    BrokerFirst(k.sched, now, false);
    TurnKeepsCalm(k.sched, now, false, true, POLICY_TASK);
    var b := k.(sched := Begin(k.sched, POLICY_TASK));
    BrokerReplies(Take(b, AI_POLICY), GREETING);
    assert PolicyDrains(b) == PolicyHandles(b);
  }

  lemma SupervisorSpawns(k: Kernel, now: nat)
    requires Quiet(k, now, true, false) && k.users == {} && k.init.beats == 1 && !k.init.spawned && !k.init.probeSent
    requires k.ipc.queues.policy == [] && |k.ipc.queues.init| == 1 && k.ipc.queues.init[0].kind == APPROVED
    ensures var u := RunOneTask(k);
            && Quiet(u, now, false, true) && u.users == {} && u.init.spawned
            && u.ipc.queues.policy == [PROBING] && u.ipc.queues.init == []
  {
    SupervisorNext(k.sched, now);
    TurnKeepsCalm(k.sched, now, true, false, INIT_TASK);
    var b := k.(sched := Begin(k.sched, INIT_TASK), init := k.init.(beats := 2));
    var u := SpawnOnce(Take(b, INIT));
    assert PROBE.flags != 0;
    InitSends(u, PROBE);
    assert InitDrains(b) == InitHandles(b);
  }

  /** The worker's first request joins the queue behind the probe. */
  lemma WorkerAsks(k: Kernel, now: nat)
    requires Quiet(k, now, false, true) && k.users == {SHELL, WORKER} && k.ipc.queues.policy == [PROBING]
    ensures var u := Apply(k, REQUEST);
            Calm(u.sched, now, false, true) && u.init == k.init && u.ipc.queues.policy == [PROBING, ASKING]
  {
    assert Grants(CAP_ROUTE_POLICY, CAP_ROUTE_POLICY);
    assert Queued(CurrentSender(k), ASKING) == ASKING;
    assert !TooSoon(k.ipc.windows, WORKER, now % U32_MODULUS);
    assert Judge(k, AI_POLICY, ASKING) == Admitted(ASKING);
  }

  // ---- the run ----

  lemma FirstInterrupt()
    ensures var k := Run(BootKernel(), INTERRUPT);
            && Quiet(k, 1, false, true) && k.users == {} && k.init == BootKernel().init.(beats := 1)
            && k.ipc.queues.policy == [GREETING] && k.ipc.queues.init == []
  {
    RunInterrupt(BootKernel());
    Boots();
    TickKeepsQuiet(BootKernel(), 0, true, true);
    hide RunOneTask, Quiet, Run;
    var k0 := Apply(BootKernel(), TimerTick);
    BrokerIdles(k0, 1);
    SupervisorGreets(RunOneTask(k0), 1);
  }

  /** After the second interrupt the user processes are spawned and the probe is queued. */
  lemma SecondInterrupt(k: Kernel)
    requires Quiet(k, 1, false, true) && k.users == {} && k.init == BootKernel().init.(beats := 1)
    requires k.ipc.queues.policy == [GREETING] && k.ipc.queues.init == []
    ensures var u := Run(k, INTERRUPT);
            Quiet(u, 2, false, true) && u.users == {} && u.init.spawned && u.ipc.queues.policy == [PROBING]
  {
    RunInterrupt(k);
    TickKeepsQuiet(k, 1, false, true);
    hide RunOneTask, Quiet, Run;
    var k0 := Apply(k, TimerTick);
    BrokerApproves(k0, 2);
    SupervisorSpawns(RunOneTask(k0), 2);
  }

  /** The broker's next turn meets the request of a process that is gone. */
  lemma OrphanWaits(k: Kernel)
    requires Quiet(k, 2, false, true) && k.users == {} && k.init.spawned && k.ipc.queues.policy == [PROBING]
    ensures AnswersOrphan(Run(k, [SPAWNED, REQUEST, EXITED, TimerTick]), RunTask)
  {
    var here := Apply(k, SPAWNED);
    WorkerAsks(here, 2);
    var asked := Apply(here, REQUEST);
    var gone := Apply(asked, EXITED);
    TickKeepsCalm(gone.sched, 2, false, true);
    var ticked := Apply(gone, TimerTick);
    BrokerFirst(ticked.sched, 3, false);
    assert Orphan(ticked.users, ticked.ipc.queues.policy[1]);
    assert Run(k, [SPAWNED, REQUEST, EXITED, TimerTick]) == ticked by {
      hide Apply, Run;
      assert [SPAWNED, REQUEST, EXITED, TimerTick] == [SPAWNED, REQUEST] + ([EXITED, TimerTick] + []);
      RunTwo(k, SPAWNED, REQUEST, [EXITED, TimerTick] + []);
      RunTwo(asked, EXITED, TimerTick, []);
      RunNothing(ticked);
    }
  }

  lemma {:induction false} NeverMeansNot(k: Kernel, steps: seq<Step>, i: nat)
    requires NeverAnswersOrphan(k, steps) && i < |steps|
    ensures !AnswersOrphan(Run(k, steps[..i]), steps[i])
    decreases i
  {
    if i != 0 {
      NeverMeansNot(Apply(k, steps[0]), steps[1..], i - 1);
      assert steps[..i][1..] == steps[1..][..i - 1];
    }
  }

  lemma BeforeTheTurn(k: Kernel)
    ensures Run(k, ORPHANING_RUN[..10])
         == Run(Run(Run(k, INTERRUPT), INTERRUPT), [SPAWNED, REQUEST, EXITED, TimerTick])
  {
    hide Run;
    var last := [SPAWNED, REQUEST, EXITED, TimerTick];
    assert ORPHANING_RUN[..10] == INTERRUPT + (INTERRUPT + last);
    RunConcat(k, INTERRUPT, INTERRUPT + last);
    RunConcat(Run(k, INTERRUPT), INTERRUPT, last);
  }

  /** A process that exits while its request is queued makes a second approval reach the supervisor. */
  lemma ExitCanApproveTwice()
    ensures |Run(BootKernel(), ORPHANING_RUN).ipc.accepted.init| >= 2
  {
    FirstInterrupt();
    SecondInterrupt(Run(BootKernel(), INTERRUPT));
    OrphanWaits(Run(Run(BootKernel(), INTERRUPT), INTERRUPT));
    BeforeTheTurn(BootKernel());
    AtMostOneApprovalIff(ORPHANING_RUN);
    hide Run;
    if NeverAnswersOrphan(BootKernel(), ORPHANING_RUN) {
      NeverMeansNot(BootKernel(), ORPHANING_RUN, 10);
    }
  }
}
