/**
 Logs and rate windows only ever grow, and what one drain of the broker's queue sends to the
 supervisor.
 */
module KernelHistory {
  import opened Prelude
  import opened SchedulerSpec
  import opened IpcSpec
  import opened IpcRuns
  import opened KernelSpec
  import opened KernelRuns
  import opened KernelTalk

  // ---- nothing recorded is ever taken back ----

  predicate WindowsKept(a: seq<Window>, b: seq<Window>) {
    |a| == |b| && forall i :: 0 <= i < |a| && a[i].source != 0 ==> b[i].source == a[i].source
  }

  predicate LogsGrow(a: Ipc, b: Ipc) {
    && a.accepted.init <= b.accepted.init
    && a.accepted.driver <= b.accepted.driver
    && a.accepted.policy <= b.accepted.policy
    && a.received.init <= b.received.init
    && a.received.driver <= b.received.driver
    && a.received.policy <= b.received.policy
  }

  predicate Grows(k: Kernel, u: Kernel) {
    WindowsKept(k.ipc.windows, u.ipc.windows) && LogsGrow(k.ipc, u.ipc)
  }

  lemma GrowsTrans(a: Kernel, b: Kernel, c: Kernel)
    requires Grows(a, b) && Grows(b, c)
    ensures Grows(a, c)
  {
  }

  lemma EnqueueGrows(ipc: Ipc, users: set<nat>, now: nat, destination: nat, m: Message)
    requires 1 <= destination <= 3
    ensures WindowsKept(ipc.windows, Enqueue(ipc, users, now, destination, m).windows)
    ensures LogsGrow(ipc, Enqueue(ipc, users, now, destination, m))
  {
    var u := Enqueue(ipc, users, now, destination, m);
    forall i | 0 <= i < |ipc.windows| && ipc.windows[i].source != 0
      ensures u.windows[i].source == ipc.windows[i].source
    {
      WindowsStay(ipc, users, now, destination, m, i);
    }
  }

  lemma SendGrows(k: Kernel, destination: nat, m: Message)
    ensures Grows(k, Send(k, destination, m).0)
  {
    SendOutcome(k, destination, m);
    if 1 <= destination <= 3 {
      EnqueueGrows(k.ipc, k.users, k.sched.ticks, destination, Queued(CurrentSender(k), m));
    }
  }

  lemma InitHandlesGrows(k: Kernel)
    requires k.ipc.queues.init != []
    ensures Grows(k, InitHandles(k))
  {
    var u := SpawnOnce(Take(k, INIT));
    assert Grows(k, u);
    SendGrows(u, AI_POLICY, PROBE);
    GrowsTrans(k, u, Send(u, AI_POLICY, PROBE).0);
  }

  lemma {:induction false} InitDrainsGrows(k: Kernel)
    ensures Grows(k, InitDrains(k))
    decreases |k.ipc.queues.init|
  {
    if k.ipc.queues.init != [] {
      InitHandlesGrows(k);
      InitDrainsGrows(InitHandles(k));
      GrowsTrans(k, InitHandles(k), InitDrains(k));
    }
  }

  lemma PolicyHandlesGrows(k: Kernel)
    requires k.ipc.queues.policy != []
    ensures Grows(k, PolicyHandles(k))
  {
    var m, u := k.ipc.queues.policy[0], Take(k, AI_POLICY);
    assert Grows(k, u);
    SendGrows(u, INIT, Reply(m));
    GrowsTrans(k, u, Send(u, INIT, Reply(m)).0);
  }

  lemma {:induction false} PolicyDrainsGrows(k: Kernel)
    ensures Grows(k, PolicyDrains(k))
    decreases |k.ipc.queues.policy|
  {
    if k.ipc.queues.policy != [] {
      PolicyHandlesGrows(k);
      PolicyDrainsGrows(PolicyHandles(k));
      GrowsTrans(k, PolicyHandles(k), PolicyDrains(k));
    }
  }

  lemma InitGreetsGrows(k: Kernel)
    ensures Grows(k, InitGreets(k))
  {
    SendGrows(k.(init := k.init.(beats := k.init.beats + 1)), AI_POLICY, HELLO);
  }

  lemma InitServiceGrows(k: Kernel)
    ensures Grows(k, InitService(k))
  {
    var g := InitGreets(k);
    assert Grows(k, g) by { InitGreetsGrows(k); }
    InitDrainsGrows(g);
    GrowsTrans(k, g, InitDrains(g));
  }

  lemma DriverServiceGrows(k: Kernel)
    ensures Grows(k, DriverService(k))
  {
    SendGrows(k.(driverBeats := k.driverBeats + 1), AI_POLICY, ESCALATION);
  }

  lemma PolicyServiceGrows(k: Kernel)
    ensures Grows(k, PolicyService(k))
  {
    PolicyDrainsGrows(k);
  }

  lemma CallbackGrows(k: Kernel, i: nat)
    ensures Grows(k, Callback(k, i))
  {
    if i == INIT_TASK {
      InitServiceGrows(k);
    } else if i == DRIVER_TASK {
      DriverServiceGrows(k);
    } else if i == POLICY_TASK {
      PolicyServiceGrows(k);
    }
  }

  lemma ApplyGrows(k: Kernel, step: Step)
    ensures Grows(k, Apply(k, step))
  {
    match step
    case TimerTick =>
    case RunTask =>
      if Pick(k.sched).Some? {
        CallbackGrows(k.(sched := Begin(k.sched, Pick(k.sched).value)), Pick(k.sched).value);
      }
    case UserRequest(source, arg0, arg1, interactive) =>
      SendGrows(k, AI_POLICY, RequestMessage(source, arg0, arg1, interactive));
    case World(_, _) =>
  }

  /** Over every run a held window keeps its holder, and no log entry is lost or rewritten. */
  lemma {:induction false} RunGrows(k: Kernel, steps: seq<Step>)
    ensures Grows(k, Run(k, steps))
    decreases steps
  {
    if steps != [] {
      ApplyGrows(k, steps[0]);
      RunGrows(Apply(k, steps[0]), steps[1..]);
      GrowsTrans(k, Apply(k, steps[0]), Run(k, steps));
    }
  }

  // ---- when approvals reach the supervisor ----

  /** A queued handshake whose answer would go to the supervisor. */
  predicate AnsweredToInit(users: set<nat>, m: Message) {
    m.kind == HANDSHAKE && m.source !in users && m.depth <= 1
  }

  lemma PolicyHandlesFrame(k: Kernel)
    requires k.ipc.queues.policy != []
    ensures var u := PolicyHandles(k); u.users == k.users && u.sched.current == k.sched.current
    ensures PolicyHandles(k).ipc.accepted.init == k.ipc.accepted.init ==>
              PolicyHandles(k).ipc.queues.init == k.ipc.queues.init
  {
    var m, u := k.ipc.queues.policy[0], Take(k, AI_POLICY);
    SendFrame(u, INIT, Reply(m));
    SendOutcome(u, INIT, Reply(m));
    var log := k.ipc.accepted.init;
    assert |log + [Stamped(Queued(CurrentSender(u), Reply(m)), u.sched.ticks)]| == |log| + 1;
  }

  /**
   Draining the broker's queue sends an approval to the supervisor exactly when there is
   room and some queued shallow handshake comes from no live user endpoint.
   */
  lemma {:induction false} DrainApprovesIff(k: Kernel)
    requires k.sched.current == Some(POLICY_TASK)
    ensures PolicyDrains(k).ipc.accepted.init != k.ipc.accepted.init <==>
              |k.ipc.queues.init| < QUEUE_CAPACITY
              && exists i :: 0 <= i < |k.ipc.queues.policy| && AnsweredToInit(k.users, k.ipc.queues.policy[i])
    decreases |k.ipc.queues.policy|
  {
    var q := k.ipc.queues.policy;
    if q != [] {
      var u := PolicyHandles(k);
      ReplyReachesInitIff(k);
      PolicyHandlesFrame(k);
      PolicyHandlesGrows(k);
      PolicyDrainsGrows(u);
      DrainApprovesIff(u);
      if u.ipc.accepted.init == k.ipc.accepted.init {
        if exists i :: 0 <= i < |q| && AnsweredToInit(k.users, q[i]) && |k.ipc.queues.init| < QUEUE_CAPACITY {
          var i :| 0 <= i < |q| && AnsweredToInit(k.users, q[i]);
          assert q[1..][i - 1] == q[i];
        }
        if exists i :: 0 <= i < |q[1..]| && AnsweredToInit(k.users, q[1..][i]) {
          var i :| 0 <= i < |q[1..]| && AnsweredToInit(k.users, q[1..][i]);
          assert q[i + 1] == q[1..][i];
        }
      } else {
        assert |u.ipc.accepted.init| > |k.ipc.accepted.init|;
        assert AnsweredToInit(k.users, q[0]);
      }
    }
  }
}
