/**
 The scheduler, the message queues and the broker services as one step system. Service
 callbacks run as atomic steps between ticks; userspace appears as the set of its live
 endpoints and the number of interactive waiters. Both may change at any time once the
 supervisor has spawned the first user processes; before that there are none.
 The timer's tick counter and the scheduler's advance together, so one unbounded counter
 serves for both; the rate limit reads it modulo 2^32.
 */
module KernelSpec {
  import opened Prelude
  import opened SchedulerSpec
  import opened IpcSpec

  const INIT_TASK: nat := 0
  const DRIVER_TASK: nat := 1
  const POLICY_TASK: nat := 2

  datatype InitState = InitState(beats: nat, probeSent: bool, spawned: bool, spawns: nat)

  datatype Kernel = Kernel(
    sched: Sched,
    ipc: Ipc,
    contextFlags: Flags,
    contextDepth: nat,
    init: InitState,
    driverBeats: nat,
    chainDenials: nat,
    users: set<nat>,
    waiters: nat)

  /** The four service tasks as registered at boot. */
  function BootSched(): Sched {
    var s := Register(BOOT, 3, 0, 0, true);
    var s := Register(s, 2, 0, 0, true);
    var s := Register(s, 4, 0, 0, true);
    Register(s, 0, 100, 100, true)
  }

  function BootKernel(): Kernel {
    Kernel(BootSched(), BootIpc(), 0, 0, InitState(0, false, false, 0), 0, 0, {}, 0)
  }

  // ---- messages ----

  /** The record of the running task: its endpoint and capabilities. */
  function CurrentSender(k: Kernel): Sender {
    match k.sched.current
    case None => Sender(0, 0, k.contextFlags, k.contextDepth)
    case Some(i) =>
      var endpoint := if i < 3 then i + 1 else 0;
      Sender(endpoint, CapsFor(endpoint), k.contextFlags, k.contextDepth)
  }

  /** Wakes the task that owns an endpoint, urgently for the broker while someone waits on it. */
  function WakeOwner(k: Kernel, endpoint: nat): Kernel
    requires 1 <= endpoint <= 3
  {
    if endpoint == AI_POLICY && k.waiters != 0
    then k.(sched := WakeUrgent(k.sched, endpoint - 1))
    else k.(sched := Wake(k.sched, endpoint - 1))
  }

  function Judge(k: Kernel, destination: nat, m: Message): Verdict {
    Admit(k.ipc, CurrentSender(k), k.users, k.sched.ticks, destination, m)
  }

  function Deliver(k: Kernel, destination: nat, q: Message): Kernel
    requires 1 <= destination <= 3
  {
    WakeOwner(k.(ipc := Enqueue(k.ipc, k.users, k.sched.ticks, destination, q)), destination)
  }

  function Send(k: Kernel, destination: nat, m: Message): (r: (Kernel, Status))
    ensures destination != INIT ==> r.0.ipc.queues.init == k.ipc.queues.init
    ensures destination != AI_POLICY ==> r.0.ipc.queues.policy == k.ipc.queues.policy
  {
    match Judge(k, destination, m)
    case Refused(status) => (k, status)
    case TooDeep => (k.(chainDenials := k.chainDenials + 1), AccessDenied)
    case Admitted(q) => (Deliver(k, destination, q), Ok)
  }

  datatype Receipt = Received(message: Message) | NoEndpoint | NotOwner | Nothing

  /** The kernel itself, the endpoint's own service, or a supervisor may receive. */
  predicate MayReceive(k: Kernel, endpoint: nat) {
    || k.sched.current.None?
    || CurrentSender(k).endpoint == endpoint
    || Grants(CurrentSender(k).caps, CAP_SUPERVISE)
  }

  function Receive(k: Kernel, endpoint: nat): (Kernel, Receipt) {
    if !(1 <= endpoint <= 3) then (k, NoEndpoint)
    else if !MayReceive(k, endpoint) then (k, NotOwner)
    else if k.ipc.queues.At(endpoint) == [] then (k, Nothing)
    else (k.(ipc := Dequeue(k.ipc, endpoint)), Received(k.ipc.queues.At(endpoint)[0]))
  }

  /** Takes the first message of an endpoint and makes it the message context. */
  function Take(k: Kernel, endpoint: nat): Kernel
    requires 1 <= endpoint <= 3 && k.ipc.queues.At(endpoint) != []
  {
    var m := k.ipc.queues.At(endpoint)[0];
    k.(ipc := Dequeue(k.ipc, endpoint), contextFlags := m.flags, contextDepth := m.depth)
  }

  function ClearContext(k: Kernel): Kernel {
    k.(contextFlags := 0, contextDepth := 0)
  }

  function Wait(k: Kernel): Kernel {
    k.(sched := WaitCurrent(k.sched))
  }

  // ---- the services ----

  const HELLO: Message := Message(0, HANDSHAKE, 1, 0, 0, 1)
  const PROBE: Message := Message(0, HANDSHAKE, 3, 0, DEPENDENCY_PROBE, DEPTH_LIMIT)
  const ESCALATION: Message := Message(0, HANDSHAKE, 2, 0, 0, 1)

  function SpawnOnce(k: Kernel): Kernel {
    if k.init.spawned then k else k.(init := k.init.(spawned := true, spawns := k.init.spawns + 1))
  }

  function ProbeOnce(k: Kernel): (r: Kernel)
    ensures r.ipc.queues.init == k.ipc.queues.init
  {
    if k.init.probeSent then k
    else
      var (u, status) := Send(k, AI_POLICY, PROBE);
      if status == Ok then u.(init := u.init.(probeSent := true)) else u
  }

  /** One message at the supervisor: an approval spawns the user services and sends the probe. */
  function InitHandles(k: Kernel): (r: Kernel)
    requires k.ipc.queues.init != []
    ensures r.ipc.queues.init == k.ipc.queues.init[1..]
  {
    var m, u := k.ipc.queues.init[0], Take(k, INIT);
    ClearContext(if m.kind == APPROVED then ProbeOnce(SpawnOnce(u)) else u)
  }

  function InitDrains(k: Kernel): (r: Kernel)
    ensures r.ipc.queues.init == []
    decreases |k.ipc.queues.init|
  {
    if k.ipc.queues.init == [] then k else InitDrains(InitHandles(k))
  }

  function InitGreets(k: Kernel): Kernel {
    var u := k.(init := k.init.(beats := k.init.beats + 1));
    if u.init.beats == 1 then Send(u, AI_POLICY, HELLO).0 else u
  }

  function InitService(k: Kernel): Kernel {
    Wait(InitDrains(InitGreets(k)))
  }

  function DriverService(k: Kernel): Kernel {
    var u := k.(driverBeats := k.driverBeats + 1);
    Wait(if u.driverBeats == 1 then Send(u, AI_POLICY, ESCALATION).0 else u)
  }

  function Reply(m: Message): Message {
    Message(0, APPROVED, m.source, 0, 0, 0)
  }

  /**
   One message at the policy broker: a live user endpoint is answered in userspace, any
   other source gets its approval sent to the supervisor.
   */
  function PolicyHandles(k: Kernel): (r: Kernel)
    requires k.ipc.queues.policy != []
    ensures r.ipc.queues.policy == k.ipc.queues.policy[1..]
  {
    var m, u := k.ipc.queues.policy[0], Take(k, AI_POLICY);
    ClearContext(if m.kind == HANDSHAKE && m.source !in k.users then Send(u, INIT, Reply(m)).0 else u)
  }

  function PolicyDrains(k: Kernel): (r: Kernel)
    ensures r.ipc.queues.policy == []
    decreases |k.ipc.queues.policy|
  {
    if k.ipc.queues.policy == [] then k else PolicyDrains(PolicyHandles(k))
  }

  function PolicyService(k: Kernel): Kernel {
    Wait(PolicyDrains(k))
  }

  /** What the picked task's callback does; telemetry only reports. */
  function Callback(k: Kernel, i: nat): Kernel {
    if i == INIT_TASK then InitService(k)
    else if i == DRIVER_TASK then DriverService(k)
    else if i == POLICY_TASK then PolicyService(k)
    else k
  }

  // ---- steps ----

  datatype Step =
    | TimerTick
    | RunTask
    | UserRequest(source: nat, arg0: nat, arg1: nat, interactive: bool)
    | World(users: set<nat>, waiters: nat)

  function RunOneTask(k: Kernel): Kernel {
    match Pick(k.sched)
    case None => k
    case Some(i) =>
      var u := Callback(k.(sched := Begin(k.sched, i)), i);
      if i < |u.sched.tasks| then u.(sched := Finish(u.sched, i)) else u
  }

  function RequestMessage(source: nat, arg0: nat, arg1: nat, interactive: bool): Message {
    Message(source, HANDSHAKE, arg0, arg1, if interactive then INTERACTIVE_WAIT else 0, 1)
  }

  function Apply(k: Kernel, step: Step): Kernel {
    match step
    case TimerTick => k.(sched := OnTick(k.sched))
    case RunTask => RunOneTask(k)
    case UserRequest(source, arg0, arg1, interactive) =>
      if source in k.users then Send(k, AI_POLICY, RequestMessage(source, arg0, arg1, interactive)).0 else k
    case World(users, waiters) =>
      if (forall u :: u in users ==> IsUserId(u)) && (users != {} ==> k.init.spawned)
      then k.(users := users, waiters := waiters) else k
  }

  function Run(k: Kernel, steps: seq<Step>): Kernel
    decreases steps
  {
    if steps == [] then k else Run(Apply(k, steps[0]), steps[1..])
  }

  const RUN_BUDGET: nat := 2

  /** Runs up to `budget` due tasks. */
  function RunTasks(k: Kernel, budget: nat): Kernel
    decreases budget
  {
    if budget == 0 || Pick(k.sched).None? then k else RunTasks(RunOneTask(k), budget - 1)
  }

  /** The timer interrupt: time advances, then the scheduler runs its budget. */
  function Interrupt(k: Kernel): Kernel {
    RunTasks(Apply(k, TimerTick), RUN_BUDGET)
  }

  lemma RunConcat(k: Kernel, a: seq<Step>, b: seq<Step>)
    ensures Run(k, a + b) == Run(Run(k, a), b)
    decreases a
  {
    if a == [] {
      assert a + b == b;
    } else {
      assert (a + b)[1..] == a[1..] + b;
      RunConcat(Apply(k, a[0]), a[1..], b);
    }
  }

  /** The steps of a timer interrupt; a turn with nothing due changes nothing. */
  const INTERRUPT: seq<Step> := [TimerTick, RunTask, RunTask]

  lemma RunCons(k: Kernel, step: Step, rest: seq<Step>)
    ensures Run(k, [step] + rest) == Run(Apply(k, step), rest)
  {
    assert ([step] + rest)[1..] == rest;
  }

  lemma RunTwo(k: Kernel, a: Step, b: Step, rest: seq<Step>)
    ensures Run(k, [a, b] + rest) == Run(Apply(Apply(k, a), b), rest)
  {
    hide Apply;
    hide Run;
    assert [a, b] + rest == [a] + ([b] + rest);
    RunCons(k, a, [b] + rest);
    RunCons(Apply(k, a), b, rest);
  }

  lemma RunNothing(k: Kernel)
    ensures Run(k, []) == k
  {
  }

  lemma RunInterrupt(k: Kernel)
    ensures Run(k, INTERRUPT) == RunOneTask(RunOneTask(Apply(k, TimerTick)))
  {
    hide RunOneTask, Run;
    assert INTERRUPT == [TimerTick] + ([RunTask, RunTask] + []);
    RunCons(k, TimerTick, [RunTask, RunTask] + []);
    RunTwo(Apply(k, TimerTick), RunTask, RunTask, []);
    RunNothing(RunOneTask(RunOneTask(Apply(k, TimerTick))));
  }

  lemma IdleTurn(k: Kernel)
    ensures Pick(k.sched).None? ==> RunOneTask(k) == k
  {
  }

  /** A timer interrupt is one of the runs. */
  lemma InterruptIsRun(k: Kernel)
    ensures Run(k, INTERRUPT) == Interrupt(k)
  {
    var t := Apply(k, TimerTick);
    RunInterrupt(k);
    IdleTurn(t);
    IdleTurn(RunOneTask(t));
    hide RunOneTask, Run;
    assert RunTasks(t, RUN_BUDGET) == RunOneTask(RunOneTask(t));
  }
}
