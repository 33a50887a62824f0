/**
 The message broker in its own form: ring endpoints, window and edge tables scanned in place,
 message-context variables, and service callbacks with drain loops, all driven by the
 scheduler object. Every method is proved against `KernelSpec`; the two logs are ghost.
 */
module Machine {
  import opened Prelude
  import opened SchedulerSpec
  import opened Scheduler
  import opened IpcSpec
  import opened IpcRing
  import opened KernelSpec
  import opened KernelRuns

  /** Registers the four service tasks. */
  method BootedScheduler() returns (s: Scheduler)
    ensures s.Valid() && fresh(s) && fresh(s.tasks) && s.taskCount == 4
    ensures s.View() == BootSched()
  {
    s := new Scheduler();
    var _ := s.RegisterCommon(3, 0, 0, true);
    var _ := s.RegisterCommon(2, 0, 0, true);
    var _ := s.RegisterCommon(4, 0, 0, true);
    var _ := s.RegisterCommon(0, 100, 100, true);
    assert |s.View().tasks| == 4;
  }

  class Machine {
    const sched: Scheduler
    const initBox: Endpoint
    const driverBox: Endpoint
    const policyBox: Endpoint
    const windows: array<Window>
    const edges: array<Edge>
    var contextFlags: Flags
    var contextDepth: nat
    var initBeats: nat
    var probeSent: bool
    var spawned: bool
    ghost var spawns: nat
    var driverBeats: nat
    var chainDenials: nat
    var users: set<nat>
    var waiters: nat
    ghost var accepted: PerEndpoint<seq<Stamped>>
    ghost var received: PerEndpoint<seq<Message>>

    /** Everything a run may change. */
    ghost function Footprint(): set<object> {
      {this, sched, sched.tasks, initBox, initBox.queue, driverBox, driverBox.queue,
       policyBox, policyBox.queue, windows, edges}
    }

    ghost predicate Valid()
      reads Footprint()
    {
      && sched.Valid() && sched.taskCount == 4
      && initBox.Valid() && driverBox.Valid() && policyBox.Valid()
      && initBox != driverBox && initBox != policyBox && driverBox != policyBox
      && initBox.queue != driverBox.queue && initBox.queue != policyBox.queue && driverBox.queue != policyBox.queue
      && windows.Length == WINDOW_LIMIT && edges.Length == EDGE_LIMIT
    }

    ghost function IpcView(): Ipc
      reads Footprint()
      requires Valid()
    {
      Ipc(PerEndpoint(initBox.Contents(), driverBox.Contents(), policyBox.Contents()),
          accepted, received, windows[..], edges[..])
    }

    ghost function View(): Kernel
      reads Footprint()
      requires Valid()
    {
      Kernel(sched.View(), IpcView(), contextFlags, contextDepth,
             InitState(initBeats, probeSent, spawned, spawns), driverBeats, chainDenials, users, waiters)
    }

    constructor ()
      ensures Valid() && fresh(Footprint())
      ensures View() == BootKernel()
    {
      hide Endpoint.Contents;
      hide Slot;
      hide BootSched;
      var booted := BootedScheduler();
      sched := booted;
      initBox := new Endpoint();
      driverBox := new Endpoint();
      policyBox := new Endpoint();
      windows := new Window[WINDOW_LIMIT](_ => NO_WINDOW);
      edges := new Edge[EDGE_LIMIT](_ => NO_EDGE);
      contextFlags, contextDepth := 0, 0;
      initBeats, probeSent, spawned, spawns, driverBeats, chainDenials := 0, false, false, 0, 0, 0;
      users, waiters := {}, 0;
      accepted, received := PerEndpoint([], [], []), PerEndpoint([], [], []);
      new;
      assert windows[..] == BootIpc().windows;
      assert edges[..] == BootIpc().edges;
    }

    function Box(e: nat): Endpoint
      requires 1 <= e <= 3
    {
      if e == INIT then initBox else if e == DRIVER_HOST then driverBox else policyBox
    }

    // ---- broker tables ----

    method FindPolicySourceWindow(source: nat) returns (r: Option<nat>)
      ensures r == FindWindow(windows[..], source)
    {
      var available: Option<nat> := None;
      ghost var ws := windows[..];
      for index := 0 to windows.Length
        invariant FindWindowFor(ws, source, 0) == FindWindowFor(ws, source, index)
        invariant FindWindowFor(ws, 0, 0) == if available.Some? then available else FindWindowFor(ws, 0, index)
      {
        if windows[index].source == source {
          return Some(index);
        }
        if available.None? && windows[index].source == 0 {
          available := Some(index);
        }
      }
      r := available;
    }

    method FindGraphEdge(source: nat, destination: nat) returns (r: Option<nat>)
      ensures r == FindEdge(edges[..], source, destination)
    {
      var available: Option<nat> := None;
      ghost var es := edges[..];
      for index := 0 to edges.Length
        invariant FindEdgeFor(es, source, destination, 0) == FindEdgeFor(es, source, destination, index)
        invariant FindFreeEdge(es, 0) == if available.Some? then available else FindFreeEdge(es, index)
      {
        if edges[index].source == source && edges[index].destination == destination {
          return Some(index);
        }
        if available.None? && edges[index].source == 0 && edges[index].destination == 0 && edges[index].count == 0 {
          available := Some(index);
        }
      }
      r := available;
    }

    /** The rate check: a source that holds a window must let three ticks pass. */
    method IsBurst(destination: nat, m: Message) returns (burst: bool)
      ensures burst <==> destination == AI_POLICY && m.source in users && Ordinary(m)
                         && TooSoon(windows[..], m.source, sched.ticks % U32_MODULUS)
    {
      if destination != AI_POLICY || m.source !in users
         || m.flags & INTERACTIVE_WAIT != 0 || m.flags & DEPENDENCY_PROBE != 0
      {
        return false;
      }
      var window := FindPolicySourceWindow(m.source);
      if window.None? || windows[window.value].source == 0 {
        return false;
      }
      var now := sched.ticks % U32_MODULUS;
      burst := (now - windows[window.value].lastTick) % U32_MODULUS < BURST_TICKS;
    }

    method NoteWindow(destination: nat, m: Message)
      modifies windows
      ensures windows[..] == NotedWindows(old(windows[..]), users, sched.ticks, destination, m)
    {
      if destination == AI_POLICY && m.source in users
         && m.flags & INTERACTIVE_WAIT == 0 && m.flags & DEPENDENCY_PROBE == 0
      {
        var window := FindPolicySourceWindow(m.source);
        if window.Some? {
          windows[window.value] := Window(m.source, sched.ticks % U32_MODULUS);
        }
      }
    }

    method NoteEdge(destination: nat, m: Message)
      modifies edges
      ensures edges[..] == NotedEdges(old(edges[..]), destination, m)
    {
      var slot := FindGraphEdge(m.source, destination);
      if slot.None? {
        return;
      }
      var edge := Bump(edges[slot.value], destination, m);
      edges[slot.value] := edge;
    }

    /** Counts a message on an edge, naming the edge when it is new. */
    static method Bump(before: Edge, destination: nat, m: Message) returns (edge: Edge)
      ensures edge == BumpedEdge(before, destination, m)
    {
      var seen := Union(before.flags, m.flags);
      var depth := before.maxDepth;
      if m.depth > depth {
        depth := m.depth;
      }
      if before.count == 0 {
        edge := Edge(m.source, destination, 1, depth, seen);
      } else {
        edge := Edge(before.source, before.destination, before.count + 1, depth, seen);
      }
    }

    method WakeEndpointOwner(endpoint: nat)
      requires Valid() && 1 <= endpoint <= 3
      modifies sched`urgentWakes, sched.tasks
      ensures Valid() && View() == WakeOwner(old(View()), endpoint)
    {
      if endpoint == AI_POLICY && waiters != 0 {
        sched.WakeTaskUrgent(endpoint - 1);
        return;
      }
      sched.WakeTask(endpoint - 1);
    }

    // ---- sending and receiving ----

    /** The checks of a send. */
    method Check(destination: nat, m: Message) returns (v: Verdict)
      requires Valid()
      ensures v == Judge(View(), destination, m)
    {
      hide Endpoint.Contents;
      hide Slot;
      hide RoomVerdict, EffectiveCaps, Queued, CurrentSender;
      if !(1 <= destination <= 3) {
        return Refused(UnknownEndpoint);
      }
      var endpoint, recordCaps := CurrentRecord();
      var caps := SendCaps(endpoint, recordCaps, destination, m);
      if caps.None? || !Grants(caps.value, RequiredCaps(destination)) {
        return Refused(AccessDenied);
      }
      var queued := QueuedForm(endpoint, m);
      if queued.depth > DEPTH_LIMIT {
        return TooDeep;
      }
      v := CheckRoom(destination, queued);
    }

    /** The capabilities a send is checked with. */
    method SendCaps(endpoint: nat, recordCaps: Caps, destination: nat, m: Message) returns (r: Option<Caps>)
      ensures r == EffectiveCaps(Sender(endpoint, recordCaps, contextFlags, contextDepth), users, destination, m)
    {
      var source := if endpoint == 0 then m.source else endpoint;
      var caps := recordCaps;
      if caps == 0 {
        caps := CapsFor(source);
      }
      if caps == 0 && source in users {
        if destination != AI_POLICY || m.kind != HANDSHAKE {
          return None;
        }
        caps := CAP_ROUTE_POLICY;
      }
      r := Some(caps);
    }

    /** The message as it will be queued. */
    method QueuedForm(endpoint: nat, m: Message) returns (queued: Message)
      ensures forall caps: Caps :: queued == Queued(Sender(endpoint, caps, contextFlags, contextDepth), m)
    {
      queued := m.(source := if endpoint == 0 then m.source else endpoint);
      if queued.flags == 0 && contextFlags != 0 {
        queued := queued.(flags := contextFlags);
      }
      if queued.depth == 0 && contextDepth != 0 {
        queued := queued.(depth := contextDepth + 1);
      }
    }

    /** The endpoint and capability mask of the running task's record. */
    method CurrentRecord() returns (endpoint: nat, caps: Caps)
      requires Valid()
      ensures Sender(endpoint, caps, contextFlags, contextDepth) == CurrentSender(View())
    {
      if sched.current.None? {
        return 0, 0;
      }
      endpoint := if sched.current.value < 3 then sched.current.value + 1 else 0;
      caps := CapsFor(endpoint);
    }

    /** Queue space, pending sources, the reserved slot and the rate limit. */
    method CheckRoom(destination: nat, queued: Message) returns (v: Verdict)
      requires Valid() && 1 <= destination <= 3
      ensures v == RoomVerdict(IpcView(), users, sched.ticks, destination, queued)
    {
      var box := Box(destination);
      if box.count == QUEUE_CAPACITY {
        return Refused(QueueFull);
      }
      if destination == AI_POLICY {
        var pending := box.HasPendingSource(queued.source);
        if pending {
          return Refused(QueueFull);
        }
        if box.count + 1 >= QUEUE_CAPACITY && queued.flags & INTERACTIVE_WAIT == 0 {
          return Refused(QueueFull);
        }
      }
      var burst := IsBurst(destination, queued);
      if burst {
        return Refused(QueueFull);
      }
      v := Admitted(queued);
    }

    method IpcSend(destination: nat, m: Message) returns (status: Status)
      requires Valid()
      modifies Footprint()
      ensures Valid() && (View(), status) == Send(old(View()), destination, m)
      ensures sched.current == old(sched.current)
    {
      hide Endpoint.Contents;
      hide Slot;
      hide Enqueue;
      var v := Check(destination, m);
      match v
      case Refused(s) => status := s;
      case TooDeep =>
        chainDenials := chainDenials + 1;
        status := AccessDenied;
      case Admitted(queued) =>
        Route(destination, queued);
        WakeEndpointOwner(destination);
        status := Ok;
    }

    /** Puts a message on its queue. */
    method Deposit(destination: nat, queued: Message)
      requires Valid() && 1 <= destination <= 3 && Box(destination).count < QUEUE_CAPACITY
      modifies Footprint() - {this, sched, sched.tasks, windows, edges}
      ensures Valid()
      ensures View() == old(View()).(ipc := old(IpcView()).(
                queues := old(IpcView()).queues.With(destination, old(IpcView()).queues.At(destination) + [queued])))
    {
      hide Endpoint.Contents;
      hide Slot;
      ghost var k := View();
      Box(destination).Push(queued);
      assert sched.View() == k.sched;
    }

    /** Puts an admitted message on its queue and tells the broker. */
    method Route(destination: nat, queued: Message)
      requires Valid() && 1 <= destination <= 3 && Box(destination).count < QUEUE_CAPACITY
      modifies Footprint() - {sched, sched.tasks}
      ensures Valid()
      ensures View() == old(View()).(ipc := Enqueue(old(IpcView()), users, sched.ticks, destination, queued))
    {
      hide Endpoint.Contents;
      hide Slot;
      hide NotedWindows;
      hide NotedEdges;
      ghost var k := View();
      Deposit(destination, queued);
      NoteWindow(destination, queued);
      NoteEdge(destination, queued);
      accepted := accepted.With(destination, accepted.At(destination) + [Stamped(queued, sched.ticks)]);
      assert sched.View() == k.sched;
    }

    /** Takes the oldest message of a queue. */
    method TakeMessage(endpoint: nat) returns (m: Message)
      requires Valid() && 1 <= endpoint <= 3 && Box(endpoint).count != 0
      modifies Footprint() - {sched, sched.tasks, windows, edges}
      ensures Valid()
      ensures m == old(View()).ipc.queues.At(endpoint)[0]
      ensures View() == old(View()).(ipc := Dequeue(old(IpcView()), endpoint))
    {
      hide Endpoint.Contents;
      hide Slot;
      ghost var k := View();
      m := Box(endpoint).Pop();
      received := received.With(endpoint, received.At(endpoint) + [m]);
      assert k.ipc.queues.At(endpoint)[1..] == Box(endpoint).Contents();
      assert sched.View() == k.sched;
    }

    method IpcReceive(endpoint: nat) returns (r: Receipt)
      requires Valid()
      modifies Footprint() - {sched, sched.tasks, windows, edges}
      ensures Valid() && (View(), r) == Receive(old(View()), endpoint)
    {
      hide Endpoint.Contents;
      hide Slot;
      hide Dequeue;
      if !(1 <= endpoint <= 3) {
        return NoEndpoint;
      }
      var own, caps := CurrentRecord();
      if sched.current.Some? && own != endpoint && !Grants(caps, CAP_SUPERVISE) {
        return NotOwner;
      }
      if Box(endpoint).count == 0 {
        return Nothing;
      }
      var m := TakeMessage(endpoint);
      r := Received(m);
    }

    // ---- the services ----

    method BeginMessageContext(m: Message)
      modifies this`contextFlags, this`contextDepth
      ensures contextFlags == m.flags && contextDepth == m.depth
    {
      contextFlags := m.flags;
      contextDepth := m.depth;
    }

    method ClearMessageContext()
      modifies this`contextFlags, this`contextDepth
      ensures contextFlags == 0 && contextDepth == 0
    {
      contextFlags := 0;
      contextDepth := 0;
    }

    /** Receives the service's next message, if any, and makes it the message context. */
    method TakeNext(endpoint: nat) returns (m: Option<Message>)
      requires Valid() && 1 <= endpoint <= 3 && sched.current == Some(endpoint - 1)
      modifies Footprint() - {sched, sched.tasks, windows, edges}
      ensures Valid()
      ensures var k := old(View());
              if k.ipc.queues.At(endpoint) == [] then m == None && View() == k
              else m == Some(k.ipc.queues.At(endpoint)[0]) && View() == Take(k, endpoint)
    {
      hide Endpoint.Contents;
      hide Slot;
      hide Dequeue;
      var r := IpcReceive(endpoint);
      if !r.Received? {
        return None;
      }
      BeginMessageContext(r.message);
      m := Some(r.message);
    }

    /** An approval spawns the user services once and sends the dependency probe once. */
    method Approved()
      requires Valid()
      modifies Footprint()
      ensures Valid() && View() == ProbeOnce(SpawnOnce(old(View())))
      ensures sched.current == old(sched.current)
    {
      hide Endpoint.Contents;
      hide Slot;
      hide Send;
      if !spawned {
        spawned := true;
        spawns := spawns + 1;
      }
      if !probeSent {
        var status := IpcSend(AI_POLICY, PROBE);
        if status == Ok {
          probeSent := true;
        }
      }
    }

    method InitSupervisor()
      requires Valid() && sched.current == Some(INIT_TASK)
      modifies Footprint()
      ensures Valid() && View() == InitService(old(View()))
    {
      hide InitGreets, InitDrains;
      Greet();
      DrainInit();
      sched.WaitTask();
    }

    /** Counts the run and, on the first, sends the handshake. */
    method Greet()
      requires Valid()
      modifies Footprint()
      ensures Valid() && View() == InitGreets(old(View())) && sched.current == old(sched.current)
    {
      hide Send;
      initBeats := initBeats + 1;
      if initBeats == 1 {
        var _ := IpcSend(AI_POLICY, HELLO);
      }
    }

    method DrainInit()
      requires Valid() && sched.current == Some(INIT_TASK)
      modifies Footprint()
      ensures Valid() && View() == InitDrains(old(View()))
    {
      hide InitHandles;
      ghost var goal := InitDrains(View());
      var more := true;
      while more
        invariant Valid() && sched.current == Some(INIT_TASK) && InitDrains(View()) == goal
        invariant !more ==> View() == goal
        decreases more, initBox.count
      {
        more := HandleInitMessage();
      }
    }

    /** One turn of the supervisor's receive loop; false when its queue was empty. */
    method HandleInitMessage() returns (more: bool)
      requires Valid() && sched.current == Some(INIT_TASK)
      modifies Footprint()
      ensures Valid() && sched.current == old(sched.current)
      ensures more == (old(View()).ipc.queues.init != [])
      ensures View() == if more then InitHandles(old(View())) else old(View())
    {
      hide Endpoint.Contents;
      hide Slot;
      hide Take;
      hide Send;
      var r := TakeNext(INIT);
      if r.None? {
        return false;
      }
      if r.value.kind == APPROVED {
        Approved();
      }
      ClearMessageContext();
      more := true;
    }

    method DriverHost()
      requires Valid()
      modifies Footprint()
      ensures Valid() && View() == DriverService(old(View()))
    {
      hide Send;
      driverBeats := driverBeats + 1;
      if driverBeats == 1 {
        var _ := IpcSend(AI_POLICY, ESCALATION);
      }
      sched.WaitTask();
    }

    method AiPolicy()
      requires Valid() && sched.current == Some(POLICY_TASK)
      modifies Footprint()
      ensures Valid() && View() == PolicyService(old(View()))
    {
      DrainPolicy();
      sched.WaitTask();
    }

    method DrainPolicy()
      requires Valid() && sched.current == Some(POLICY_TASK)
      modifies Footprint()
      ensures Valid() && View() == PolicyDrains(old(View()))
    {
      hide PolicyHandles;
      ghost var goal := PolicyDrains(View());
      var more := true;
      while more
        invariant Valid() && sched.current == Some(POLICY_TASK) && PolicyDrains(View()) == goal
        invariant !more ==> View() == goal
        decreases more, policyBox.count
      {
        more := HandlePolicyMessage();
      }
    }

    /** One turn of the broker's receive loop; false when its queue was empty. */
    method HandlePolicyMessage() returns (more: bool)
      requires Valid() && sched.current == Some(POLICY_TASK)
      modifies Footprint()
      ensures Valid() && sched.current == old(sched.current)
      ensures more == (old(View()).ipc.queues.policy != [])
      ensures View() == if more then PolicyHandles(old(View())) else old(View())
    {
      hide Endpoint.Contents;
      hide Slot;
      hide Dequeue;
      hide Send;
      var r := TakeNext(AI_POLICY);
      if r.None? {
        return false;
      }
      if r.value.kind == HANDSHAKE && r.value.source !in users {
        var _ := IpcSend(INIT, Reply(r.value));
      }
      ClearMessageContext();
      more := true;
    }

    // ---- steps ----

    /** Calls the callback of the running task. */
    method Dispatch(i: nat)
      requires Valid() && sched.current == Some(i)
      modifies Footprint()
      ensures Valid() && View() == Callback(old(View()), i)
    {
      hide InitService, DriverService, PolicyService;
      if i == INIT_TASK {
        InitSupervisor();
      } else if i == DRIVER_TASK {
        DriverHost();
      } else if i == POLICY_TASK {
        AiPolicy();
      }
    }

    /** One iteration of the run loop; false when nothing was due. */
    method RunDueTask() returns (ran: bool)
      requires Valid()
      modifies Footprint()
      ensures Valid() && View() == RunOneTask(old(View()))
      ensures ran <==> Pick(old(View()).sched).Some?
      ensures !ran ==> View() == old(View())
    {
      hide Endpoint.Contents;
      hide Slot;
      hide Callback, Pick, Finish;
      ghost var k := View();
      var pick := sched.Select();
      if pick.None? {
        return false;
      }
      sched.BeginRun(pick.value);
      assert View() == k.(sched := Begin(k.sched, pick.value));
      Dispatch(pick.value);
      hide Begin;
      sched.FinishRun(pick.value);
      ran := true;
    }

    method RunReady(budget: nat)
      requires Valid()
      modifies Footprint()
      ensures Valid() && View() == RunTasks(old(View()), budget)
    {
      hide RunOneTask, Pick;
      ghost var goal := RunTasks(View(), budget);
      var runs := 0;
      while runs < budget
        invariant Valid() && 0 <= runs <= budget && RunTasks(View(), budget - runs) == goal
      {
        var ran := RunDueTask();
        if !ran {
          break;
        }
        runs := runs + 1;
      }
    }

    /** The timer interrupt handler. */
    method TimerInterrupt()
      requires Valid()
      modifies Footprint()
      ensures Valid() && View() == Interrupt(old(View()))
    {
      hide RunTasks;
      sched.Tick();
      RunReady(RUN_BUDGET);
    }

    /** A process asks the broker; nothing is sent for an endpoint that is not live. */
    method RequestPolicy(source: nat, arg0: nat, arg1: nat, interactive: bool) returns (status: Option<Status>)
      requires Valid()
      modifies Footprint()
      ensures Valid() && View() == Apply(old(View()), UserRequest(source, arg0, arg1, interactive))
      ensures status == if source in users
                        then Some(Send(old(View()), AI_POLICY, RequestMessage(source, arg0, arg1, interactive)).1)
                        else None
      ensures users == old(users)
    {
      hide Send;
      if source !in users {
        return None;
      }
      var sent := IpcSend(AI_POLICY, RequestMessage(source, arg0, arg1, interactive));
      SendFrame(old(View()), AI_POLICY, RequestMessage(source, arg0, arg1, interactive));
      status := Some(sent);
    }
  }
}
