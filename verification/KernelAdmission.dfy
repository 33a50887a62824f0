/**
 When a send is accepted, exactly. Over every run a user's request is accepted or refused by
 what is queued and by when the user last had an ordinary request accepted, told from the log;
 which service may send where, and who may receive, are tables. Numbers are written out here.
 */
module KernelAdmission {
  import opened Prelude
  import opened IpcSpec
  import opened IpcRuns
  import opened KernelSpec
  import opened KernelRuns

  // ---- user requests ----

  predicate NonePending(q: seq<Message>, source: nat) {
    forall i :: 0 <= i < |q| ==> q[i].source != source
  }

  /** The source is among the first eight users, which the broker keeps windows for. */
  predicate Limited(ipc: Ipc, source: nat) {
    var first := FirstUsers(ipc.accepted.policy);
    exists i :: 0 <= i < |first| && i < 8 && first[i] == source
  }

  /** Ticks since the source's last ordinary message was accepted, as a 32-bit counter tells them. */
  function Since(ipc: Ipc, source: nat, now: nat): int
    requires OrdinaryTicks(ipc.accepted.policy, source) != []
  {
    var ticks := OrdinaryTicks(ipc.accepted.policy, source);
    (now - ticks[|ticks| - 1]) % 0x1_0000_0000
  }

  /** Seven places for ordinary requests, eight for interactive ones; one pending per source; three ticks apart. */
  predicate Acceptable(k: Kernel, source: nat, interactive: bool) {
    var q := k.ipc.queues.policy;
    && source in k.users && NonePending(q, source)
    && if interactive then |q| < 8
       else |q| < 7
            && (Limited(k.ipc, source) && OrdinaryTicks(k.ipc.accepted.policy, source) != [] ==>
                  Since(k.ipc, source, k.sched.ticks) >= 3)
  }

  /** A limited source has the window of its place, stamped with its last ordinary tick. */
  lemma LimitedWindow(ipc: Ipc, source: nat, now: nat) returns (i: nat)
    requires RateOk(ipc, now) && IsUserId(source) && Limited(ipc, source)
    ensures i < |ipc.windows| && FindWindow(ipc.windows, source) == Some(i) && ipc.windows[i].source == source
    ensures var ticks := OrdinaryTicks(ipc.accepted.policy, source);
            ticks != [] && ticks[|ticks| - 1] <= now && ipc.windows[i].lastTick == ticks[|ticks| - 1] % U32_MODULUS
  {
    var log, ws := ipc.accepted.policy, ipc.windows;
    var first := FirstUsers(log);
    i :| 0 <= i < |first| && i < 8 && first[i] == source;
    FirstUsersDistinct(log);
    WindowOfUser(ws, first, source);
    assert ws[i].source == source && WindowOk(ws[i], log);
    OrdinaryUpTo(log, source, now);
    hide FirstUsers, OrdinaryTicks;
  }

  lemma UnlimitedWindow(ipc: Ipc, source: nat, now: nat)
    requires RateOk(ipc, now) && IsUserId(source) && !Limited(ipc, source)
    ensures !TooSoon(ipc.windows, source, now % U32_MODULUS)
  {
    var ws, first := ipc.windows, FirstUsers(ipc.accepted.policy);
    FirstUsersDistinct(ipc.accepted.policy);
    WindowOfUser(ws, first, source);
    hide FirstUsers, WindowOk, OrdinaryTicks;
    if FindWindow(ws, source).Some? {
      var w := FindWindow(ws, source).value;
      assert w >= |first|;
      assert ws[w].source == 0;
    }
  }

  lemma StampTells(ws: seq<Window>, i: nat, source: nat, last: nat, now: nat)
    requires i < |ws| && FindWindow(ws, source) == Some(i) && ws[i].source == source != 0
    requires last <= now && ws[i].lastTick == last % U32_MODULUS
    ensures TooSoon(ws, source, now % U32_MODULUS) <==> (now - last) % 0x1_0000_0000 < 3
  {
    hide FindWindow;
    WrappedGap(now, last);
  }

  lemma TooSoonIff(ipc: Ipc, source: nat, now: nat)
    requires RateOk(ipc, now) && IsUserId(source)
    ensures Limited(ipc, source) ==> OrdinaryTicks(ipc.accepted.policy, source) != []
    ensures TooSoon(ipc.windows, source, now % U32_MODULUS) <==> Limited(ipc, source) && Since(ipc, source, now) < 3
  {
    if Limited(ipc, source) {
      var i := LimitedWindow(ipc, source, now);
      hide RateOk, Limited, OrdinaryTicks, FindWindow, TooSoon;
      var ticks := OrdinaryTicks(ipc.accepted.policy, source);
      StampTells(ipc.windows, i, source, ticks[|ticks| - 1], now);
    } else {
      UnlimitedWindow(ipc, source, now);
    }
  }

  /** Room for a user's message; only one without flags 1 and 2 is held to the three ticks. */
  predicate RoomForUser(k: Kernel, m: Message) {
    var q := k.ipc.queues.policy;
    && NonePending(q, m.source) && |q| < (if m.flags & 1 != 0 then 8 else 7)
    && (m.flags & 1 == 0 && m.flags & 2 == 0 && Limited(k.ipc, m.source)
        && OrdinaryTicks(k.ipc.accepted.policy, m.source) != [] ==>
          Since(k.ipc, m.source, k.sched.ticks) >= 3)
  }

  /** What becomes of a handshake in the name of a live user, whatever its flags and depth. */
  lemma UserSendOutcome(k: Kernel, m: Message)
    requires KernelOk(k) && AtRest(k) && m.source in k.users && m.kind == 0x100
    ensures Judge(k, 3, m) == if m.depth > 2 then TooDeep
                              else if RoomForUser(k, m) then Admitted(m) else Refused(QueueFull)
  {
    assert IsUserId(m.source);
    TooSoonIff(k.ipc, m.source, k.sched.ticks);
    assert Queued(CurrentSender(k), m) == m;
    assert Grants(CAP_ROUTE_POLICY, CAP_ROUTE_POLICY);
    hide TooSoon, Limited, Since, OrdinaryTicks, IpcOk, TasksOk, Woken;
  }

  lemma RequestJudged(k: Kernel, source: nat, arg0: nat, arg1: nat, interactive: bool)
    requires KernelOk(k) && AtRest(k) && source in k.users
    ensures var m := Message(source, 0x100, arg0, arg1, if interactive then 1 else 0, 1);
            RequestMessage(source, arg0, arg1, interactive) == m
            && Judge(k, AI_POLICY, m) == if Acceptable(k, source, interactive) then Admitted(m) else Refused(QueueFull)
  {
    var m := RequestMessage(source, arg0, arg1, interactive);
    hide Judge, KernelOk, AtRest, Limited, Since, OrdinaryTicks, NonePending;
    UserSendOutcome(k, m);
    assert m.flags & 1 != 0 <==> interactive;
    assert m.flags & 2 == 0;
  }

  /** A request of a live user is queued and logged if it is acceptable; otherwise nothing changes. */
  lemma RequestOutcome(k: Kernel, source: nat, arg0: nat, arg1: nat, interactive: bool)
    requires KernelOk(k) && AtRest(k)
    ensures var u := Apply(k, UserRequest(source, arg0, arg1, interactive));
            var m := Message(source, 0x100, arg0, arg1, if interactive then 1 else 0, 1);
            if Acceptable(k, source, interactive)
            then u.ipc.queues.policy == k.ipc.queues.policy + [m]
                 && u.ipc.accepted.policy == k.ipc.accepted.policy + [Stamped(m, k.sched.ticks)]
            else u == k
  {
    if source in k.users {
      RequestJudged(k, source, arg0, arg1, interactive);
      hide Judge, Acceptable;
    }
  }

  /** From every reachable state. */
  lemma RequestAcceptedIff(steps: seq<Step>, source: nat, arg0: nat, arg1: nat, interactive: bool)
    ensures var k := Run(BootKernel(), steps);
            var u := Apply(k, UserRequest(source, arg0, arg1, interactive));
            var m := Message(source, 0x100, arg0, arg1, if interactive then 1 else 0, 1);
            if Acceptable(k, source, interactive)
            then u.ipc.queues.policy == k.ipc.queues.policy + [m]
                 && u.ipc.accepted.policy == k.ipc.accepted.policy + [Stamped(m, k.sched.ticks)]
            else u == k
  {
    BootKernelOk();
    RunKeepsOk(BootKernel(), steps);
    hide KernelOk, AtRest, Apply, Acceptable, Run;
    RequestOutcome(Run(BootKernel(), steps), source, arg0, arg1, interactive);
  }

  // ---- services ----

  /** Supervisor to driver host and broker, driver host to itself, broker to supervisor and itself. */
  predicate Routed(source: nat, destination: nat) {
    || (source == 1 && (destination == 2 || destination == 3))
    || (source == 2 && destination == 2)
    || (source == 3 && (destination == 1 || destination == 3))
  }

  /** A service's message as it is queued: context flags and depth where it sets none itself. */
  function Inherited(k: Kernel, task: nat, m: Message): Message {
    Message(task + 1, m.kind, m.arg0, m.arg1,
            if m.flags == 0 then k.contextFlags else m.flags,
            if m.depth == 0 && k.contextDepth != 0 then k.contextDepth + 1 else m.depth)
  }

  /** Room for a service's message: eight places, at the broker seven and one pending per source. */
  predicate RoomThere(k: Kernel, destination: nat, q: Message)
    requires 1 <= destination <= 3
  {
    if destination == 3
    then NonePending(k.ipc.queues.policy, q.source) && |k.ipc.queues.policy| < if q.flags & 1 != 0 then 8 else 7
    else |k.ipc.queues.At(destination)| < 8
  }

  lemma RoutesAre(task: nat, destination: nat)
    requires task < 3 && 1 <= destination <= 3
    ensures Grants(CapsFor(task + 1), RequiredCaps(destination)) <==> Routed(task + 1, destination)
    ensures CapsFor(task + 1) != 0
  {
    assert Grants(0x2E, CAP_ROUTE_DRIVER) && Grants(0x2E, CAP_ROUTE_POLICY) && !Grants(0x2E, CAP_ROUTE_INIT);
    assert Grants(CAP_ROUTE_DRIVER, CAP_ROUTE_DRIVER);
    assert !Grants(CAP_ROUTE_DRIVER, CAP_ROUTE_INIT) && !Grants(CAP_ROUTE_DRIVER, CAP_ROUTE_POLICY);
    assert Grants(0x25, CAP_ROUTE_INIT) && Grants(0x25, CAP_ROUTE_POLICY) && !Grants(0x25, CAP_ROUTE_DRIVER);
  }

  /** What becomes of a service's send, for all messages and destinations. */
  lemma ServiceSendOutcome(k: Kernel, task: nat, destination: nat, m: Message)
    requires task < 3 && k.sched.current == Some(task) && forall u :: u in k.users ==> u > 6
    ensures var q := Inherited(k, task, m);
            Judge(k, destination, m) ==
            if !(1 <= destination <= 3) then Refused(UnknownEndpoint)
            else if !Routed(task + 1, destination) then Refused(AccessDenied)
            else if q.depth > 2 then TooDeep
            else if RoomThere(k, destination, q) then Admitted(q)
            else Refused(QueueFull)
  {
    var q := Inherited(k, task, m);
    assert Queued(CurrentSender(k), m) == q;
    if 1 <= destination <= 3 {
      RoutesAre(task, destination);
    }
    hide Grants, CapsFor, RequiredCaps;
  }

  /**
   What the broker makes of a message: a shallow handshake from no live user is answered to the
   supervisor, with the flags of the question and one level deeper; a deep one is only counted.
   */
  lemma BrokerOutcome(k: Kernel)
    requires k.sched.current == Some(2) && k.ipc.queues.policy != [] && forall u :: u in k.users ==> u > 6
    ensures var m, u := k.ipc.queues.policy[0], PolicyHandles(k);
            var asks := m.kind == 0x100 && m.source !in k.users;
            var answer := Message(3, 0x102, m.source, 0, m.flags, if m.depth == 0 then 0 else m.depth + 1);
            && u.ipc.received.policy == k.ipc.received.policy + [m]
            && u.ipc.accepted.init ==
               (if asks && m.depth <= 1 && |k.ipc.queues.init| < 8
                then k.ipc.accepted.init + [Stamped(answer, k.sched.ticks)] else k.ipc.accepted.init)
            && u.chainDenials == (if asks && m.depth > 1 then k.chainDenials + 1 else k.chainDenials)
            && u.contextFlags == 0 && u.contextDepth == 0
  {
    var m, u := k.ipc.queues.policy[0], Take(k, AI_POLICY);
    ServiceSendOutcome(u, POLICY_TASK, INIT, Reply(m));
    var v := Judge(u, INIT, Reply(m));
    if v.Admitted? {
      DeliverIs(u, INIT, v.message);
    }
    hide Judge, Deliver;
  }

  /** The kernel on behalf of an endpoint that is neither a service nor a live user may send nowhere. */
  lemma OthersAreDenied(k: Kernel, destination: nat, m: Message)
    requires k.sched.current == None && m.source !in k.users && !(1 <= m.source <= 3) && 1 <= destination <= 3
    ensures Judge(k, destination, m) == Refused(AccessDenied)
  {
    assert !Grants(0x30, CAP_ROUTE_INIT) && !Grants(0x30, CAP_ROUTE_DRIVER) && !Grants(0x30, CAP_ROUTE_POLICY);
    assert !Grants(0x60, CAP_ROUTE_INIT) && !Grants(0x60, CAP_ROUTE_DRIVER) && !Grants(0x60, CAP_ROUTE_POLICY);
    assert !Grants(0xA0, CAP_ROUTE_INIT) && !Grants(0xA0, CAP_ROUTE_DRIVER) && !Grants(0xA0, CAP_ROUTE_POLICY);
    assert !Grants(0x120, CAP_ROUTE_INIT) && !Grants(0x120, CAP_ROUTE_DRIVER) && !Grants(0x120, CAP_ROUTE_POLICY);
    assert !Grants(0, CAP_ROUTE_INIT) && !Grants(0, CAP_ROUTE_DRIVER) && !Grants(0, CAP_ROUTE_POLICY);
  }

  /** A live user may send nothing but a handshake to the broker. */
  lemma UsersOnlyAsk(k: Kernel, destination: nat, m: Message)
    requires k.sched.current == None && m.source in k.users && m.source > 6 && 1 <= destination <= 3
    requires destination != 3 || m.kind != 0x100
    ensures Judge(k, destination, m) == Refused(AccessDenied)
  {
  }

  /** The kernel, an endpoint's own service, and the supervisor may receive; nobody else may. */
  lemma ReceiveOutcome(k: Kernel, endpoint: nat)
    ensures var (u, r) := Receive(k, endpoint);
            if !(1 <= endpoint <= 3) then (u, r) == (k, NoEndpoint)
            else if !(k.sched.current == None || k.sched.current == Some(endpoint - 1) || k.sched.current == Some(0))
            then (u, r) == (k, NotOwner)
            else if k.ipc.queues.At(endpoint) == [] then (u, r) == (k, Nothing)
            else r == Received(k.ipc.queues.At(endpoint)[0])
                 && u == k.(ipc := u.ipc) && u.ipc.queues.At(endpoint) == k.ipc.queues.At(endpoint)[1..]
  {
    assert Grants(0x2E, CAP_SUPERVISE) && !Grants(CAP_ROUTE_DRIVER, CAP_SUPERVISE) && !Grants(0x25, CAP_SUPERVISE);
    assert !Grants(0x30, CAP_SUPERVISE);
  }
}
