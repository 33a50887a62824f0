/**
 The conversation between the supervisor and the policy broker is finite in every run:
 the supervisor gets at most two messages into the broker's queue, spawns the user services
 at most once, and the broker's reply to the depth-2 probe is refused. Approvals can exceed
 one only through handshakes whose user endpoint disappeared while they were queued.
 */
module KernelTalk {
  import opened Prelude
  import opened SchedulerSpec
  import opened IpcSpec
  import opened IpcRuns
  import opened KernelSpec
  import opened KernelRuns

  // ---- counting ----

  function Count(ms: seq<Message>, p: Message -> bool): nat {
    if ms == [] then 0 else Count(ms[..|ms| - 1], p) + if p(ms[|ms| - 1]) then 1 else 0
  }

  lemma CountAppend(ms: seq<Message>, m: Message, p: Message -> bool)
    ensures Count(ms + [m], p) == Count(ms, p) + if p(m) then 1 else 0
  {
    assert (ms + [m])[..|ms|] == ms;
  }

  lemma {:induction false} CountConcat(a: seq<Message>, b: seq<Message>, p: Message -> bool)
    ensures Count(a + b, p) == Count(a, p) + Count(b, p)
  {
    if b == [] {
      assert a + b == a;
    } else {
      var c, m := b[..|b| - 1], b[|b| - 1];
      assert b == c + [m];
      assert a + b == (a + c) + [m];
      CountConcat(a, c, p);
      CountAppend(a + c, m, p);
      CountAppend(c, m, p);
    }
  }

  lemma {:induction false} CountAll(ms: seq<Message>, p: Message -> bool)
    requires forall i :: 0 <= i < |ms| ==> p(ms[i])
    ensures Count(ms, p) == |ms|
  {
    if ms != [] {
      CountAll(ms[..|ms| - 1], p);
    }
  }

  const FROM_INIT: Message -> bool := (m: Message) => m.source == INIT
  /** Supervisor messages shallow enough for their reply to be admitted. */
  const SHALLOW: Message -> bool := (m: Message) => m.source == INIT && m.depth <= 1
  /** Approvals of the supervisor's own handshake. */
  const OWN: Message -> bool := (m: Message) => m.arg0 == INIT

  // ---- what the supervisor and the broker have exchanged ----

  function One(b: bool): nat {
    if b then 1 else 0
  }

  ghost predicate SentOk(k: Kernel) {
    var sent := Messages(k.ipc.accepted.policy);
    && Count(sent, FROM_INIT) <= One(k.init.beats >= 1) + One(k.init.probeSent)
    && Count(sent, SHALLOW) <= One(k.init.beats >= 1)
  }

  ghost predicate ApprovalsOk(k: Kernel) {
    var approvals := Messages(k.ipc.accepted.init);
    && Count(approvals, OWN) <= Count(k.ipc.received.policy, SHALLOW)
    && forall i :: 0 <= i < |approvals| ==> approvals[i].kind == APPROVED && approvals[i].source == AI_POLICY
  }

  predicate InitStateOk(i: InitState) {
    i.spawns == One(i.spawned) && (i.beats == 0 ==> !i.probeSent && !i.spawned)
  }

  predicate FromInitOrUser(q: seq<Message>) {
    forall i :: 0 <= i < |q| ==> q[i].source == INIT || IsUserId(q[i].source)
  }

  ghost predicate TalkOk(k: Kernel) {
    SentOk(k) && ApprovalsOk(k) && InitStateOk(k.init) && FromInitOrUser(k.ipc.queues.policy)
  }

  // ---- effect of each send ----

  /** A send either leaves the queues and logs alone or appends its queued form to one of them. */
  lemma SendOutcome(k: Kernel, destination: nat, m: Message)
    ensures var (u, status) := Send(k, destination, m);
            if status == Ok
            then 1 <= destination <= 3
                 && Judge(k, destination, m) == Admitted(Queued(CurrentSender(k), m))
                 && u.ipc == Enqueue(k.ipc, k.users, k.sched.ticks, destination, Queued(CurrentSender(k), m))
            else u.ipc == k.ipc
  {
    var v := Judge(k, destination, m);
    if v.Admitted? {
      DeliverIs(k, destination, v.message);
    }
  }

  lemma EnqueueLogs(ipc: Ipc, users: set<nat>, now: nat, destination: nat, m: Message)
    requires 1 <= destination <= 3
    ensures var u := Enqueue(ipc, users, now, destination, m);
            && Messages(u.accepted.At(destination)) == Messages(ipc.accepted.At(destination)) + [m]
            && u.received == ipc.received
  {
    MessagesAppend(ipc.accepted.At(destination), Stamped(m, now));
  }

  lemma EnqueueKeepsOthers(ipc: Ipc, users: set<nat>, now: nat, m: Message)
    ensures var u := Enqueue(ipc, users, now, AI_POLICY, m);
            u.accepted.init == ipc.accepted.init && u.queues.policy == ipc.queues.policy + [m]
  {
  }

  lemma HelloSentKeepsTalk(k: Kernel)
    requires TalkOk(k) && k.sched.current == Some(INIT_TASK) && k.init.beats == 1 && !k.init.probeSent
    requires Count(Messages(k.ipc.accepted.policy), FROM_INIT) == Count(Messages(k.ipc.accepted.policy), SHALLOW) == 0
    ensures TalkOk(Send(k, AI_POLICY, HELLO).0)
  {
    SendOutcome(k, AI_POLICY, HELLO);
    SendFrame(k, AI_POLICY, HELLO);
    var q := Queued(CurrentSender(k), HELLO);
    EnqueueLogs(k.ipc, k.users, k.sched.ticks, AI_POLICY, q);
    CountAppend(Messages(k.ipc.accepted.policy), q, FROM_INIT);
    CountAppend(Messages(k.ipc.accepted.policy), q, SHALLOW);
    EnqueueKeepsOthers(k.ipc, k.users, k.sched.ticks, q);
    hide Send, Judge, Enqueue, Messages, Count;
  }

  lemma HelloKeepsTalk(k: Kernel)
    requires TalkOk(k) && k.sched.current == Some(INIT_TASK)
    ensures TalkOk(InitGreets(k))
  {
    var u := k.(init := k.init.(beats := k.init.beats + 1));
    assert TalkOk(u);
    if u.init.beats == 1 {
      HelloSentKeepsTalk(u);
    }
  }

  lemma InitGreetsFrame(k: Kernel)
    ensures var u := InitGreets(k);
            u.sched.current == k.sched.current && u.init.beats == k.init.beats + 1
  {
    SendFrame(k.(init := k.init.(beats := k.init.beats + 1)), AI_POLICY, HELLO);
  }

  lemma InitServiceKeepsTalk(k: Kernel)
    requires TalkOk(k) && k.sched.current == Some(INIT_TASK)
    ensures TalkOk(InitService(k))
  {
    var g := InitGreets(k);
    assert TalkOk(g) by { HelloKeepsTalk(k); }
    InitGreetsFrame(k);
    InitDrainsKeepsTalk(g);
  }

  lemma ProbeKeepsTalk(k: Kernel)
    requires TalkOk(k) && k.sched.current == Some(INIT_TASK) && k.init.beats >= 1
    ensures TalkOk(ProbeOnce(k))
  {
    if !k.init.probeSent {
      SendOutcome(k, AI_POLICY, PROBE);
      SendFrame(k, AI_POLICY, PROBE);
      var q := Queued(CurrentSender(k), PROBE);
      assert PROBE.flags != 0 && q.depth == 2;
      EnqueueLogs(k.ipc, k.users, k.sched.ticks, AI_POLICY, q);
      CountAppend(Messages(k.ipc.accepted.policy), q, FROM_INIT);
      CountAppend(Messages(k.ipc.accepted.policy), q, SHALLOW);
    }
  }

  lemma InitHandlesKeepsTalk(k: Kernel)
    requires TalkOk(k) && k.sched.current == Some(INIT_TASK) && k.init.beats >= 1 && k.ipc.queues.init != []
    ensures TalkOk(InitHandles(k)) && InitHandles(k).init.beats == k.init.beats
    ensures InitHandles(k).sched.current == k.sched.current
  {
    var u := Take(k, INIT);
    assert TalkOk(u);
    var v := SpawnOnce(u);
    assert TalkOk(v);
    ProbeKeepsTalk(v);
    SendFrame(v, AI_POLICY, PROBE);
  }

  lemma {:induction false} InitDrainsKeepsTalk(k: Kernel)
    requires TalkOk(k) && k.sched.current == Some(INIT_TASK) && k.init.beats >= 1
    ensures TalkOk(InitDrains(k))
    decreases |k.ipc.queues.init|
  {
    if k.ipc.queues.init != [] {
      InitHandlesKeepsTalk(k);
      InitDrainsKeepsTalk(InitHandles(k));
    }
  }

  /** The broker's reply inherits the request's depth plus one. */
  lemma ReplyDepth(k: Kernel, m: Message)
    requires k.contextDepth == m.depth
    ensures Queued(CurrentSender(k), Reply(m)).depth == if m.depth == 0 then 0 else m.depth + 1
    ensures Queued(CurrentSender(k), Reply(m)).arg0 == m.source
    ensures Queued(CurrentSender(k), Reply(m)).kind == APPROVED
  {
  }

  lemma ReplyKeepsApprovals(k: Kernel, m: Message)
    requires k.sched.current == Some(POLICY_TASK) && k.contextDepth == m.depth
    requires ApprovalsOk(k)
    requires m.source == INIT && m.depth <= 1 ==>
               Count(Messages(k.ipc.accepted.init), OWN) + 1 <= Count(k.ipc.received.policy, SHALLOW)
    ensures ApprovalsOk(Send(k, INIT, Reply(m)).0)
  {
    SendOutcome(k, INIT, Reply(m));
    SendFrame(k, INIT, Reply(m));
    ReplyDepth(k, m);
    var q := Queued(CurrentSender(k), Reply(m));
    EnqueueLogs(k.ipc, k.users, k.sched.ticks, INIT, q);
    CountAppend(Messages(k.ipc.accepted.init), q, OWN);
  }

  lemma PolicyHandlesKeepsTalk(k: Kernel)
    requires TalkOk(k) && k.sched.current == Some(POLICY_TASK) && k.ipc.queues.policy != []
    ensures TalkOk(PolicyHandles(k)) && PolicyHandles(k).sched.current == k.sched.current
  {
    var m, u := k.ipc.queues.policy[0], Take(k, AI_POLICY);
    CountAppend(k.ipc.received.policy, m, SHALLOW);
    assert SentOk(u) && FromInitOrUser(u.ipc.queues.policy);
    assert ApprovalsOk(u);
    if m.kind == HANDSHAKE && m.source !in k.users {
      SendOutcome(u, INIT, Reply(m));
      SendFrame(u, INIT, Reply(m));
      ReplyKeepsApprovals(u, m);
    }
  }

  lemma {:induction false} PolicyDrainsKeepsTalk(k: Kernel)
    requires TalkOk(k) && k.sched.current == Some(POLICY_TASK)
    ensures TalkOk(PolicyDrains(k))
    decreases |k.ipc.queues.policy|
  {
    if k.ipc.queues.policy != [] {
      PolicyHandlesKeepsTalk(k);
      PolicyDrainsKeepsTalk(PolicyHandles(k));
    }
  }

  /** The driver host lacks the capability to address the broker: its escalation is refused. */
  lemma EscalationDenied(k: Kernel)
    requires k.sched.current == Some(DRIVER_TASK)
    ensures Send(k, AI_POLICY, ESCALATION) == (k, AccessDenied)
  {
    assert !Grants(CapsFor(DRIVER_HOST), CAP_ROUTE_POLICY);
  }

  lemma DriverServiceKeepsTalk(k: Kernel)
    requires TalkOk(k) && k.sched.current == Some(DRIVER_TASK)
    ensures TalkOk(DriverService(k))
  {
    var u := k.(driverBeats := k.driverBeats + 1);
    EscalationDenied(u);
    assert DriverService(k) == Wait(u);
  }

  lemma PolicyServiceKeepsTalk(k: Kernel)
    requires TalkOk(k) && k.sched.current == Some(POLICY_TASK)
    ensures TalkOk(PolicyService(k))
  {
    PolicyDrainsKeepsTalk(k);
  }

  lemma CallbackKeepsTalk(k: Kernel, i: nat)
    requires TalkOk(k) && k.sched.current == Some(i)
    ensures TalkOk(Callback(k, i))
  {
    if i == INIT_TASK {
      InitServiceKeepsTalk(k);
    } else if i == DRIVER_TASK {
      DriverServiceKeepsTalk(k);
    } else if i == POLICY_TASK {
      PolicyServiceKeepsTalk(k);
    }
  }

  lemma RequestKeepsTalk(k: Kernel, m: Message)
    requires TalkOk(k) && k.sched.current == None && IsUserId(m.source)
    ensures TalkOk(Send(k, AI_POLICY, m).0)
  {
    SendOutcome(k, AI_POLICY, m);
    SendFrame(k, AI_POLICY, m);
    var q := Queued(CurrentSender(k), m);
    EnqueueLogs(k.ipc, k.users, k.sched.ticks, AI_POLICY, q);
    CountAppend(Messages(k.ipc.accepted.policy), q, FROM_INIT);
    CountAppend(Messages(k.ipc.accepted.policy), q, SHALLOW);
  }

  lemma ApplyKeepsTalk(k: Kernel, step: Step)
    requires TalkOk(k) && KernelOk(k) && AtRest(k)
    ensures TalkOk(Apply(k, step))
  {
    match step
    case TimerTick =>
    case RunTask =>
      if Pick(k.sched).Some? {
        CallbackKeepsTalk(k.(sched := Begin(k.sched, Pick(k.sched).value)), Pick(k.sched).value);
      }
    case UserRequest(source, arg0, arg1, interactive) =>
      if source in k.users {
        RequestKeepsTalk(k, RequestMessage(source, arg0, arg1, interactive));
      }
    case World(_, _) =>
  }

  lemma {:induction false} RunKeepsTalk(k: Kernel, steps: seq<Step>)
    requires TalkOk(k) && KernelOk(k) && AtRest(k)
    ensures TalkOk(Run(k, steps))
    decreases steps
  {
    if steps != [] {
      ApplyKeepsTalk(k, steps[0]);
      ApplyKeepsOk(k, steps[0]);
      RunKeepsTalk(Apply(k, steps[0]), steps[1..]);
    }
  }

  /**
   The conversation is finite in every run: at most two supervisor messages ever enter the
   broker's queue, at most one approval of the supervisor's own handshake reaches it, and
   the user services are spawned at most once.
   */
  lemma ConversationIsFinite(steps: seq<Step>)
    ensures var k := Run(BootKernel(), steps);
            && Count(Messages(k.ipc.accepted.policy), FROM_INIT) <= 2
            && Count(Messages(k.ipc.accepted.init), OWN) <= 1
            && k.init.spawns <= 1
  {
    var k := Run(BootKernel(), steps);
    BootKernelOk();
    RunKeepsOk(BootKernel(), steps);
    RunKeepsTalk(BootKernel(), steps);
    CountConcat(k.ipc.received.policy, k.ipc.queues.policy, SHALLOW);
  }

  /** The reply to a depth-2 request, such as the probe, is refused at depth 3. */
  lemma ProbeReplyRefused(k: Kernel)
    requires k.sched.current == Some(POLICY_TASK) && k.ipc.queues.policy != []
    requires var m := k.ipc.queues.policy[0]; m.kind == HANDSHAKE && m.source !in k.users && m.depth == DEPTH_LIMIT
    ensures var u := PolicyHandles(k);
            && u.ipc == Dequeue(k.ipc, AI_POLICY)
            && u.chainDenials == k.chainDenials + 1
  {
    var m, u := k.ipc.queues.policy[0], Take(k, AI_POLICY);
    ReplyDepth(u, m);
    assert Grants(CapsFor(AI_POLICY), CAP_ROUTE_INIT);
    assert Judge(u, INIT, Reply(m)) == TooDeep;
  }

  /**
   Exactly when the broker's handling of a request reaches the supervisor: the request is a
   handshake, its source is not a live user endpoint, it is shallow, and there is room.
   */
  lemma ReplyReachesInitIff(k: Kernel)
    requires k.sched.current == Some(POLICY_TASK) && k.ipc.queues.policy != []
    ensures var m := k.ipc.queues.policy[0];
            PolicyHandles(k).ipc.accepted.init != k.ipc.accepted.init <==>
              m.kind == HANDSHAKE && m.source !in k.users && m.depth <= 1
              && |k.ipc.queues.init| < QUEUE_CAPACITY
  {
    var m, u := k.ipc.queues.policy[0], Take(k, AI_POLICY);
    ReplyDepth(u, m);
    SendOutcome(u, INIT, Reply(m));
    assert Grants(CapsFor(AI_POLICY), CAP_ROUTE_INIT);
    var log := k.ipc.accepted.init;
    assert |log + [Stamped(Queued(CurrentSender(u), Reply(m)), u.sched.ticks)]| == |log| + 1;
  }
}
