/**
 How many approvals reach the supervisor. Its own handshake is approved at most once; every
 further approval answers an orphan: a request whose user endpoint was gone when the broker
 ran. So at most one approval arrives exactly in the runs in which the broker never runs with
 an orphan in its queue.
 */
module KernelApprovals {
  import opened Prelude
  import opened SchedulerSpec
  import opened IpcSpec
  import opened IpcRuns
  import opened KernelSpec
  import opened KernelRuns
  import opened KernelTalk
  import opened KernelHistory

  // ---- orphans ----

  /** A queued shallow handshake whose source is neither the supervisor nor a live user endpoint. */
  predicate Orphan(users: set<nat>, m: Message) {
    AnsweredToInit(users, m) && m.source != INIT
  }

  predicate OrphanQueued(k: Kernel) {
    exists i :: 0 <= i < |k.ipc.queues.policy| && Orphan(k.users, k.ipc.queues.policy[i])
  }

  /** The step gives the broker its turn while an orphan is queued. */
  predicate AnswersOrphan(k: Kernel, step: Step) {
    step.RunTask? && Pick(k.sched) == Some(POLICY_TASK) && OrphanQueued(k)
  }

  predicate NeverAnswersOrphan(k: Kernel, steps: seq<Step>)
    decreases steps
  {
    steps == [] || (!AnswersOrphan(k, steps[0]) && NeverAnswersOrphan(Apply(k, steps[0]), steps[1..]))
  }

  // ---- only the supervisor's own approvals ----

  predicate OnlyOwn(k: Kernel) {
    forall i :: 0 <= i < |k.ipc.accepted.init| ==> k.ipc.accepted.init[i].message.arg0 == INIT
  }

  /** A foreign approval stays on record. */
  lemma ForeignStays(k: Kernel, u: Kernel)
    requires Grows(k, u) && OnlyOwn(u)
    ensures OnlyOwn(k)
  {
  }

  /** The supervisor's own approvals number at most one, so its queue has room. */
  lemma OwnAtMostOne(k: Kernel)
    requires KernelOk(k) && TalkOk(k) && OnlyOwn(k)
    ensures |k.ipc.queues.init| <= |k.ipc.accepted.init| <= 1
  {
    CountAll(Messages(k.ipc.accepted.init), OWN);
    CountConcat(k.ipc.received.policy, k.ipc.queues.policy, SHALLOW);
  }

  lemma ReplyLog(k: Kernel)
    requires k.ipc.queues.policy != []
    ensures var m, log, u := k.ipc.queues.policy[0], k.ipc.accepted.init, PolicyHandles(k).ipc.accepted.init;
            u == log || (|u| == |log| + 1 && u[..|log|] == log && u[|log|].message.arg0 == m.source)
  {
    var m, u := k.ipc.queues.policy[0], Take(k, AI_POLICY);
    SendOutcome(u, INIT, Reply(m));
    ReplyDepth(u, m);
  }

  /** One message at the broker brings a foreign approval exactly when it is an orphan. */
  lemma HandlesOwnIff(k: Kernel)
    requires KernelOk(k) && TalkOk(k) && OnlyOwn(k)
    requires k.sched.current == Some(POLICY_TASK) && k.ipc.queues.policy != []
    ensures OnlyOwn(PolicyHandles(k)) <==> !Orphan(k.users, k.ipc.queues.policy[0])
  {
    OwnAtMostOne(k);
    ReplyReachesInitIff(k);
    ReplyLog(k);
    var log, u := k.ipc.accepted.init, PolicyHandles(k).ipc.accepted.init;
    if u != log {
      assert forall i :: 0 <= i < |log| ==> u[i] == u[..|log|][i];
    }
  }

  lemma {:induction false} DrainsOwnIff(k: Kernel)
    requires KernelOk(k) && TalkOk(k) && OnlyOwn(k) && k.sched.current == Some(POLICY_TASK)
    ensures OnlyOwn(PolicyDrains(k)) <==> !OrphanQueued(k)
    decreases |k.ipc.queues.policy|
  {
    var q := k.ipc.queues.policy;
    if q != [] {
      var u := PolicyHandles(k);
      HandlesOwnIff(k);
      if Orphan(k.users, q[0]) {
        PolicyDrainsGrows(u);
        if OnlyOwn(PolicyDrains(u)) {
          ForeignStays(u, PolicyDrains(u));
        }
      } else {
        PolicyHandlesKeepsOk(k);
        PolicyHandlesKeepsTalk(k);
        PolicyHandlesFrame(k);
        DrainsOwnIff(u);
        OrphanBehind(k, u);
      }
    }
  }

  lemma OrphanBehind(k: Kernel, u: Kernel)
    requires k.ipc.queues.policy != [] && !Orphan(k.users, k.ipc.queues.policy[0])
    requires u.users == k.users && u.ipc.queues.policy == k.ipc.queues.policy[1..]
    ensures OrphanQueued(u) <==> OrphanQueued(k)
  {
    var q := k.ipc.queues.policy;
    if OrphanQueued(k) {
      var i :| 0 <= i < |q| && Orphan(k.users, q[i]);
      assert q[1..][i - 1] == q[i];
    }
    if OrphanQueued(u) {
      var i :| 0 <= i < |q[1..]| && Orphan(k.users, q[1..][i]);
      assert q[i + 1] == q[1..][i];
    }
  }

  // ---- the other steps leave the supervisor's log alone ----

  lemma PolicySendKeepsInitLog(k: Kernel, m: Message)
    ensures Send(k, AI_POLICY, m).0.ipc.accepted.init == k.ipc.accepted.init
  {
    SendOutcome(k, AI_POLICY, m);
  }

  lemma {:induction false} InitDrainsKeepsInitLog(k: Kernel)
    ensures InitDrains(k).ipc.accepted.init == k.ipc.accepted.init
    decreases |k.ipc.queues.init|
  {
    if k.ipc.queues.init != [] {
      PolicySendKeepsInitLog(SpawnOnce(Take(k, INIT)), PROBE);
      InitDrainsKeepsInitLog(InitHandles(k));
    }
  }

  lemma OtherCallbacksKeepInitLog(k: Kernel, i: nat)
    requires i != POLICY_TASK
    ensures Callback(k, i).ipc.accepted.init == k.ipc.accepted.init
  {
    if i == INIT_TASK {
      PolicySendKeepsInitLog(k.(init := k.init.(beats := k.init.beats + 1)), HELLO);
      InitDrainsKeepsInitLog(InitGreets(k));
    } else if i == DRIVER_TASK {
      PolicySendKeepsInitLog(k.(driverBeats := k.driverBeats + 1), ESCALATION);
    }
  }

  lemma TurnOwnIff(k: Kernel)
    requires KernelOk(k) && AtRest(k) && TalkOk(k) && OnlyOwn(k)
    ensures OnlyOwn(RunOneTask(k)) <==> !AnswersOrphan(k, RunTask)
  {
    if Pick(k.sched).Some? {
      var i := Pick(k.sched).value;
      var b := k.(sched := Begin(k.sched, i));
      BeginKeepsOk(k, i);
      if i == POLICY_TASK {
        DrainsOwnIff(b);
      } else {
        OtherCallbacksKeepInitLog(b, i);
      }
    }
  }

  lemma StepOwnIff(k: Kernel, step: Step)
    requires KernelOk(k) && AtRest(k) && TalkOk(k) && OnlyOwn(k)
    ensures OnlyOwn(Apply(k, step)) <==> !AnswersOrphan(k, step)
  {
    match step
    case TimerTick =>
    case RunTask => TurnOwnIff(k);
    case UserRequest(source, arg0, arg1, interactive) =>
      PolicySendKeepsInitLog(k, RequestMessage(source, arg0, arg1, interactive));
    case World(_, _) =>
  }

  lemma {:induction false} RunOwnIff(k: Kernel, steps: seq<Step>)
    requires KernelOk(k) && AtRest(k) && TalkOk(k) && OnlyOwn(k)
    ensures OnlyOwn(Run(k, steps)) <==> NeverAnswersOrphan(k, steps)
    decreases steps
  {
    if steps != [] {
      var u := Apply(k, steps[0]);
      StepOwnIff(k, steps[0]);
      if AnswersOrphan(k, steps[0]) {
        RunGrows(u, steps[1..]);
        if OnlyOwn(Run(u, steps[1..])) {
          ForeignStays(u, Run(u, steps[1..]));
        }
      } else {
        ApplyKeepsOk(k, steps[0]);
        ApplyKeepsTalk(k, steps[0]);
        RunOwnIff(u, steps[1..]);
      }
    }
  }

  // ---- the first approval is the supervisor's own ----

  predicate FromInitOnly(log: seq<Stamped>) {
    forall i :: 0 <= i < |log| ==> log[i].message.source == INIT
  }

  /**
   Until the supervisor has spawned the user processes nobody but it has asked the broker, and
   it spawns them only on an approval; so the first approval is its own.
   */
  ghost predicate BirthOk(k: Kernel) {
    && (k.init.spawned ==> k.ipc.accepted.init != [])
    && (!k.init.spawned ==> k.users == {} && FromInitOnly(k.ipc.accepted.policy))
    && (k.ipc.accepted.init != [] ==> k.ipc.accepted.init[0].message.arg0 == INIT)
  }

  lemma PolicySendKeepsBirth(k: Kernel, m: Message)
    requires BirthOk(k) && (k.init.spawned || EffectiveSource(CurrentSender(k), m) == INIT)
    ensures BirthOk(Send(k, AI_POLICY, m).0)
  {
    SendOutcome(k, AI_POLICY, m);
    SendFrame(k, AI_POLICY, m);
  }

  lemma InitHandlesKeepsBirth(k: Kernel)
    requires BirthOk(k) && Conserved(k.ipc) && k.sched.current == Some(INIT_TASK) && k.ipc.queues.init != []
    ensures BirthOk(InitHandles(k))
  {
    assert k.ipc.accepted.init != [] by {
      assert |Messages(k.ipc.accepted.init)| == |k.ipc.received.init| + |k.ipc.queues.init|;
    }
    var u := SpawnOnce(Take(k, INIT));
    PolicySendKeepsBirth(u, PROBE);
    SendFrame(u, AI_POLICY, PROBE);
  }

  lemma {:induction false} InitDrainsKeepsBirth(k: Kernel)
    requires BirthOk(k) && KernelOk(k) && k.sched.current == Some(INIT_TASK)
    ensures BirthOk(InitDrains(k))
    decreases |k.ipc.queues.init|
  {
    if k.ipc.queues.init != [] {
      InitHandlesKeepsBirth(k);
      InitHandlesKeepsOk(k);
      InitDrainsKeepsBirth(InitHandles(k));
    }
  }

  lemma QueuedWasAccepted(k: Kernel)
    requires Conserved(k.ipc) && k.ipc.queues.policy != [] && FromInitOnly(k.ipc.accepted.policy)
    ensures k.ipc.queues.policy[0].source == INIT
  {
    var log, at := k.ipc.accepted.policy, |k.ipc.received.policy|;
    assert Messages(log)[at] == log[at].message;
    assert (k.ipc.received.policy + k.ipc.queues.policy)[at] == k.ipc.queues.policy[0];
  }

  lemma PolicyHandlesKeepsBirth(k: Kernel)
    requires BirthOk(k) && Conserved(k.ipc) && k.ipc.queues.policy != []
    ensures BirthOk(PolicyHandles(k))
  {
    var m, u := k.ipc.queues.policy[0], Take(k, AI_POLICY);
    if !k.init.spawned {
      QueuedWasAccepted(k);
    }
    ReplyLog(k);
    SendOutcome(u, INIT, Reply(m));
    SendFrame(u, INIT, Reply(m));
  }

  lemma {:induction false} PolicyDrainsKeepsBirth(k: Kernel)
    requires BirthOk(k) && KernelOk(k) && k.sched.current == Some(POLICY_TASK)
    ensures BirthOk(PolicyDrains(k))
    decreases |k.ipc.queues.policy|
  {
    if k.ipc.queues.policy != [] {
      PolicyHandlesKeepsBirth(k);
      PolicyHandlesKeepsOk(k);
      PolicyDrainsKeepsBirth(PolicyHandles(k));
    }
  }

  lemma InitGreetsKeepsBirth(k: Kernel)
    requires BirthOk(k) && k.sched.current == Some(INIT_TASK)
    ensures BirthOk(InitGreets(k))
  {
    PolicySendKeepsBirth(k.(init := k.init.(beats := k.init.beats + 1)), HELLO);
  }

  lemma CallbackKeepsBirth(k: Kernel, i: nat)
    requires BirthOk(k) && KernelOk(k) && k.sched.current == Some(i)
    ensures BirthOk(Callback(k, i))
  {
    hide KernelOk;
    if i == INIT_TASK {
      InitGreetsKeepsBirth(k);
      InitGreetsKeepsOk(k);
      InitDrainsKeepsBirth(InitGreets(k));
    } else if i == DRIVER_TASK {
      EscalationDenied(k.(driverBeats := k.driverBeats + 1));
    } else if i == POLICY_TASK {
      PolicyDrainsKeepsBirth(k);
    }
  }

  lemma ApplyKeepsBirth(k: Kernel, step: Step)
    requires BirthOk(k) && KernelOk(k) && AtRest(k)
    ensures BirthOk(Apply(k, step))
  {
    match step
    case TimerTick =>
    case RunTask =>
      if Pick(k.sched).Some? {
        var i := Pick(k.sched).value;
        BeginKeepsOk(k, i);
        CallbackKeepsBirth(k.(sched := Begin(k.sched, i)), i);
      }
    case UserRequest(source, arg0, arg1, interactive) =>
      if source in k.users {
        PolicySendKeepsBirth(k, RequestMessage(source, arg0, arg1, interactive));
      }
    case World(_, _) =>
  }

  lemma {:induction false} RunKeepsBirth(k: Kernel, steps: seq<Step>)
    requires BirthOk(k) && KernelOk(k) && AtRest(k)
    ensures BirthOk(Run(k, steps))
    decreases steps
  {
    if steps != [] {
      ApplyKeepsBirth(k, steps[0]);
      ApplyKeepsOk(k, steps[0]);
      RunKeepsBirth(Apply(k, steps[0]), steps[1..]);
    }
  }

  lemma BootTalks()
    ensures TalkOk(BootKernel()) && BirthOk(BootKernel()) && OnlyOwn(BootKernel())
  {
  }

  /** With the first approval the supervisor's own, a foreign one is a second one. */
  lemma OwnMeansAtMostOne(k: Kernel)
    requires KernelOk(k) && TalkOk(k) && BirthOk(k)
    ensures |k.ipc.accepted.init| <= 1 <==> OnlyOwn(k)
  {
    hide KernelOk;
    hide TalkOk;
    if OnlyOwn(k) {
      OwnAtMostOne(k);
    }
  }

  /**
   At most one approval ever reaches the supervisor exactly when the broker never gets a turn
   with an orphan in its queue; and then that approval is the supervisor's own.
   */
  lemma AtMostOneApprovalIff(steps: seq<Step>)
    ensures |Run(BootKernel(), steps).ipc.accepted.init| <= 1 <==> NeverAnswersOrphan(BootKernel(), steps)
    ensures OnlyOwn(Run(BootKernel(), steps)) <==> NeverAnswersOrphan(BootKernel(), steps)
  {
    hide KernelOk;
    hide AtRest;
    hide TalkOk;
    hide BirthOk;
    hide OnlyOwn;
    BootKernelOk();
    BootTalks();
    RunOwnIff(BootKernel(), steps);
    RunKeepsOk(BootKernel(), steps);
    RunKeepsTalk(BootKernel(), steps);
    RunKeepsBirth(BootKernel(), steps);
    OwnMeansAtMostOne(Run(BootKernel(), steps));
  }
}
