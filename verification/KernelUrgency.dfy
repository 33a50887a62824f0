/**
 The boost against priority inversion: a request that is accepted while a user waits for the
 broker makes the broker urgent, and the broker alone; so it has the very next turn.
 */
module KernelUrgency {
  import opened Prelude
  import opened SchedulerSpec
  import opened SchedulerRuns
  import opened IpcSpec
  import opened KernelSpec
  import opened KernelRuns
  import opened KernelAdmission
  import opened KernelDelivery

  /** An accepted request leaves the broker due, and urgent exactly when someone waits. */
  lemma RequestWakes(k: Kernel, source: nat, arg0: nat, arg1: nat, interactive: bool)
    requires KernelOk(k) && AtRest(k) && Steady(k.sched) && Acceptable(k, source, interactive)
    ensures var u := Apply(k, UserRequest(source, arg0, arg1, interactive));
            && Steady(u.sched) && Due(u.sched, 2) && u.sched.tasks[2].readySince == u.sched.ticks == k.sched.ticks
            && (u.sched.tasks[2].urgent <==> k.waiters != 0)
  {
    var m := RequestMessage(source, arg0, arg1, interactive);
    RequestJudged(k, source, arg0, arg1, interactive);
    assert k.sched.tasks[POLICY_TASK].state != Running && k.sched.tasks[POLICY_TASK].hasCallback;
    SendStaysSteady(k, m);
    DeliverWakesOwner(k, AI_POLICY, m);
    hide Judge, Acceptable, KernelOk, AtRest, Deliver;
  }

  /** With the broker the only urgent task, it is picked. */
  lemma UrgentBrokerNext(s: Sched)
    requires SchedOk(s) && Steady(s) && s.tasks[2].urgent
    ensures Pick(s) == Some(2)
  {
    assert 2 in UrgentSet(s);
    UrgentPickIsTop(s);
  }

  /** From every reachable state in which a user waits, an accepted request gives the broker the next turn. */
  lemma WaitersGetBroker(steps: seq<Step>, source: nat, arg0: nat, arg1: nat, interactive: bool)
    requires Acceptable(Run(BootKernel(), steps), source, interactive)
    ensures var k := Run(BootKernel(), steps);
            var u := Apply(k, UserRequest(source, arg0, arg1, interactive));
            && |u.sched.tasks| == 4 && Due(u.sched, 2) && (u.sched.tasks[2].urgent <==> k.waiters != 0)
            && (k.waiters != 0 ==> Pick(u.sched) == Some(2))
  {
    var k := Run(BootKernel(), steps);
    var step := UserRequest(source, arg0, arg1, interactive);
    ReachableIsSteady(steps);
    ApplyKeepsOk(k, step);
    RequestWakes(k, source, arg0, arg1, interactive);
    assert SchedOk(Apply(k, step).sched);
    hide KernelOk, AtRest, Acceptable, Run, Apply, Pick;
    if k.waiters != 0 {
      UrgentBrokerNext(Apply(k, step).sched);
    }
  }
}
