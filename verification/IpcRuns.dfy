/**
 What every send and receive keeps: queue contents, conservation of messages, the route
 graph as a fold over the accepted messages, and the spacing that the rate windows enforce.
 */
module IpcRuns {
  import opened Prelude
  import opened IpcSpec

  // ---- queue contents ----

  predicate PolicyMessageOk(m: Message) {
    && m.source != 0 && m.depth <= DEPTH_LIMIT
    && (m.source == INIT || m.source == AI_POLICY || (IsUserId(m.source) && m.kind == HANDSHAKE))
  }

  predicate PolicyQueueOk(q: seq<Message>) {
    && |q| <= QUEUE_CAPACITY
    && (forall i :: 0 <= i < |q| ==> PolicyMessageOk(q[i]))
    && (forall i, j :: 0 <= i < j < |q| ==> q[i].source != q[j].source)
    && (|q| == QUEUE_CAPACITY ==> Interactive(q[QUEUE_CAPACITY - 1]))
  }

  predicate InitQueueOk(q: seq<Message>) {
    |q| <= QUEUE_CAPACITY && forall i :: 0 <= i < |q| ==> q[i].source == AI_POLICY && q[i].depth <= DEPTH_LIMIT
  }

  predicate DriverQueueOk(q: seq<Message>) {
    && |q| <= QUEUE_CAPACITY
    && forall i :: 0 <= i < |q| ==> (q[i].source == INIT || q[i].source == DRIVER_HOST) && q[i].depth <= DEPTH_LIMIT
  }

  predicate QueuesOk(ipc: Ipc) {
    PolicyQueueOk(ipc.queues.policy) && InitQueueOk(ipc.queues.init) && DriverQueueOk(ipc.queues.driver)
  }

  /** Senders are services with their own record, or the kernel on behalf of a live user endpoint. */
  predicate SenderOk(sender: Sender, users: set<nat>, m: Message) {
    && (forall u :: u in users ==> IsUserId(u))
    && (|| (1 <= sender.endpoint <= 3 && sender.caps == CapsFor(sender.endpoint))
        || (sender.endpoint == 0 && sender.caps == 0 && m.source in users))
  }

  /** Which endpoint may be sent to from where: the capability masks admit exactly these routes. */
  lemma RoutesAllowed(ipc: Ipc, sender: Sender, users: set<nat>, now: nat, destination: nat, m: Message)
    requires SenderOk(sender, users, m) && Admit(ipc, sender, users, now, destination, m).Admitted?
    ensures var q := Admit(ipc, sender, users, now, destination, m).message;
            && q.depth <= DEPTH_LIMIT && q.kind == m.kind
            && (destination == INIT ==> q.source == AI_POLICY)
            && (destination == DRIVER_HOST ==> q.source == INIT || q.source == DRIVER_HOST)
            && (destination == AI_POLICY ==> PolicyMessageOk(q))
            && (IsUserId(q.source) ==> q.source in users)
  {
    assert !Grants(CapsFor(INIT), CAP_ROUTE_INIT);
    assert !Grants(CapsFor(DRIVER_HOST), CAP_ROUTE_INIT) && !Grants(CapsFor(DRIVER_HOST), CAP_ROUTE_POLICY);
    assert !Grants(CapsFor(AI_POLICY), CAP_ROUTE_DRIVER);
    assert !Grants(CAP_ROUTE_POLICY, CAP_ROUTE_INIT) && !Grants(CAP_ROUTE_POLICY, CAP_ROUTE_DRIVER);
  }

  /** What the remaining checks leave of the destination queue. */
  predicate RoomFor(ipc: Ipc, users: set<nat>, now: nat, destination: nat, m: Message) {
    && 1 <= destination <= 3
    && |ipc.queues.At(destination)| < QUEUE_CAPACITY
    && (destination == AI_POLICY ==>
          && !HasPending(ipc.queues.policy, m.source)
          && (|ipc.queues.policy| + 1 < QUEUE_CAPACITY || Interactive(m))
          && (m.source in users && Ordinary(m) ==> !TooSoon(ipc.windows, m.source, now % U32_MODULUS)))
  }

  lemma AdmittedHasRoom(ipc: Ipc, sender: Sender, users: set<nat>, now: nat, destination: nat, m: Message)
    requires Admit(ipc, sender, users, now, destination, m).Admitted?
    ensures RoomFor(ipc, users, now, destination, Admit(ipc, sender, users, now, destination, m).message)
  {
  }

  /** A message that fits its destination. */
  predicate RouteOk(destination: nat, m: Message) {
    && 1 <= destination <= 3 && m.depth <= DEPTH_LIMIT && m.source != 0
    && (destination == INIT ==> m.source == AI_POLICY)
    && (destination == DRIVER_HOST ==> m.source == INIT || m.source == DRIVER_HOST)
    && (destination == AI_POLICY ==> PolicyMessageOk(m))
  }

  lemma EnqueueKeepsQueues(ipc: Ipc, users: set<nat>, now: nat, destination: nat, m: Message)
    requires QueuesOk(ipc) && RouteOk(destination, m) && RoomFor(ipc, users, now, destination, m)
    ensures QueuesOk(Enqueue(ipc, users, now, destination, m))
  {
    var q := ipc.queues.policy;
    if destination == AI_POLICY {
      assert forall i :: 0 <= i < |q| ==> q[i].source != m.source;
    }
  }

  lemma DequeueKeepsQueues(ipc: Ipc, endpoint: nat)
    requires QueuesOk(ipc) && 1 <= endpoint <= 3 && ipc.queues.At(endpoint) != []
    ensures QueuesOk(Dequeue(ipc, endpoint))
  {
  }

  // ---- conservation ----

  function Messages(log: seq<Stamped>): seq<Message> {
    seq(|log|, i requires 0 <= i < |log| => log[i].message)
  }

  /** Nothing is lost, duplicated or reordered: received, then queued, is what was accepted. */
  predicate Conserved(ipc: Ipc) {
    && Messages(ipc.accepted.init) == ipc.received.init + ipc.queues.init
    && Messages(ipc.accepted.driver) == ipc.received.driver + ipc.queues.driver
    && Messages(ipc.accepted.policy) == ipc.received.policy + ipc.queues.policy
  }

  lemma MessagesAppend(log: seq<Stamped>, x: Stamped)
    ensures Messages(log + [x]) == Messages(log) + [x.message]
  {
  }

  lemma EnqueueConserves(ipc: Ipc, users: set<nat>, now: nat, destination: nat, m: Message)
    requires Conserved(ipc) && 1 <= destination <= 3
    ensures Conserved(Enqueue(ipc, users, now, destination, m))
  {
    var x := Stamped(m, now);
    MessagesAppend(ipc.accepted.At(destination), x);
    var r, q := ipc.received.At(destination), ipc.queues.At(destination);
    assert (r + q) + [m] == r + (q + [m]);
  }

  lemma DequeueConserves(ipc: Ipc, endpoint: nat)
    requires Conserved(ipc) && 1 <= endpoint <= 3 && ipc.queues.At(endpoint) != []
    ensures Conserved(Dequeue(ipc, endpoint))
  {
    var r, q := ipc.received.At(endpoint), ipc.queues.At(endpoint);
    assert r + q == (r + [q[0]]) + q[1..];
  }

  // ---- the route graph ----

  function CountFrom(log: seq<Stamped>, source: nat): nat {
    if log == [] then 0
    else
      CountFrom(log[..|log| - 1], source) + if log[|log| - 1].message.source == source then 1 else 0
  }

  function DepthFrom(log: seq<Stamped>, source: nat): nat {
    if log == [] then 0
    else
      var before, m := DepthFrom(log[..|log| - 1], source), log[|log| - 1].message;
      if m.source == source then Max(before, m.depth) else before
  }

  function FlagsFrom(log: seq<Stamped>, source: nat): Flags {
    if log == [] then 0
    else
      var before, m := FlagsFrom(log[..|log| - 1], source), log[|log| - 1].message;
      if m.source == source then Union(before, m.flags) else before
  }

  lemma FoldsAppend(log: seq<Stamped>, x: Stamped, source: nat)
    ensures CountFrom(log + [x], source) == CountFrom(log, source) + (if x.message.source == source then 1 else 0)
    ensures DepthFrom(log + [x], source)
         == if x.message.source == source then Max(DepthFrom(log, source), x.message.depth) else DepthFrom(log, source)
    ensures FlagsFrom(log + [x], source)
         == if x.message.source == source then Union(FlagsFrom(log, source), x.message.flags)
            else FlagsFrom(log, source)
  {
    assert (log + [x])[..|log|] == log;
  }

  /** With no message from a source, the folds are neutral. */
  lemma {:induction false} FoldsOfNone(log: seq<Stamped>, source: nat)
    requires CountFrom(log, source) == 0
    ensures DepthFrom(log, source) == 0 && FlagsFrom(log, source) == 0
  {
    if log != [] {
      FoldsOfNone(log[..|log| - 1], source);
    }
  }

  /** A used edge is the fold of the messages accepted for its pair; an unused one is blank. */
  predicate EdgeOk(e: Edge, accepted: PerEndpoint<seq<Stamped>>) {
    if e.count == 0 then e == NO_EDGE
    else 1 <= e.destination <= 3 && e.source != 0 && IsFold(e, accepted.At(e.destination))
  }

  predicate IsFold(e: Edge, log: seq<Stamped>) {
    && e.count == CountFrom(log, e.source)
    && e.maxDepth == DepthFrom(log, e.source)
    && e.flags == FlagsFrom(log, e.source)
  }

  lemma BumpedIsFold(e: Edge, log: seq<Stamped>, m: Message, now: nat, destination: nat)
    requires if e.count == 0 then e == NO_EDGE && CountFrom(log, m.source) == 0
             else e.source == m.source && IsFold(e, log)
    ensures IsFold(BumpedEdge(e, destination, m), log + [Stamped(m, now)])
  {
    var bumped, longer := BumpedEdge(e, destination, m), log + [Stamped(m, now)];
    FoldsAppend(log, Stamped(m, now), m.source);
    if e.count == 0 {
      FoldsOfNone(log, m.source);
    }
    assert bumped.source == m.source;
    assert bumped.count == CountFrom(longer, m.source);
    assert bumped.maxDepth == DepthFrom(longer, m.source);
    assert bumped.flags == FlagsFrom(longer, m.source);
  }

  predicate Tracked(es: seq<Edge>, source: nat, destination: nat) {
    exists i :: 0 <= i < |es| && es[i].source == source && es[i].destination == destination && es[i].count > 0
  }

  predicate AllUsed(es: seq<Edge>) {
    forall i :: 0 <= i < |es| ==> es[i].count > 0
  }

  predicate EdgesDiffer(es: seq<Edge>) {
    forall i, j :: 0 <= i < j < |es| && es[i].count > 0 && es[j].count > 0 ==>
      es[i].source != es[j].source || es[i].destination != es[j].destination
  }

  /** A pair with traffic goes untracked only when sixteen other pairs are tracked. */
  ghost predicate GraphComplete(es: seq<Edge>, accepted: PerEndpoint<seq<Stamped>>) {
    forall source: nat, destination: nat ::
      1 <= destination <= 3 && CountFrom(accepted.At(destination), source) > 0 ==>
        Tracked(es, source, destination) || AllUsed(es)
  }

  ghost predicate GraphOk(ipc: Ipc) {
    && |ipc.edges| == EDGE_LIMIT
    && (forall i :: 0 <= i < |ipc.edges| ==> EdgeOk(ipc.edges[i], ipc.accepted))
    && EdgesDiffer(ipc.edges)
    && GraphComplete(ipc.edges, ipc.accepted)
  }

  lemma EdgeSlot(ipc: Ipc, source: nat, destination: nat)
    requires GraphOk(ipc) && source != 0 && 1 <= destination <= 3
    ensures var slot := FindEdge(ipc.edges, source, destination);
            match slot
            case None => AllUsed(ipc.edges) && !Tracked(ipc.edges, source, destination)
            case Some(i) =>
              && i < |ipc.edges|
              && (ipc.edges[i].count == 0 <==> !Tracked(ipc.edges, source, destination))
              && (ipc.edges[i].count == 0 ==> ipc.edges[i] == NO_EDGE)
              && (ipc.edges[i].count > 0 ==> ipc.edges[i].source == source && ipc.edges[i].destination == destination)
  {
    var es := ipc.edges;
    assert forall i :: 0 <= i < |es| ==> EdgeOk(es[i], ipc.accepted);
    if FindEdge(es, source, destination).None? {
      forall i | 0 <= i < |es|
        ensures es[i].count > 0
      {
        assert EdgeOk(es[i], ipc.accepted) && !IsFreeEdge(es[i]);
      }
    }
  }

  lemma BumpedEdgeOk(ipc: Ipc, users: set<nat>, now: nat, destination: nat, m: Message, i: nat)
    requires GraphOk(ipc) && m.source != 0 && 1 <= destination <= 3
    requires FindEdge(ipc.edges, m.source, destination) == Some(i)
    ensures i < |ipc.edges|
    ensures EdgeOk(BumpedEdge(ipc.edges[i], destination, m), Enqueue(ipc, users, now, destination, m).accepted)
  {
    EdgeSlot(ipc, m.source, destination);
    var log := ipc.accepted.At(destination);
    assert EdgeOk(ipc.edges[i], ipc.accepted);
    assert CountFrom(log, m.source) > 0 ==> Tracked(ipc.edges, m.source, destination) || AllUsed(ipc.edges);
    BumpedIsFold(ipc.edges[i], log, m, now, destination);
  }

  lemma OtherEdgeOk(ipc: Ipc, users: set<nat>, now: nat, destination: nat, m: Message, e: Edge)
    requires 1 <= destination <= 3 && EdgeOk(e, ipc.accepted)
    requires e.count == 0 || e.source != m.source || e.destination != destination
    ensures EdgeOk(e, Enqueue(ipc, users, now, destination, m).accepted)
  {
    hide CountFrom, DepthFrom, FlagsFrom, NotedEdges, NotedWindows, Union;
    if e.count > 0 {
      FoldsAppend(ipc.accepted.At(destination), Stamped(m, now), e.source);
    }
  }

  lemma EnqueueKeepsEdges(ipc: Ipc, users: set<nat>, now: nat, destination: nat, m: Message)
    requires GraphOk(ipc) && m.source != 0 && 1 <= destination <= 3
    ensures var u := Enqueue(ipc, users, now, destination, m);
            && |u.edges| == EDGE_LIMIT
            && (forall i :: 0 <= i < |u.edges| ==> EdgeOk(u.edges[i], u.accepted))
            && EdgesDiffer(u.edges)
  {
    var u, es := Enqueue(ipc, users, now, destination, m), ipc.edges;
    var slot := FindEdge(es, m.source, destination);
    EdgeSlot(ipc, m.source, destination);
    if slot.Some? {
      BumpedEdgeOk(ipc, users, now, destination, m, slot.value);
    }
    forall i | 0 <= i < |u.edges|
      ensures EdgeOk(u.edges[i], u.accepted)
    {
      assert EdgeOk(es[i], ipc.accepted);
      if slot != Some(i) {
        OtherEdgeOk(ipc, users, now, destination, m, es[i]);
      }
    }
  }

  lemma StaysTracked(es: seq<Edge>, i: nat, e: Edge, source: nat, destination: nat)
    requires i < |es| && e.count > 0
    requires es[i].count > 0 ==> e.source == es[i].source && e.destination == es[i].destination
    requires Tracked(es, source, destination)
    ensures Tracked(es[i := e], source, destination)
  {
    var j :| 0 <= j < |es| && es[j].source == source && es[j].destination == destination && es[j].count > 0;
    assert es[i := e][j].source == source;
  }

  lemma EnqueueKeepsComplete(ipc: Ipc, users: set<nat>, now: nat, destination: nat, m: Message)
    requires GraphOk(ipc) && m.source != 0 && 1 <= destination <= 3
    ensures var u := Enqueue(ipc, users, now, destination, m); GraphComplete(u.edges, u.accepted)
  {
    var u, es := Enqueue(ipc, users, now, destination, m), ipc.edges;
    var slot := FindEdge(es, m.source, destination);
    EdgeSlot(ipc, m.source, destination);
    forall s: nat, d: nat | 1 <= d <= 3 && CountFrom(u.accepted.At(d), s) > 0
      ensures Tracked(u.edges, s, d) || AllUsed(u.edges)
    {
      if slot.Some? {
        var e := BumpedEdge(es[slot.value], destination, m);
        assert u.edges == es[slot.value := e];
        if s == m.source && d == destination {
          assert u.edges[slot.value].source == s;
        } else {
          FoldsAppend(ipc.accepted.At(destination), Stamped(m, now), s);
          if Tracked(es, s, d) {
            StaysTracked(es, slot.value, e, s, d);
          }
        }
      }
    }
  }

  // ---- rate windows ----

  /** The ticks at which ordinary messages of a source were accepted. */
  function OrdinaryTicks(log: seq<Stamped>, source: nat): seq<nat> {
    if log == [] then []
    else
      var before, x := OrdinaryTicks(log[..|log| - 1], source), log[|log| - 1];
      if x.message.source == source && Ordinary(x.message) then before + [x.tick] else before
  }

  lemma OrdinaryAppend(log: seq<Stamped>, x: Stamped, source: nat)
    ensures OrdinaryTicks(log + [x], source)
         == if x.message.source == source && Ordinary(x.message)
            then OrdinaryTicks(log, source) + [x.tick] else OrdinaryTicks(log, source)
  {
    assert (log + [x])[..|log|] == log;
  }

  predicate Spaced(ticks: seq<nat>) {
    forall i, j :: 0 <= i < j < |ticks| ==> ticks[i] + BURST_TICKS <= ticks[j]
  }

  predicate TicksUpTo(log: seq<Stamped>, now: nat) {
    forall i :: 0 <= i < |log| ==> log[i].tick <= now
  }

  lemma {:induction false} OrdinaryUpTo(log: seq<Stamped>, source: nat, now: nat)
    requires TicksUpTo(log, now)
    ensures forall i :: 0 <= i < |OrdinaryTicks(log, source)| ==> OrdinaryTicks(log, source)[i] <= now
  {
    if log != [] {
      OrdinaryUpTo(log[..|log| - 1], source, now);
    }
  }

  /** A held window remembers the last ordinary acceptance, and all of them are spaced. */
  predicate WindowOk(w: Window, log: seq<Stamped>) {
    w.source != 0 ==>
      && IsUserId(w.source)
      && var ticks := OrdinaryTicks(log, w.source);
         ticks != [] && w.lastTick == ticks[|ticks| - 1] % U32_MODULUS && Spaced(ticks)
  }

  predicate Holds(ws: seq<Window>, source: nat) {
    exists i :: 0 <= i < |ws| && ws[i].source == source
  }

  ghost predicate WindowsComplete(ws: seq<Window>, log: seq<Stamped>) {
    forall u: nat :: IsUserId(u) && OrdinaryTicks(log, u) != [] ==> Holds(ws, u) || !Holds(ws, 0)
  }

  /** The users that ever had an ordinary message accepted, in the order of the first one. */
  function FirstUsers(log: seq<Stamped>): seq<nat> {
    if log == [] then []
    else
      var before, m := FirstUsers(log[..|log| - 1]), log[|log| - 1].message;
      if IsUserId(m.source) && Ordinary(m) && m.source !in before then before + [m.source] else before
  }

  /** Windows are given out in that order, until there are none left. */
  predicate InWindowOrder(ws: seq<Window>, users: seq<nat>) {
    forall i :: 0 <= i < |ws| ==> ws[i].source == if i < |users| then users[i] else 0
  }

  predicate DistinctUsers(users: seq<nat>) {
    && (forall i :: 0 <= i < |users| ==> IsUserId(users[i]))
    && (forall i, j :: 0 <= i < j < |users| ==> users[i] != users[j])
  }

  lemma {:induction false} FirstUsersDistinct(log: seq<Stamped>)
    ensures DistinctUsers(FirstUsers(log))
  {
    if log != [] {
      FirstUsersDistinct(log[..|log| - 1]);
    }
  }

  lemma FirstUsersAppend(log: seq<Stamped>, x: Stamped)
    ensures FirstUsers(log + [x])
         == if IsUserId(x.message.source) && Ordinary(x.message) && x.message.source !in FirstUsers(log)
            then FirstUsers(log) + [x.message.source] else FirstUsers(log)
  {
    assert (log + [x])[..|log|] == log;
  }

  /** The window of a user: its place among the first users, the next free one, or none. */
  lemma WindowOfUser(ws: seq<Window>, users: seq<nat>, source: nat)
    requires InWindowOrder(ws, users) && DistinctUsers(users) && IsUserId(source)
    ensures match FindWindow(ws, source)
            case Some(w) => w < |ws| && if w < |users| then users[w] == source else w == |users| && source !in users
            case None => |users| >= |ws| && source !in users[..|ws|]
  {
    if FindWindowFor(ws, source, 0).None? {
      forall i | 0 <= i < |users| && i < |ws|
        ensures users[i] != source && ws[i].source != 0
      {
        assert ws[i].source == users[i] != source;
      }
      if |users| < |ws| {
        assert ws[|users|].source == 0;
      }
    }
  }

  /** The list of first users after one more message. */
  function MoreUsers(users: seq<nat>, m: Message): seq<nat> {
    if IsUserId(m.source) && Ordinary(m) && m.source !in users then users + [m.source] else users
  }

  lemma NotedOrder(ws: seq<Window>, first: seq<nat>, users: set<nat>, now: nat, m: Message)
    requires InWindowOrder(ws, first) && DistinctUsers(first)
    requires (forall u :: u in users ==> IsUserId(u)) && (IsUserId(m.source) ==> m.source in users)
    ensures InWindowOrder(NotedWindows(ws, users, now, AI_POLICY, m), MoreUsers(first, m))
  {
    hide Ordinary, FindWindow;
    if IsUserId(m.source) {
      WindowOfUser(ws, first, m.source);
    }
  }

  lemma EnqueueKeepsOrder(ipc: Ipc, users: set<nat>, now: nat, m: Message)
    requires InWindowOrder(ipc.windows, FirstUsers(ipc.accepted.policy))
    requires (forall u :: u in users ==> IsUserId(u)) && (IsUserId(m.source) ==> m.source in users)
    ensures var v := Enqueue(ipc, users, now, AI_POLICY, m); InWindowOrder(v.windows, FirstUsers(v.accepted.policy))
  {
    var log := ipc.accepted.policy;
    FirstUsersDistinct(log);
    FirstUsersAppend(log, Stamped(m, now));
    hide FirstUsers, NotedEdges, NotedWindows, InWindowOrder, Ordinary, DistinctUsers;
    NotedOrder(ipc.windows, FirstUsers(log), users, now, m);
  }

  ghost predicate RateOk(ipc: Ipc, now: nat) {
    && |ipc.windows| == WINDOW_LIMIT
    && TicksUpTo(ipc.accepted.policy, now)
    && (forall i :: 0 <= i < |ipc.windows| ==> WindowOk(ipc.windows[i], ipc.accepted.policy))
    && (forall i, j :: 0 <= i < j < |ipc.windows| && ipc.windows[i].source != 0 ==>
          ipc.windows[i].source != ipc.windows[j].source)
    && WindowsComplete(ipc.windows, ipc.accepted.policy)
    && InWindowOrder(ipc.windows, FirstUsers(ipc.accepted.policy))
  }

  /** The wrapped difference of two wrapped counters is at most the true difference. */
  lemma WrappedGap(now: nat, then_: nat)
    requires then_ <= now
    ensures (now % U32_MODULUS - then_ % U32_MODULUS) % U32_MODULUS == (now - then_) % U32_MODULUS
    ensures (now % U32_MODULUS - then_ % U32_MODULUS) % U32_MODULUS <= now - then_
  {
    var a, b := now / U32_MODULUS, then_ / U32_MODULUS;
    assert now % U32_MODULUS - then_ % U32_MODULUS == (now - then_) + (b - a) * U32_MODULUS;
  }

  lemma SpacedAppend(ipc: Ipc, now: nat, u: nat, i: nat)
    requires RateOk(ipc, now) && i < |ipc.windows| && ipc.windows[i].source == u && IsUserId(u)
    requires !TooSoon(ipc.windows, u, now % U32_MODULUS)
    ensures Spaced(OrdinaryTicks(ipc.accepted.policy, u) + [now])
  {
    var ticks := OrdinaryTicks(ipc.accepted.policy, u);
    assert WindowOk(ipc.windows[i], ipc.accepted.policy);
    assert FindWindow(ipc.windows, u) == Some(i);
    OrdinaryUpTo(ipc.accepted.policy, u, now);
    var last := ticks[|ticks| - 1];
    WrappedGap(now, last);
    assert last + BURST_TICKS <= now;
  }

  /** A user without a window while one is free has had nothing ordinary accepted. */
  lemma FreshUser(ipc: Ipc, now: nat, u: nat, i: nat)
    requires RateOk(ipc, now) && IsUserId(u) && !Holds(ipc.windows, u) && i < |ipc.windows|
    requires ipc.windows[i].source == 0
    ensures OrdinaryTicks(ipc.accepted.policy, u) == [] && Spaced([now])
  {
    hide OrdinaryTicks, FirstUsers;
    assert Holds(ipc.windows, 0);
  }

  lemma EnqueueKeepsWindows(ipc: Ipc, users: set<nat>, now: nat, m: Message)
    requires RateOk(ipc, now) && RoomFor(ipc, users, now, AI_POLICY, m)
    requires (forall u :: u in users ==> IsUserId(u)) && (IsUserId(m.source) ==> m.source in users)
    ensures var v := Enqueue(ipc, users, now, AI_POLICY, m);
            forall i :: 0 <= i < |v.windows| ==> WindowOk(v.windows[i], v.accepted.policy)
  {
    hide InWindowOrder, FirstUsers, WindowsComplete, NotedEdges, OrdinaryTicks, Ordinary, Spaced;
    var v, log, ws := Enqueue(ipc, users, now, AI_POLICY, m), ipc.accepted.policy, ipc.windows;
    var slot := FindWindow(ws, m.source);
    forall i | 0 <= i < |v.windows|
      ensures WindowOk(v.windows[i], v.accepted.policy)
    {
      assert WindowOk(ws[i], log);
      OrdinaryAppend(log, Stamped(m, now), v.windows[i].source);
      if v.windows[i].source == m.source && IsUserId(m.source) && Ordinary(m) {
        assert slot == Some(i);
        if ws[i].source == m.source {
          SpacedAppend(ipc, now, m.source, i);
        } else {
          assert ws[i].source == 0 && !Holds(ws, m.source);
          FreshUser(ipc, now, m.source, i);
          assert [] + [now] == [now];
        }
      }
    }
  }

  lemma EnqueueKeepsRate(ipc: Ipc, users: set<nat>, now: nat, destination: nat, m: Message)
    requires RateOk(ipc, now) && RoomFor(ipc, users, now, destination, m)
    requires (forall u :: u in users ==> IsUserId(u)) && (IsUserId(m.source) ==> m.source in users)
    ensures RateOk(Enqueue(ipc, users, now, destination, m), now)
  {
    hide FirstUsers, InWindowOrder, WindowOk;
    if destination == AI_POLICY {
      EnqueueKeepsOrder(ipc, users, now, m);
      EnqueueKeepsWindows(ipc, users, now, m);
      var v, log, ws := Enqueue(ipc, users, now, AI_POLICY, m), ipc.accepted.policy, ipc.windows;
      forall u: nat | IsUserId(u) && OrdinaryTicks(v.accepted.policy, u) != []
        ensures Holds(v.windows, u) || !Holds(v.windows, 0)
      {
        OrdinaryAppend(log, Stamped(m, now), u);
        if v.windows != ws {
          var k := FindWindow(ws, m.source).value;
          assert v.windows[k].source == m.source;
          if u != m.source && Holds(ws, u) {
            var i :| 0 <= i < |ws| && ws[i].source == u;
            assert v.windows[i].source == u;
          }
        }
      }
    }
  }

  lemma TimePasses(ipc: Ipc, now: nat, later: nat)
    requires RateOk(ipc, now) && now <= later
    ensures RateOk(ipc, later)
  {
  }

  /** A window once held by a source is held by it for good. */
  lemma WindowsStay(ipc: Ipc, users: set<nat>, now: nat, destination: nat, m: Message, i: nat)
    requires 1 <= destination <= 3 && i < |ipc.windows| && ipc.windows[i].source != 0
    ensures |Enqueue(ipc, users, now, destination, m).windows| == |ipc.windows|
    ensures Enqueue(ipc, users, now, destination, m).windows[i].source == ipc.windows[i].source
  {
  }

  // ---- all together ----

  ghost predicate IpcOk(ipc: Ipc, now: nat) {
    QueuesOk(ipc) && Conserved(ipc) && GraphOk(ipc) && RateOk(ipc, now)
  }

  lemma BootIpcOk()
    ensures IpcOk(BootIpc(), 0)
  {
  }

  lemma EnqueueKeepsOk(ipc: Ipc, users: set<nat>, now: nat, destination: nat, m: Message)
    requires IpcOk(ipc, now) && RouteOk(destination, m) && RoomFor(ipc, users, now, destination, m)
    requires (forall u :: u in users ==> IsUserId(u)) && (IsUserId(m.source) ==> m.source in users)
    ensures IpcOk(Enqueue(ipc, users, now, destination, m), now)
  {
    EnqueueKeepsQueues(ipc, users, now, destination, m);
    EnqueueConserves(ipc, users, now, destination, m);
    EnqueueKeepsEdges(ipc, users, now, destination, m);
    EnqueueKeepsComplete(ipc, users, now, destination, m);
    EnqueueKeepsRate(ipc, users, now, destination, m);
  }

  lemma DequeueKeepsOk(ipc: Ipc, now: nat, endpoint: nat)
    requires IpcOk(ipc, now) && 1 <= endpoint <= 3 && ipc.queues.At(endpoint) != []
    ensures IpcOk(Dequeue(ipc, endpoint), now)
  {
    DequeueKeepsQueues(ipc, endpoint);
    DequeueConserves(ipc, endpoint);
  }
}
