/**
 Message passing and its broker as a value: three bounded queues, the admission rule of a
 send, the per-source rate windows and the route graph. Logs of what was accepted and
 received are kept beside the queues so that properties of whole runs can be stated.
 */
module IpcSpec {
  import opened Prelude

  type Flags = bv32
  type Caps = bv32

  const INIT: nat := 1
  const DRIVER_HOST: nat := 2
  const AI_POLICY: nat := 3

  const QUEUE_CAPACITY: nat := 8
  const DEPTH_LIMIT: nat := 2
  const WINDOW_LIMIT: nat := 8
  const EDGE_LIMIT: nat := 16
  const BURST_TICKS: nat := 3

  const HANDSHAKE: nat := 0x100
  const APPROVED: nat := 0x102

  const INTERACTIVE_WAIT: Flags := 1
  const DEPENDENCY_PROBE: Flags := 2

  const CAP_ROUTE_INIT: Caps := 0x1
  const CAP_ROUTE_DRIVER: Caps := 0x2
  const CAP_ROUTE_POLICY: Caps := 0x4
  const CAP_SUPERVISE: Caps := 0x8

  datatype Status = Ok | UnknownEndpoint | QueueFull | AccessDenied

  datatype Message = Message(source: nat, kind: nat, arg0: nat, arg1: nat, flags: Flags, depth: nat)

  /** One value per kernel endpoint. */
  datatype PerEndpoint<T> = PerEndpoint(init: T, driver: T, policy: T) {
    function At(e: nat): T
      requires 1 <= e <= 3
    {
      if e == INIT then init else if e == DRIVER_HOST then driver else policy
    }

    function With(e: nat, v: T): PerEndpoint<T>
      requires 1 <= e <= 3
    {
      if e == INIT then this.(init := v) else if e == DRIVER_HOST then this.(driver := v) else this.(policy := v)
    }
  }

  datatype Stamped = Stamped(message: Message, tick: nat)
  datatype Window = Window(source: nat, lastTick: u32)
  datatype Edge = Edge(source: nat, destination: nat, count: nat, maxDepth: nat, flags: Flags)

  datatype Ipc = Ipc(
    queues: PerEndpoint<seq<Message>>,
    accepted: PerEndpoint<seq<Stamped>>,
    received: PerEndpoint<seq<Message>>,
    windows: seq<Window>,
    edges: seq<Edge>)

  const NO_WINDOW: Window := Window(0, 0)
  const NO_EDGE: Edge := Edge(0, 0, 0, 0, 0)

  function BootIpc(): Ipc {
    Ipc(PerEndpoint([], [], []), PerEndpoint([], [], []), PerEndpoint([], [], []),
        seq(WINDOW_LIMIT, _ => NO_WINDOW), seq(EDGE_LIMIT, _ => NO_EDGE))
  }

  function Union(a: Flags, b: Flags): Flags {
    a | b
  }

  predicate Interactive(m: Message) {
    m.flags & INTERACTIVE_WAIT != 0
  }

  /** Subject to the rate limit: neither an interactive wait nor a dependency probe. */
  predicate Ordinary(m: Message) {
    m.flags & INTERACTIVE_WAIT == 0 && m.flags & DEPENDENCY_PROBE == 0
  }

  /** Userspace endpoint ids lie above the kernel's own 0..6. */
  predicate IsUserId(e: nat) {
    e > 6
  }

  // ---- table lookups ----

  function FindWindowFor(ws: seq<Window>, source: nat, k: nat): (r: Option<nat>)
    requires k <= |ws|
    ensures r.Some? ==> k <= r.value < |ws| && ws[r.value].source == source
    ensures r.Some? ==> forall j :: k <= j < r.value ==> ws[j].source != source
    ensures r.None? ==> forall j :: k <= j < |ws| ==> ws[j].source != source
    decreases |ws| - k
  {
    if k == |ws| then None else if ws[k].source == source then Some(k) else FindWindowFor(ws, source, k + 1)
  }

  /** The window of the source, or else the first free one. */
  function FindWindow(ws: seq<Window>, source: nat): Option<nat> {
    var own := FindWindowFor(ws, source, 0);
    if own.Some? then own else FindWindowFor(ws, 0, 0)
  }

  function FindEdgeFor(es: seq<Edge>, source: nat, destination: nat, k: nat): (r: Option<nat>)
    requires k <= |es|
    ensures r.Some? ==> k <= r.value < |es| && es[r.value].source == source && es[r.value].destination == destination
    ensures r.Some? ==> forall j :: k <= j < r.value ==> !(es[j].source == source && es[j].destination == destination)
    ensures r.None? ==> forall j :: k <= j < |es| ==> !(es[j].source == source && es[j].destination == destination)
    decreases |es| - k
  {
    if k == |es| then None
    else if es[k].source == source && es[k].destination == destination then Some(k)
    else FindEdgeFor(es, source, destination, k + 1)
  }

  predicate IsFreeEdge(e: Edge) {
    e.source == 0 && e.destination == 0 && e.count == 0
  }

  function FindFreeEdge(es: seq<Edge>, k: nat): (r: Option<nat>)
    requires k <= |es|
    ensures r.Some? ==> k <= r.value < |es| && IsFreeEdge(es[r.value])
    ensures r.Some? ==> forall j :: k <= j < r.value ==> !IsFreeEdge(es[j])
    ensures r.None? ==> forall j :: k <= j < |es| ==> !IsFreeEdge(es[j])
    decreases |es| - k
  {
    if k == |es| then None else if IsFreeEdge(es[k]) then Some(k) else FindFreeEdge(es, k + 1)
  }

  /** The edge of the pair, or else the first free one. */
  function FindEdge(es: seq<Edge>, source: nat, destination: nat): Option<nat> {
    var own := FindEdgeFor(es, source, destination, 0);
    if own.Some? then own else FindFreeEdge(es, 0)
  }

  // ---- admission ----

  /** What the sending context contributes: the running service and its message context. */
  datatype Sender = Sender(endpoint: nat, caps: Caps, contextFlags: Flags, contextDepth: nat)

  /** Capability masks of the service records, looked up by endpoint. */
  function CapsFor(endpoint: nat): Caps {
    if endpoint == INIT then 0x2E
    else if endpoint == DRIVER_HOST then CAP_ROUTE_DRIVER
    else if endpoint == AI_POLICY then 0x25
    else if endpoint == 0 then 0x30
    else if endpoint == 4 then 0x60
    else if endpoint == 5 then 0xA0
    else if endpoint == 6 then 0x120
    else 0
  }

  /** The masks have a capability in common. */
  predicate Grants(caps: Caps, required: Caps) {
    caps & required != 0
  }

  function RequiredCaps(endpoint: nat): Caps {
    if endpoint == INIT then CAP_ROUTE_INIT
    else if endpoint == DRIVER_HOST then CAP_ROUTE_DRIVER
    else CAP_ROUTE_POLICY
  }

  function EffectiveSource(sender: Sender, m: Message): nat {
    if sender.endpoint == 0 then m.source else sender.endpoint
  }

  /** The capabilities a send is checked with; none when a userspace source may not send this. */
  function EffectiveCaps(sender: Sender, users: set<nat>, destination: nat, m: Message): Option<Caps> {
    var source := EffectiveSource(sender, m);
    var caps := if sender.caps == 0 then CapsFor(source) else sender.caps;
    if caps == 0 && source in users then
      if destination != AI_POLICY || m.kind != HANDSHAKE then None else Some(CAP_ROUTE_POLICY)
    else Some(caps)
  }

  /** The message as queued: stamped with its source, inheriting context flags and depth. */
  function Queued(sender: Sender, m: Message): Message {
    m.(source := EffectiveSource(sender, m),
       flags := if m.flags == 0 then sender.contextFlags else m.flags,
       depth := if m.depth == 0 && sender.contextDepth != 0 then sender.contextDepth + 1 else m.depth)
  }

  predicate HasPending(q: seq<Message>, source: nat) {
    source != 0 && exists i :: 0 <= i < |q| && q[i].source == source
  }

  predicate TooSoon(ws: seq<Window>, source: nat, now: nat) {
    var w := FindWindow(ws, source);
    && w.Some? && ws[w.value].source != 0
    && (now - ws[w.value].lastTick) % U32_MODULUS < BURST_TICKS
  }

  datatype Verdict = Refused(status: Status) | TooDeep | Admitted(message: Message)

  /** The checks on the destination queue, in order. */
  function RoomVerdict(ipc: Ipc, users: set<nat>, now: nat, destination: nat, queued: Message): Verdict
    requires 1 <= destination <= 3
  {
    var q := ipc.queues.At(destination);
    if |q| >= QUEUE_CAPACITY then Refused(QueueFull)
    else if destination == AI_POLICY && HasPending(q, queued.source) then Refused(QueueFull)
    else if destination == AI_POLICY && |q| + 1 >= QUEUE_CAPACITY && !Interactive(queued) then Refused(QueueFull)
    else if destination == AI_POLICY && queued.source in users && Ordinary(queued)
            && TooSoon(ipc.windows, queued.source, now % U32_MODULUS) then Refused(QueueFull)
    else Admitted(queued)
  }

  /** The checks of a send, in order. `now` is the tick counter, unbounded. */
  function Admit(ipc: Ipc, sender: Sender, users: set<nat>, now: nat, destination: nat, m: Message): Verdict {
    if !(1 <= destination <= 3) then Refused(UnknownEndpoint)
    else
      var caps := EffectiveCaps(sender, users, destination, m);
      if caps.None? || !Grants(caps.value, RequiredCaps(destination)) then Refused(AccessDenied)
      else
        var queued := Queued(sender, m);
        if queued.depth > DEPTH_LIMIT then TooDeep
        else RoomVerdict(ipc, users, now, destination, queued)
  }

  // ---- effect ----

  function NotedWindows(ws: seq<Window>, users: set<nat>, now: nat, destination: nat, m: Message): seq<Window> {
    if destination == AI_POLICY && m.source in users && Ordinary(m) && FindWindow(ws, m.source).Some?
    then ws[FindWindow(ws, m.source).value := Window(m.source, now % U32_MODULUS)]
    else ws
  }

  function BumpedEdge(e: Edge, destination: nat, m: Message): Edge {
    var named := if e.count == 0 then e.(source := m.source, destination := destination) else e;
    named.(count := e.count + 1, maxDepth := Max(e.maxDepth, m.depth), flags := Union(e.flags, m.flags))
  }

  function NotedEdges(es: seq<Edge>, destination: nat, m: Message): seq<Edge> {
    var slot := FindEdge(es, m.source, destination);
    if slot.None? then es else es[slot.value := BumpedEdge(es[slot.value], destination, m)]
  }

  function Enqueue(ipc: Ipc, users: set<nat>, now: nat, destination: nat, m: Message): Ipc
    requires 1 <= destination <= 3
  {
    ipc.(queues := ipc.queues.With(destination, ipc.queues.At(destination) + [m]),
         accepted := ipc.accepted.With(destination, ipc.accepted.At(destination) + [Stamped(m, now)]),
         windows := NotedWindows(ipc.windows, users, now, destination, m),
         edges := NotedEdges(ipc.edges, destination, m))
  }

  function Dequeue(ipc: Ipc, endpoint: nat): Ipc
    requires 1 <= endpoint <= 3 && ipc.queues.At(endpoint) != []
  {
    var q := ipc.queues.At(endpoint);
    ipc.(queues := ipc.queues.With(endpoint, q[1..]),
         received := ipc.received.With(endpoint, ipc.received.At(endpoint) + [q[0]]))
  }
}
