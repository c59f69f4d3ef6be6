/** Ids shared by two peers: the client hands them out and reuses them, the server says
    when it has let go of one, and messages about old and new objects cross on the way. */
module IdProtocol {
  import opened Options
  import opened IdMaps
  import opened Zombies

  /** One object in the course of time: ids are reused, incarnations are not. */
  datatype Incarnation = Incarnation(id: nat, interface: Interface)

  /** What the client's map points to. */
  datatype Held = Proxy(inc: nat) | Dead(zombie: Zombie)

  datatype Made = Made(id: nat, inc: nat)

  /** `meant` is the incarnation the other side had in mind, which it cannot tell. */
  datatype Request = Request(sender: nat, meant: nat, made: Option<Made>)
  datatype Event = Event(id: nat, opcode: nat, meant: nat, sent: seq<nat>) | DeleteId(id: nat)

  datatype Status = Fine | InvalidObject | RefusedNewId | BadEvent

  /** Where the latest incarnation of an id is in its life. Only the history knows. */
  datatype Stage = NoObject | Unsent | Requested | Reserved | Resource | Deleting | DeleteQueued | Done

  datatype State = State(
    status: Status,
    client: IdMap<Held>,     // the client's object map
    deleted: set<nat>,       // proxies the server is known to have let go of
    queue: seq<nat>,         // the client's display queue: ids to be let go of
    server: IdMap<nat>,      // the server's object map
    promised: map<nat, nat>, // new ids the server has been given no resource for yet
    requests: seq<Request>,  // on their way to the server
    events: seq<Event>,      // on their way to the client
    fds: seq<nat>,           // descriptors on their way to the client
    incs: seq<Incarnation>,
    owner: seq<nat>,         // the latest incarnation of each of the client's ids
    stage: seq<Stage>,
    sent: set<nat>)          // the ids the client has ever announced

  // ---------- Steps ----------

  datatype Act =
    | Send(sender: nat, made: Option<Interface>)
    | Allocate(interface: Interface)
    | Announce(sender: nat, id: nat)
    | DestroyProxy(id: nat)
    | Receive
    | CreateResource(id: nat)
    | SendEvent(id: nat, opcode: nat, fds: seq<nat>)
    | DestroyResource(id: nat)
    | Read
    | Dispatch

  predicate IsProxy(s: State, id: nat) {
    id < |s.client.own| && s.client.own[id].Live? && !s.client.own[id].flag
    && s.client.own[id].data.Some? && s.client.own[id].data.value.Proxy?
    && s.client.own[id].data.value.inc < |s.incs|
  }

  function ProxyAt(s: State, id: nat): nat
    requires IsProxy(s, id)
  {
    s.client.own[id].data.value.inc
  }

  predicate IsResource(s: State, id: nat) {
    id < |s.server.peer| && s.server.peer[id].Live? && s.server.peer[id].data.Some?
    && s.server.peer[id].data.value < |s.incs|
  }

  function ResourceAt(s: State, id: nat): nat
    requires IsResource(s, id)
  {
    s.server.peer[id].data.value
  }

  /** The histories go along with the client's map. */
  ghost predicate Shaped(s: State) {
    && WellFormed(s.client) && s.client.side == Client && s.server.side == Server
    && |s.owner| == |s.stage| == |s.client.own| <= SERVER_ID_START
    && |s.server.peer| <= |s.client.own|
    && (forall id <- s.promised :: id < |s.client.own|)
  }

  /** What each side may do, from what it knows itself. Neither destroys the display,
      whose id is 1, while the connection is up. */
  predicate Guard(s: State, act: Act) {
    && s.status == Fine
    && match act
       case Send(sender, made) => IsProxy(s, sender) && |s.client.own| < SERVER_ID_START
       case Allocate(_) => |s.client.own| < SERVER_ID_START
       case Announce(sender, id) =>
         IsProxy(s, sender) && IsProxy(s, id) && sender != id && id < |s.stage| && s.stage[id] == Unsent
       case DestroyProxy(id) => IsProxy(s, id) && id != 1
       case Receive => s.requests != []
       case CreateResource(id) => id in s.promised
       case SendEvent(id, opcode, fds) =>
         && IsResource(s, id)
         && var interface := s.incs[ResourceAt(s, id)].interface;
            opcode < |interface| && |fds| == EventFds(interface, opcode)
       case DestroyResource(id) => IsResource(s, id) && id != 1
       case Read => s.events != []
       case Dispatch => s.queue != []
  }

  function Append<T>(s: seq<T>, i: nat, x: T): seq<T>
    requires i <= |s|
  {
    if i == |s| then s + [x] else s[i := x]
  }

  /** Takes an id for a new proxy. Without a free id it only spoils a slot. */
  function AllocateStep(s: State, interface: Interface): (State, nat)
    requires Shaped(s) && |s.client.own| < SERVER_ID_START
  {
    var inc := |s.incs|;
    assert s.client.free != [] ==> s.client.free[0] < |s.client.own|;
    var (client, id) := InsertNew(s.client, false, Some(Proxy(inc)));
    if id == 0 then
      (s.(client := client, owner := s.owner + [0], stage := s.stage + [NoObject]), 0)
    else
      (s.(client := client, incs := s.incs + [Incarnation(id, interface)],
          owner := Append(s.owner, id, inc), stage := Append(s.stage, id, Unsent)), id)
  }

  /** A request that tells the server of a proxy. */
  function AnnounceStep(s: State, sender: nat, id: nat): State
    requires IsProxy(s, sender) && IsProxy(s, id) && id < |s.stage|
  {
    s.(stage := s.stage[id := Requested], sent := s.sent + {id},
       requests := s.requests + [Request(sender, ProxyAt(s, sender), Some(Made(id, ProxyAt(s, id))))])
  }

  /** A request; one that makes an object takes an id for it and announces it at once.
      Without a free id nothing is sent. */
  function SendStep(s: State, sender: nat, made: Option<Interface>): State
    requires Shaped(s) && Guard(s, Send(sender, made))
  {
    match made
    case None => s.(requests := s.requests + [Request(sender, ProxyAt(s, sender), None)])
    case Some(interface) =>
      var (s1, id) := AllocateStep(s, interface);
      if id == 0 then s1 else AnnounceStep(s1, sender, id)
  }

  function ZombieData(z: Zombie): Option<Held> {
    if z.NoZombie? then None else Some(Dead(z))
  }

  /** An id the server has let go of is vacated at once; otherwise a zombie stays. */
  function DestroyProxyStep(s: State, id: nat): State
    requires Shaped(s) && Guard(s, DestroyProxy(id))
  {
    var inc := ProxyAt(s, id);
    if inc in s.deleted then s.(client := Remove(s.client, id))
    else s.(client := InsertAt(s.client, true, id, ZombieData(ZombieOf(s.incs[inc].interface))).0)
  }

  /** The server takes a request: its object must be there, and a new id acceptable. */
  function ReceiveStep(s: State): State
    requires Shaped(s) && Guard(s, Receive)
  {
    var r := s.requests[0];
    if Lookup(s.server, r.sender) == None then s.(status := InvalidObject)
    else
      match r.made
      case None => s.(requests := s.requests[1..])
      case Some(Made(id, inc)) =>
        var (server, refused) := ReserveNew(s.server, id);
        if refused.Some? || id >= |s.stage| then s.(status := RefusedNewId)
        else
          s.(requests := s.requests[1..], server := server, promised := s.promised[id := inc],
             stage := s.stage[id := Reserved])
  }

  function CreateResourceStep(s: State, id: nat): State
    requires Shaped(s) && Guard(s, CreateResource(id))
  {
    s.(server := InsertAt(s.server, false, id, Some(s.promised[id])).0, promised := s.promised - {id},
       stage := s.stage[id := Resource])
  }

  function SendEventStep(s: State, id: nat, opcode: nat, fds: seq<nat>): State
    requires Shaped(s) && Guard(s, SendEvent(id, opcode, fds))
  {
    s.(events := s.events + [Event(id, opcode, ResourceAt(s, id), fds)], fds := s.fds + fds)
  }

  function DestroyResourceStep(s: State, id: nat): State
    requires Shaped(s) && Guard(s, DestroyResource(id))
  {
    s.(events := s.events + [DeleteId(id)], server := InsertAt(s.server, false, id, None).0,
       stage := s.stage[id := Deleting])
  }

  /** What becomes of an event: the client goes by its own map. */
  datatype Fate = Delivered(inc: nat, fds: nat) | Discarded(fds: nat) | Unknown | NoSuchEvent

  function FateOf(s: State, id: nat, opcode: nat): Fate {
    var held: Option<Held> := Lookup(s.client, id);
    if LookupFlag(s.client, id) then
      Discarded(if held.Some? && held.value.Dead? then ZombieFds(held.value.zombie, opcode) else 0)
    else
      match held
      case None => Unknown
      case Some(Dead(_)) => NoSuchEvent
      case Some(Proxy(inc)) =>
        if inc < |s.incs| && opcode < |s.incs[inc].interface|
        then Delivered(inc, EventFds(s.incs[inc].interface, opcode))
        else NoSuchEvent
  }

  /** The client takes an event. */
  function ReadStep(s: State): State
    requires Shaped(s) && Guard(s, Read)
  {
    var rest := s.events[1..];
    match s.events[0]
    case DeleteId(id) =>
      s.(events := rest, queue := s.queue + [id],
         stage := if id < |s.stage| then s.stage[id := DeleteQueued] else s.stage)
    case Event(id, opcode, _, _) =>
      match FateOf(s, id, opcode)
      case Delivered(_, n) => if n <= |s.fds| then s.(events := rest, fds := s.fds[n..]) else s.(status := BadEvent)
      case Discarded(n) => s.(events := rest, fds := s.fds[if n <= |s.fds| then n else |s.fds|..])
      case Unknown => s.(events := rest)
      case NoSuchEvent => s.(status := BadEvent)
  }

  /** The client lets go of an id, or remembers that its proxy may. */
  function DispatchStep(s: State): State
    requires Shaped(s) && Guard(s, Dispatch)
  {
    var id, rest := s.queue[0], s.queue[1..];
    if id >= |s.client.own| then s.(queue := rest)
    else
      var done := s.stage[id := Done];
      if LookupFlag(s.client, id) then s.(queue := rest, client := Remove(s.client, id), stage := done)
      else
        var held: Option<Held> := Lookup(s.client, id);
        match held
        case Some(Proxy(inc)) => s.(queue := rest, deleted := s.deleted + {inc}, stage := done)
        case _ => s.(queue := rest)
  }

  ghost predicate Allowed(s: State, act: Act) {
    Shaped(s) && Guard(s, act)
  }

  ghost function Step(s: State, act: Act): State
    requires Allowed(s, act)
  {
    match act
    case Send(sender, made) => SendStep(s, sender, made)
    case Allocate(interface) => AllocateStep(s, interface).0
    case Announce(sender, id) => AnnounceStep(s, sender, id)
    case DestroyProxy(id) => DestroyProxyStep(s, id)
    case Receive => ReceiveStep(s)
    case CreateResource(id) => CreateResourceStep(s, id)
    case SendEvent(id, opcode, fds) => SendEventStep(s, id, opcode, fds)
    case DestroyResource(id) => DestroyResourceStep(s, id)
    case Read => ReadStep(s)
    case Dispatch => DispatchStep(s)
  }

  /** Both maps hold nothing at 0 and the display at 1. */
  function Start(display: Interface): State {
    State(Fine,
          IdMap(Client, [Live(None, false), Live(Some(Proxy(0)), false)], [], []), {}, [],
          IdMap(Server, [], [], [Live(None, false), Live(Some(0), false)]), map[],
          [], [], [], [Incarnation(1, display)], [0, 0], [NoObject, Resource], {0, 1})
  }

  // ---------- The invariant ----------

  /** The latest incarnation of an id, and what the client holds for it. */
  ghost predicate SlotOk(id: nat, slot: Slot<Held>, inc: nat, stage: Stage, incs: seq<Incarnation>, deleted: set<nat>) {
    if stage == NoObject then slot == Live(None, false)
    else
      && inc < |incs| && incs[inc].id == id <= MAX_OBJECTS
      && if stage == Done then slot == Vacant || (slot == Live(Some(Proxy(inc)), false) && inc in deleted)
         else
           && inc !in deleted
           && (slot == Live(Some(Proxy(inc)), false) || slot == Live(ZombieData(ZombieOf(incs[inc].interface)), true))
  }

  ghost predicate ClientOk(s: State)
    requires Shaped(s)
  {
    && (forall i | 0 <= i < |s.client.own| ::
          SlotOk(i, s.client.own[i], s.owner[i], s.stage[i], s.incs, s.deleted))
    && (forall inc <- s.deleted :: inc < |s.incs|)
    && |s.client.own| >= 2 && s.stage[0] == NoObject && s.stage[1] == Resource
    && s.client.own[1] == Live(Some(Proxy(s.owner[1])), false)
  }

  /** The server has a resource for exactly the ids that are in that stage of life. */
  ghost predicate ServerOk(server: IdMap<nat>, promised: map<nat, nat>, owner: seq<nat>, stage: seq<Stage>)
    requires |owner| == |stage| && |server.peer| <= |stage|
  {
    && (forall i | 0 <= i < |server.peer| ::
          server.peer[i] == Live(if stage[i] == Resource then Some(owner[i]) else None, false))
    && (forall i | |server.peer| <= i < |stage| :: stage[i] == Requested || stage[i] == Unsent || stage[i] == NoObject)
    && (forall id <- promised ::
          id < |server.peer| && stage[id] == Reserved && promised[id] == owner[id])
  }

  /** The new ids on their way are the ones the server expects. */
  ghost predicate RequestsOk(requests: seq<Request>, owner: seq<nat>, stage: seq<Stage>, incs: nat)
    requires |owner| == |stage|
  {
    && (forall k | 0 <= k < |requests| && requests[k].made.Some? ::
          var Made(id, inc) := requests[k].made.value;
          id < |stage| && stage[id] == Requested && owner[id] == inc)
    && (forall k, l | 0 <= k < l < |requests| && requests[k].made.Some? && requests[l].made.Some? ::
          requests[k].made.value.id != requests[l].made.value.id)
    && (forall k | 0 <= k < |requests| :: requests[k].sender < |stage| && requests[k].meant < incs)
    && (forall k | 0 <= k < |requests| && requests[k].meant != owner[requests[k].sender] ::
          stage[requests[k].sender] == Unsent || stage[requests[k].sender] == Requested)
    && (forall k, l | 0 <= k < l < |requests| && requests[k].made.Some?
                      && requests[l].sender == requests[k].made.value.id ::
          requests[l].meant == owner[requests[l].sender])
  }

  /** The size of the server's table when all requests have arrived: each new id is
      either within the table or the next one. */
  ghost function Grown(size: nat, requests: seq<Request>): nat
    decreases |requests|
  {
    if requests == [] then size
    else
      Grown(if requests[0].made.Some? && requests[0].made.value.id == size then size + 1 else size, requests[1..])
  }

  ghost predicate InOrder(size: nat, requests: seq<Request>)
    decreases |requests|
  {
    requests == [] ||
    (&& (requests[0].made.Some? ==> requests[0].made.value.id <= size)
     && InOrder(if requests[0].made.Some? && requests[0].made.value.id == size then size + 1 else size, requests[1..]))
  }

  /** Events are about the latest incarnation of their id, which stays in the client's
      map until the event that lets go of it, and nothing follows that one. */
  ghost predicate EventsOk(events: seq<Event>, owner: seq<nat>, stage: seq<Stage>, incs: seq<Incarnation>)
    requires |owner| == |stage|
  {
    && (forall k | 0 <= k < |events| ::
          var id := events[k].id;
          1 <= id < |stage|
          && match events[k]
             case DeleteId(_) => id != 1 && stage[id] == Deleting
             case Event(_, opcode, meant, sent) =>
               && meant == owner[id] && (stage[id] == Resource || stage[id] == Deleting)
               && meant < |incs| && opcode < |incs[meant].interface|
               && |sent| == EventFds(incs[meant].interface, opcode))
    && (forall k, l | 0 <= k < l < |events| && events[k].DeleteId? :: events[l].id != events[k].id)
  }

  ghost predicate QueueOk(queue: seq<nat>, stage: seq<Stage>) {
    && (forall k | 0 <= k < |queue| :: 1 < queue[k] < |stage| && stage[queue[k]] == DeleteQueued)
    && (forall k, l | 0 <= k < l < |queue| :: queue[k] != queue[l])
  }

  ghost function SentWith(events: seq<Event>): seq<nat> {
    if events == [] then []
    else (if events[0].Event? then events[0].sent else []) + SentWith(events[1..])
  }

  ghost predicate Invariant(s: State) {
    && Shaped(s) && ClientOk(s)
    && ServerOk(s.server, s.promised, s.owner, s.stage)
    && RequestsOk(s.requests, s.owner, s.stage, |s.incs|)
    && EventsOk(s.events, s.owner, s.stage, s.incs)
    && QueueOk(s.queue, s.stage)
    && s.fds == SentWith(s.events)
    && s.status != BadEvent
  }

  lemma StartInvariant(display: Interface)
    ensures Invariant(Start(display))
  {
    var s := Start(display);
    StartClientOk(display);
    assert ServerOk(s.server, s.promised, s.owner, s.stage);
  }

  lemma StartClientOk(display: Interface)
    ensures Shaped(Start(display)) && ClientOk(Start(display))
  {
  }

  // ---------- The client sends ----------

  lemma ProxyIsLatest(s: State, id: nat)
    requires Invariant(s) && IsProxy(s, id)
    ensures ProxyAt(s, id) == s.owner[id] < |s.incs| && s.stage[id] != NoObject
  {
    assert SlotOk(id, s.client.own[id], s.owner[id], s.stage[id], s.incs, s.deleted);
  }

  lemma RequestsPlain(requests: seq<Request>, owner: seq<nat>, stage: seq<Stage>, incs: nat, sender: nat)
    requires |owner| == |stage| && RequestsOk(requests, owner, stage, incs)
    requires sender < |stage| && owner[sender] < incs
    ensures RequestsOk(requests + [Request(sender, owner[sender], None)], owner, stage, incs)
  {
  }

  lemma SendPlainKeeps(s: State, sender: nat)
    requires Invariant(s) && Guard(s, Send(sender, None))
    ensures Invariant(SendStep(s, sender, None))
  {
    ProxyIsLatest(s, sender);
    RequestsPlain(s.requests, s.owner, s.stage, |s.incs|, sender);
  }

  /** Appending to the requests one that announces `id`. */
  lemma RequestsOneMore(requests: seq<Request>, owner: seq<nat>, stage: seq<Stage>, incs: nat,
                        sender: nat, id: nat)
    requires |owner| == |stage| && RequestsOk(requests, owner, stage, incs)
    requires sender < |stage| && owner[sender] < incs && id < |stage| && stage[id] == Unsent && sender != id
    ensures RequestsOk(requests + [Request(sender, owner[sender], Some(Made(id, owner[id])))],
                       owner, stage[id := Requested], incs)
  {
    var r := Request(sender, owner[sender], Some(Made(id, owner[id])));
    var rs, stage' := requests + [r], stage[id := Requested];
    forall k | 0 <= k < |rs|
      ensures rs[k].made.Some? ==>
        rs[k].made.value.id < |stage'| && stage'[rs[k].made.value.id] == Requested
        && owner[rs[k].made.value.id] == rs[k].made.value.inc
      ensures rs[k].sender < |stage'| && rs[k].meant < incs
      ensures rs[k].meant != owner[rs[k].sender] ==>
        stage'[rs[k].sender] == Unsent || stage'[rs[k].sender] == Requested
    {
      assert k < |requests| ==> rs[k] == requests[k];
    }
  }

  /** The requests on their way say nothing of a proxy that takes an id. */
  lemma RequestsAllocate(requests: seq<Request>, owner: seq<nat>, stage: seq<Stage>, incs: nat, id: nat)
    requires |owner| == |stage| && RequestsOk(requests, owner, stage, incs)
    requires id <= |stage| && (id < |stage| ==> stage[id] == Done)
    ensures RequestsOk(requests, Append(owner, id, incs), Append(stage, id, Unsent), incs + 1)
  {
  }

  /** A free id is one the server has let go of. */
  lemma FreeIdIsDone(s: State)
    requires Invariant(s) && s.client.free != []
    ensures var id := s.client.free[0];
            && 1 < id < |s.stage| && s.stage[id] == Done && s.client.own[id] == Vacant && id <= MAX_OBJECTS
  {
    var id := s.client.free[0];
    assert id in s.client.free;
    assert SlotOk(id, s.client.own[id], s.owner[id], s.stage[id], s.incs, s.deleted);
  }

  /** A new object at an id that is vacant or the next one. */
  ghost predicate CanMake(s: State, id: nat, client: IdMap<Held>) {
    && id <= |s.stage| == |s.client.own| < SERVER_ID_START && 1 < id <= MAX_OBJECTS
    && (id < |s.stage| ==> s.stage[id] == Done)
    && WellFormed(client) && client.side == Client
    && client.own == Append(s.client.own, id, Live(Some(Proxy(|s.incs|)), false))
  }

  function WithNew(s: State, id: nat, interface: Interface, client: IdMap<Held>): State
    requires id <= |s.stage| && |s.owner| == |s.stage|
  {
    s.(client := client, incs := s.incs + [Incarnation(id, interface)],
       owner := Append(s.owner, id, |s.incs|), stage := Append(s.stage, id, Unsent))
  }

  lemma MakeClient(s: State, id: nat, interface: Interface, client: IdMap<Held>)
    requires Shaped(s) && ClientOk(s) && CanMake(s, id, client)
    ensures Shaped(WithNew(s, id, interface, client)) && ClientOk(WithNew(s, id, interface, client))
  {
    var s' := WithNew(s, id, interface, client);
    forall i | 0 <= i < |s'.client.own|
      ensures SlotOk(i, s'.client.own[i], s'.owner[i], s'.stage[i], s'.incs, s'.deleted)
    {
      if i != id {
        assert SlotOk(i, s.client.own[i], s.owner[i], s.stage[i], s.incs, s.deleted);
      }
    }
  }

  lemma MakeServer(server: IdMap<nat>, promised: map<nat, nat>, owner: seq<nat>, stage: seq<Stage>, id: nat, inc: nat)
    requires |owner| == |stage| && |server.peer| <= |stage| && ServerOk(server, promised, owner, stage)
    requires id <= |stage| && (id < |stage| ==> stage[id] == Done)
    ensures ServerOk(server, promised, Append(owner, id, inc), Append(stage, id, Unsent))
  {
  }

  lemma MakeEvents(events: seq<Event>, queue: seq<nat>, owner: seq<nat>, stage: seq<Stage>, incs: seq<Incarnation>,
                   id: nat, more: Incarnation)
    requires |owner| == |stage| && EventsOk(events, owner, stage, incs) && QueueOk(queue, stage)
    requires id <= |stage| && (id < |stage| ==> stage[id] == Done)
    ensures EventsOk(events, Append(owner, id, |incs|), Append(stage, id, Unsent), incs + [more])
    ensures QueueOk(queue, Append(stage, id, Unsent))
  {
  }

  lemma MakeKeeps(s: State, id: nat, interface: Interface, client: IdMap<Held>)
    requires Invariant(s) && CanMake(s, id, client)
    ensures Invariant(WithNew(s, id, interface, client))
  {
    MakeClient(s, id, interface, client);
    MakeServer(s.server, s.promised, s.owner, s.stage, id, |s.incs|);
    MakeEvents(s.events, s.queue, s.owner, s.stage, s.incs, id, Incarnation(id, interface));
    RequestsAllocate(s.requests, s.owner, s.stage, |s.incs|, id);
  }

  /** Taking an id keeps everything, whether there is one or not. */
  lemma AllocateKeeps(s: State, interface: Interface)
    requires Invariant(s) && |s.client.own| < SERVER_ID_START
    ensures var (s', id) := AllocateStep(s, interface);
            && Invariant(s')
            && (id != 0 ==> CanMake(s, id, s'.client) && s' == WithNew(s, id, interface, s'.client))
  {
    InsertNewKeepsWellFormed(s.client, false, Some(Proxy(|s.incs|)));
    if s.client.free == [] && |s.client.own| > MAX_OBJECTS {
      NoIdKeeps(s, interface);
    } else {
      if s.client.free != [] {
        FreeIdIsDone(s);
      }
      var (client, id) := InsertNew(s.client, false, Some(Proxy(|s.incs|)));
      MakeKeeps(s, id, interface, client);
    }
  }

  lemma AnnounceKeeps(s: State, sender: nat, id: nat)
    requires Invariant(s) && IsProxy(s, sender) && IsProxy(s, id) && sender != id
    requires id < |s.stage| && s.stage[id] == Unsent
    ensures Invariant(AnnounceStep(s, sender, id))
  {
    ProxyIsLatest(s, sender);
    ProxyIsLatest(s, id);
    StageOfClient(s, id, Requested);
    AnnouncedServer(s.server, s.promised, s.owner, s.stage, id);
    RequestsOneMore(s.requests, s.owner, s.stage, |s.incs|, sender, id);
    StageOfEvents(s.events, s.queue, s.owner, s.stage, s.incs, id, Requested);
  }

  lemma AnnouncedServer(server: IdMap<nat>, promised: map<nat, nat>, owner: seq<nat>, stage: seq<Stage>, id: nat)
    requires |owner| == |stage| && |server.peer| <= |stage| && ServerOk(server, promised, owner, stage)
    requires id < |stage| && stage[id] == Unsent
    ensures ServerOk(server, promised, owner, stage[id := Requested])
  {
  }

  lemma SendMakingKeeps(s: State, sender: nat, interface: Interface)
    requires Invariant(s) && Guard(s, Send(sender, Some(interface)))
    ensures Invariant(SendStep(s, sender, Some(interface)))
  {
    AllocateKeeps(s, interface);
    var (s1, id) := AllocateStep(s, interface);
    if id != 0 {
      ProxyIsLatest(s, sender);
      NewIsOther(s, sender, id, interface, s1.client);
      AnnounceKeeps(s1, sender, id);
    }
  }

  lemma NewIsOther(s: State, sender: nat, id: nat, interface: Interface, client: IdMap<Held>)
    requires Invariant(s) && IsProxy(s, sender) && CanMake(s, id, client)
    requires id < |s.client.own| ==> s.client.own[id] != s.client.own[sender]
    ensures var s1 := WithNew(s, id, interface, client);
            sender != id && IsProxy(s1, sender) && IsProxy(s1, id) && s1.stage[id] == Unsent
  {
  }

  lemma SpoiltSlot(s: State, client: IdMap<Held>)
    requires Shaped(s) && ClientOk(s) && |s.client.own| < SERVER_ID_START
    requires WellFormed(client) && client.side == Client && client.own == s.client.own + [Live(None, false)]
    ensures var s' := s.(client := client, owner := s.owner + [0], stage := s.stage + [NoObject]);
            Shaped(s') && ClientOk(s')
  {
    var s' := s.(client := client, owner := s.owner + [0], stage := s.stage + [NoObject]);
    forall i | 0 <= i < |s'.client.own|
      ensures SlotOk(i, s'.client.own[i], s'.owner[i], s'.stage[i], s'.incs, s'.deleted)
    {
      if i < |s.client.own| {
        assert SlotOk(i, s.client.own[i], s.owner[i], s.stage[i], s.incs, s.deleted);
      }
    }
  }

  lemma SpoiltStage(s: State)
    requires |s.owner| == |s.stage| && |s.server.peer| <= |s.stage|
    requires ServerOk(s.server, s.promised, s.owner, s.stage)
    requires RequestsOk(s.requests, s.owner, s.stage, |s.incs|) && EventsOk(s.events, s.owner, s.stage, s.incs)
    requires QueueOk(s.queue, s.stage)
    ensures ServerOk(s.server, s.promised, s.owner + [0], s.stage + [NoObject])
    ensures RequestsOk(s.requests, s.owner + [0], s.stage + [NoObject], |s.incs|)
    ensures EventsOk(s.events, s.owner + [0], s.stage + [NoObject], s.incs)
    ensures QueueOk(s.queue, s.stage + [NoObject])
  {
  }

  /** Running out of ids only spoils a slot of the client's table. */
  lemma NoIdKeeps(s: State, interface: Interface)
    requires Invariant(s) && s.client.free == [] && MAX_OBJECTS < |s.client.own| < SERVER_ID_START
    ensures Invariant(AllocateStep(s, interface).0) && AllocateStep(s, interface).1 == 0
  {
    InsertNewKeepsWellFormed(s.client, false, Some(Proxy(|s.incs|)));
    SpoiltSlot(s, InsertNew(s.client, false, Some(Proxy(|s.incs|))).0);
    SpoiltStage(s);
  }

  // ---------- The client destroys ----------

  lemma VacateKeepsClient(s: State, id: nat, stage: seq<Stage>)
    requires Shaped(s) && ClientOk(s) && 1 < id < |s.client.own| && s.client.own[id].Live? && id <= MAX_OBJECTS
    requires stage == s.stage[id := Done] && s.stage[id] != NoObject
    ensures var s' := s.(client := Remove(s.client, id), stage := stage); Shaped(s') && ClientOk(s')
  {
    RemoveKeepsWellFormed(s.client, id);
    var s' := s.(client := Remove(s.client, id), stage := stage);
    assert SlotOk(id, s.client.own[id], s.owner[id], s.stage[id], s.incs, s.deleted);
    forall i | 0 <= i < |s'.client.own|
      ensures SlotOk(i, s'.client.own[i], s'.owner[i], s'.stage[i], s'.incs, s'.deleted)
    {
      if i != id {
        assert SlotOk(i, s.client.own[i], s.owner[i], s.stage[i], s.incs, s.deleted);
      }
    }
  }

  lemma ZombieKeepsClient(s: State, id: nat)
    requires Shaped(s) && ClientOk(s) && IsProxy(s, id) && 1 < id && ProxyAt(s, id) !in s.deleted
    ensures var s' := DestroyProxyStep(s.(status := Fine), id); Shaped(s') && ClientOk(s')
  {
    var s' := DestroyProxyStep(s.(status := Fine), id);
    assert SlotOk(id, s.client.own[id], s.owner[id], s.stage[id], s.incs, s.deleted);
    assert s'.client.own == s.client.own[id := Live(ZombieData(ZombieOf(s.incs[s.owner[id]].interface)), true)];
    forall i | 0 <= i < |s'.client.own|
      ensures SlotOk(i, s'.client.own[i], s'.owner[i], s'.stage[i], s'.incs, s'.deleted)
    {
      if i != id {
        assert SlotOk(i, s.client.own[i], s.owner[i], s.stage[i], s.incs, s.deleted);
      }
    }
  }

  lemma DestroyProxyKeeps(s: State, id: nat)
    requires Invariant(s) && Guard(s, DestroyProxy(id))
    ensures Invariant(DestroyProxyStep(s, id))
  {
    assert SlotOk(0, s.client.own[0], s.owner[0], s.stage[0], s.incs, s.deleted);
    assert SlotOk(id, s.client.own[id], s.owner[id], s.stage[id], s.incs, s.deleted);
    if ProxyAt(s, id) in s.deleted {
      assert s.stage[id := Done] == s.stage;
      VacateKeepsClient(s, id, s.stage);
    } else {
      ZombieKeepsClient(s, id);
    }
  }

  // ---------- The server ----------

  lemma ReceivePlainKeeps(s: State)
    requires Invariant(s) && Guard(s, Receive) && s.requests[0].made == None
    ensures Invariant(s.(requests := s.requests[1..]))
  {
    RequestsRest(s.requests, s.owner, s.stage, |s.incs|);
  }

  lemma RequestsRest(requests: seq<Request>, owner: seq<nat>, stage: seq<Stage>, incs: nat)
    requires |owner| == |stage| && RequestsOk(requests, owner, stage, incs) && requests != []
    requires requests[0].made == None
    ensures RequestsOk(requests[1..], owner, stage, incs)
  {
    RequestsTail(requests);
  }

  lemma RequestsTail(requests: seq<Request>)
    requires requests != []
    ensures forall k | 0 <= k < |requests[1..]| :: requests[1..][k] == requests[k + 1]
  {
  }

  lemma RequestsRestMade(requests: seq<Request>, owner: seq<nat>, stage: seq<Stage>, incs: nat, id: nat)
    requires |owner| == |stage| && RequestsOk(requests, owner, stage, incs) && requests != []
    requires requests[0].made.Some? && requests[0].made.value.id == id < |stage|
    ensures RequestsOk(requests[1..], owner, stage[id := Reserved], incs)
  {
    RequestsTail(requests);
  }

  /** The next new id is one the server accepts if it leaves no gap in its table. */
  lemma NewIdAcceptedIff(s: State)
    requires Invariant(s) && s.requests != [] && s.requests[0].made.Some?
    ensures var id := s.requests[0].made.value.id;
            && id < |s.stage| && s.stage[id] == Requested
            && ReserveNew(s.server, id) ==
               if id <= |s.server.peer|
               then (s.server.(peer := Append(s.server.peer, id, Live(None, false))), None)
               else (s.server, Some(Invalid))
  {
    var id := s.requests[0].made.value.id;
    assert s.requests[0].made.Some?;
    assert SlotOk(id, s.client.own[id], s.owner[id], s.stage[id], s.incs, s.deleted);
    if id < |s.server.peer| {
      assert s.server.peer[id := Live(None, false)] == s.server.peer;
    }
  }

  lemma ReserveKeepsServer(server: IdMap<nat>, promised: map<nat, nat>, owner: seq<nat>, stage: seq<Stage>, id: nat)
    requires |owner| == |stage| && |server.peer| <= |stage| && ServerOk(server, promised, owner, stage)
    requires id <= |server.peer| && id < |stage| && stage[id] == Requested
    ensures |server.peer| + (if id == |server.peer| then 1 else 0) <= |stage|
    ensures ServerOk(server.(peer := Append(server.peer, id, Live(None, false))), promised[id := owner[id]],
                     owner, stage[id := Reserved])
  {
  }

  lemma StageOfClient(s: State, id: nat, stage: Stage)
    requires Shaped(s) && ClientOk(s) && 1 < id < |s.stage|
    requires s.stage[id] != NoObject && s.stage[id] != Done && stage != NoObject && stage != Done
    ensures var s' := s.(stage := s.stage[id := stage]); Shaped(s') && ClientOk(s')
  {
    var s' := s.(stage := s.stage[id := stage]);
    forall i | 0 <= i < |s'.client.own|
      ensures SlotOk(i, s'.client.own[i], s'.owner[i], s'.stage[i], s'.incs, s'.deleted)
    {
      assert SlotOk(i, s.client.own[i], s.owner[i], s.stage[i], s.incs, s.deleted);
    }
  }

  /** Events and deletions are not about an id that was in another stage. */
  lemma StageOfEvents(events: seq<Event>, queue: seq<nat>, owner: seq<nat>, stage: seq<Stage>, incs: seq<Incarnation>,
                      id: nat, next: Stage)
    requires |owner| == |stage| && EventsOk(events, owner, stage, incs) && QueueOk(queue, stage)
    requires id < |stage| && (stage[id] == Unsent || stage[id] == Requested || stage[id] == Reserved)
    ensures EventsOk(events, owner, stage[id := next], incs) && QueueOk(queue, stage[id := next])
  {
  }

  lemma NewIdReserved(s: State)
    requires Invariant(s) && Guard(s, Receive) && s.requests[0].made.Some?
    requires Lookup(s.server, s.requests[0].sender) != None
    ensures var id := s.requests[0].made.value.id;
            && id < |s.stage| && s.stage[id] == Requested
            && ReceiveStep(s) ==
               if id <= |s.server.peer|
               then s.(requests := s.requests[1..], promised := s.promised[id := s.owner[id]],
                       server := s.server.(peer := Append(s.server.peer, id, Live(None, false))),
                       stage := s.stage[id := Reserved])
               else s.(status := RefusedNewId)
  {
    NewIdAcceptedIff(s);
  }

  lemma ReservedKeeps(s: State, id: nat, s': State)
    requires Invariant(s) && s.requests != [] && s.requests[0].made.Some?
    requires id == s.requests[0].made.value.id < |s.stage| && s.stage[id] == Requested && id <= |s.server.peer|
    requires Shaped(s') && ClientOk(s') && ServerOk(s'.server, s'.promised, s'.owner, s'.stage)
    requires s'.owner == s.owner && s'.stage == s.stage[id := Reserved] && s'.incs == s.incs
    requires |s'.client.own| == |s.client.own| && s'.requests == s.requests[1..]
    requires |s'.server.peer| == |s.server.peer| + if id == |s.server.peer| then 1 else 0
    requires s'.events == s.events && s'.queue == s.queue && s'.fds == s.fds && s'.status == s.status
    ensures Invariant(s')
  {
    RequestsRestMade(s.requests, s.owner, s.stage, |s.incs|, id);
    StageOfEvents(s.events, s.queue, s.owner, s.stage, s.incs, id, Reserved);
  }

  lemma ReceiveMakingKeeps(s: State)
    requires Invariant(s) && Guard(s, Receive) && s.requests[0].made.Some?
    requires Lookup(s.server, s.requests[0].sender) != None
    ensures Invariant(ReceiveStep(s))
  {
    var id := s.requests[0].made.value.id;
    NewIdReserved(s);
    if id <= |s.server.peer| {
      StageOfClient(s, id, Reserved);
      ReserveKeepsServer(s.server, s.promised, s.owner, s.stage, id);
      ReservedKeeps(s, id, ReceiveStep(s));
    }
  }

  lemma ReceiveKeeps(s: State)
    requires Invariant(s) && Guard(s, Receive)
    ensures Invariant(ReceiveStep(s))
  {
    if Lookup(s.server, s.requests[0].sender) != None {
      if s.requests[0].made.Some? {
        ReceiveMakingKeeps(s);
      } else {
        ReceivePlainKeeps(s);
      }
    }
  }

  lemma CreateKeepsServer(server: IdMap<nat>, promised: map<nat, nat>, owner: seq<nat>, stage: seq<Stage>, id: nat)
    requires |owner| == |stage| && |server.peer| <= |stage| && ServerOk(server, promised, owner, stage)
    requires id in promised
    ensures ServerOk(server.(peer := server.peer[id := Live(Some(owner[id]), false)]), promised - {id},
                     owner, stage[id := Resource])
  {
  }

  lemma RequestsStage(requests: seq<Request>, owner: seq<nat>, stage: seq<Stage>, incs: nat, id: nat, next: Stage)
    requires |owner| == |stage| && RequestsOk(requests, owner, stage, incs)
    requires id < |stage| && stage[id] != Requested && stage[id] != Unsent
    ensures RequestsOk(requests, owner, stage[id := next], incs)
  {
  }

  lemma CreateResourceKeeps(s: State, id: nat)
    requires Invariant(s) && Guard(s, CreateResource(id))
    ensures Invariant(CreateResourceStep(s, id))
  {
    assert SlotOk(id, s.client.own[id], s.owner[id], s.stage[id], s.incs, s.deleted);
    StageOfClient(s, id, Resource);
    CreateKeepsServer(s.server, s.promised, s.owner, s.stage, id);
    RequestsStage(s.requests, s.owner, s.stage, |s.incs|, id, Resource);
    StageOfEvents(s.events, s.queue, s.owner, s.stage, s.incs, id, Resource);
  }

  lemma {:induction false} SentWithAppend(events: seq<Event>, e: Event)
    ensures SentWith(events + [e]) == SentWith(events) + if e.Event? then e.sent else []
    decreases |events|
  {
    if events == [] {
      assert events + [e] == [e] && [e][1..] == [];
    } else {
      SentWithAppend(events[1..], e);
      assert (events + [e])[1..] == events[1..] + [e];
      var head := if events[0].Event? then events[0].sent else [];
      var tail := if e.Event? then e.sent else [];
      assert head + (SentWith(events[1..]) + tail) == (head + SentWith(events[1..])) + tail;
    }
  }

  lemma EventsOneMore(events: seq<Event>, owner: seq<nat>, stage: seq<Stage>, incs: seq<Incarnation>, e: Event)
    requires |owner| == |stage| && EventsOk(events, owner, stage, incs)
    requires e.Event? && 1 <= e.id < |stage| && stage[e.id] == Resource && e.meant == owner[e.id] < |incs|
    requires e.opcode < |incs[e.meant].interface| && |e.sent| == EventFds(incs[e.meant].interface, e.opcode)
    ensures EventsOk(events + [e], owner, stage, incs)
  {
  }

  lemma ResourceIsLatest(s: State, id: nat)
    requires Invariant(s) && IsResource(s, id)
    ensures s.stage[id] == Resource && ResourceAt(s, id) == s.owner[id] && 1 <= id <= MAX_OBJECTS
    ensures s.server.peer[id] == Live(Some(s.owner[id]), false)
  {
    assert SlotOk(id, s.client.own[id], s.owner[id], s.stage[id], s.incs, s.deleted);
  }

  lemma SendEventKeeps(s: State, id: nat, opcode: nat, fds: seq<nat>)
    requires Invariant(s) && Guard(s, SendEvent(id, opcode, fds))
    ensures Invariant(SendEventStep(s, id, opcode, fds))
  {
    ResourceIsLatest(s, id);
    EventsOneMore(s.events, s.owner, s.stage, s.incs, Event(id, opcode, s.owner[id], fds));
    SentWithAppend(s.events, Event(id, opcode, s.owner[id], fds));
  }

  lemma EventsDelete(events: seq<Event>, owner: seq<nat>, stage: seq<Stage>, incs: seq<Incarnation>, id: nat)
    requires |owner| == |stage| && EventsOk(events, owner, stage, incs)
    requires 1 < id < |stage| && stage[id] == Resource
    ensures EventsOk(events + [DeleteId(id)], owner, stage[id := Deleting], incs)
  {
  }

  lemma QueueStage(queue: seq<nat>, stage: seq<Stage>, id: nat, next: Stage)
    requires QueueOk(queue, stage) && id < |stage| && stage[id] != DeleteQueued
    ensures QueueOk(queue, stage[id := next])
  {
  }

  lemma DestroyKeepsServer(server: IdMap<nat>, promised: map<nat, nat>, owner: seq<nat>, stage: seq<Stage>, id: nat,
                           next: Stage)
    requires |owner| == |stage| && |server.peer| <= |stage| && ServerOk(server, promised, owner, stage)
    requires id < |server.peer| && stage[id] == Resource && next != Resource && next != Reserved
    ensures ServerOk(server.(peer := server.peer[id := Live(None, false)]), promised, owner, stage[id := next])
  {
  }

  lemma DestroyResourceKeeps(s: State, id: nat)
    requires Invariant(s) && Guard(s, DestroyResource(id))
    ensures Invariant(DestroyResourceStep(s, id))
  {
    ResourceIsLatest(s, id);
    StageOfClient(s, id, Deleting);
    DestroyKeepsServer(s.server, s.promised, s.owner, s.stage, id, Deleting);
    RequestsStage(s.requests, s.owner, s.stage, |s.incs|, id, Deleting);
    EventsDelete(s.events, s.owner, s.stage, s.incs, id);
    QueueStage(s.queue, s.stage, id, Deleting);
    SentWithAppend(s.events, DeleteId(id));
  }

  // ---------- The client reads ----------

  /** An event reaches the incarnation it is meant for, or what is left of that one,
      and its descriptors are the first on the way. */
  lemma FateOfEvent(s: State)
    requires Invariant(s) && s.events != [] && s.events[0].Event?
    ensures var e := s.events[0];
            && e.meant == s.owner[e.id] && e.sent <= s.fds
            && FateOf(s, e.id, e.opcode) ==
               if IsProxy(s, e.id) then Delivered(e.meant, |e.sent|) else Discarded(|e.sent|)
  {
    var e := s.events[0];
    assert SlotOk(e.id, s.client.own[e.id], s.owner[e.id], s.stage[e.id], s.incs, s.deleted);
    ZombieOfStands(s.incs[e.meant].interface);
  }

  lemma EventsRest(events: seq<Event>, owner: seq<nat>, stage: seq<Stage>, incs: seq<Incarnation>)
    requires |owner| == |stage| && EventsOk(events, owner, stage, incs) && events != []
    ensures events[0].Event? ==> EventsOk(events[1..], owner, stage, incs)
    ensures events[0].DeleteId? ==> EventsOk(events[1..], owner, stage[events[0].id := DeleteQueued], incs)
  {
    assert forall k | 0 <= k < |events[1..]| :: events[1..][k] == events[k + 1];
  }

  lemma QueueOneMore(queue: seq<nat>, stage: seq<Stage>, id: nat)
    requires QueueOk(queue, stage) && 1 < id < |stage| && stage[id] == Deleting
    ensures QueueOk(queue + [id], stage[id := DeleteQueued])
  {
  }

  lemma StageOfServer(server: IdMap<nat>, promised: map<nat, nat>, owner: seq<nat>, stage: seq<Stage>, id: nat,
                      next: Stage)
    requires |owner| == |stage| && |server.peer| <= |stage| && ServerOk(server, promised, owner, stage)
    requires id < |stage| && (stage[id] == Deleting || stage[id] == DeleteQueued) && next != Resource
    ensures ServerOk(server, promised, owner, stage[id := next])
  {
  }

  lemma ReadEventKeeps(s: State)
    requires Invariant(s) && Guard(s, Read) && s.events[0].Event?
    ensures Invariant(ReadStep(s))
  {
    EventsRest(s.events, s.owner, s.stage, s.incs);
    FateOfEvent(s);
  }

  lemma ReadDeletionKeeps(s: State)
    requires Invariant(s) && Guard(s, Read) && s.events[0].DeleteId?
    ensures Invariant(ReadStep(s))
  {
    EventsRest(s.events, s.owner, s.stage, s.incs);
    var id := s.events[0].id;
    StageOfClient(s, id, DeleteQueued);
    StageOfServer(s.server, s.promised, s.owner, s.stage, id, DeleteQueued);
    RequestsStage(s.requests, s.owner, s.stage, |s.incs|, id, DeleteQueued);
    QueueOneMore(s.queue, s.stage, id);
  }

  lemma ReadKeeps(s: State)
    requires Invariant(s) && Guard(s, Read)
    ensures Invariant(ReadStep(s))
  {
    if s.events[0].Event? {
      ReadEventKeeps(s);
    } else {
      ReadDeletionKeeps(s);
    }
  }

  lemma QueueRest(queue: seq<nat>, stage: seq<Stage>)
    requires QueueOk(queue, stage) && queue != []
    ensures QueueOk(queue[1..], stage[queue[0] := Done])
  {
    assert forall k | 0 <= k < |queue[1..]| :: queue[1..][k] == queue[k + 1];
  }

  lemma EventsDone(events: seq<Event>, owner: seq<nat>, stage: seq<Stage>, incs: seq<Incarnation>, id: nat)
    requires |owner| == |stage| && EventsOk(events, owner, stage, incs)
    requires id < |stage| && stage[id] == DeleteQueued
    ensures EventsOk(events, owner, stage[id := Done], incs)
  {
  }

  lemma MarkKeepsClient(s: State, id: nat)
    requires Shaped(s) && ClientOk(s) && IsProxy(s, id) && 1 < id && s.stage[id] == DeleteQueued
    ensures var s' := s.(deleted := s.deleted + {ProxyAt(s, id)}, stage := s.stage[id := Done]);
            Shaped(s') && ClientOk(s')
  {
    var s' := s.(deleted := s.deleted + {ProxyAt(s, id)}, stage := s.stage[id := Done]);
    assert SlotOk(id, s.client.own[id], s.owner[id], s.stage[id], s.incs, s.deleted);
    forall i | 0 <= i < |s'.client.own|
      ensures SlotOk(i, s'.client.own[i], s'.owner[i], s'.stage[i], s'.incs, s'.deleted)
    {
      assert SlotOk(i, s.client.own[i], s.owner[i], s.stage[i], s.incs, s.deleted);
    }
  }

  lemma LetGoKeepsClient(s: State)
    requires Invariant(s) && Guard(s, Dispatch)
    ensures var s' := DispatchStep(s); Shaped(s') && ClientOk(s')
    ensures DispatchStep(s).stage == s.stage[s.queue[0] := Done]
  {
    var id := s.queue[0];
    assert SlotOk(id, s.client.own[id], s.owner[id], s.stage[id], s.incs, s.deleted);
    if LookupFlag(s.client, id) {
      VacateKeepsClient(s, id, s.stage[id := Done]);
    } else {
      MarkKeepsClient(s, id);
    }
  }

  lemma LetGoKeeps(s: State, id: nat, s': State)
    requires Invariant(s) && s.queue != [] && id == s.queue[0]
    requires Shaped(s') && ClientOk(s') && |s'.client.own| == |s.client.own|
    requires s'.server == s.server && s'.promised == s.promised && s'.owner == s.owner && s'.incs == s.incs
    requires s'.requests == s.requests && s'.events == s.events && s'.fds == s.fds && s'.status == s.status
    requires s'.stage == s.stage[id := Done] && s'.queue == s.queue[1..]
    ensures Invariant(s')
  {
    StageOfServer(s.server, s.promised, s.owner, s.stage, id, Done);
    RequestsStage(s.requests, s.owner, s.stage, |s.incs|, id, Done);
    EventsDone(s.events, s.owner, s.stage, s.incs, id);
    QueueRest(s.queue, s.stage);
  }

  lemma DispatchKeeps(s: State)
    requires Invariant(s) && Guard(s, Dispatch)
    ensures Invariant(DispatchStep(s))
  {
    LetGoKeepsClient(s);
    LetGoKeeps(s, s.queue[0], DispatchStep(s));
  }

  // ---------- All runs ----------

  lemma StepKeeps(s: State, act: Act)
    requires Invariant(s) && Guard(s, act)
    ensures Invariant(Step(s, act))
  {
    match act
    case Send(sender, None) => SendPlainKeeps(s, sender);
    case Send(sender, Some(interface)) => SendMakingKeeps(s, sender, interface);
    case Allocate(interface) => AllocateKeeps(s, interface);
    case Announce(sender, id) => AnnounceKeeps(s, sender, id);
    case DestroyProxy(id) => DestroyProxyKeeps(s, id);
    case Receive => ReceiveKeeps(s);
    case CreateResource(id) => CreateResourceKeeps(s, id);
    case SendEvent(id, opcode, fds) => SendEventKeeps(s, id, opcode, fds);
    case DestroyResource(id) => DestroyResourceKeeps(s, id);
    case Read => ReadKeeps(s);
    case Dispatch => DispatchKeeps(s);
  }

  ghost predicate RunAllowed(s: State, acts: seq<Act>)
    decreases |acts|
  {
    acts != [] ==> Allowed(s, acts[0]) && RunAllowed(Step(s, acts[0]), acts[1..])
  }

  ghost function Run(s: State, acts: seq<Act>): State
    requires RunAllowed(s, acts)
    decreases |acts|
  {
    if acts == [] then s else Run(Step(s, acts[0]), acts[1..])
  }

  ghost predicate Reachable(display: Interface, s: State) {
    exists acts :: RunAllowed(Start(display), acts) && Run(Start(display), acts) == s
  }

  lemma {:induction false} RunKeeps(s: State, acts: seq<Act>)
    requires Invariant(s) && RunAllowed(s, acts)
    ensures Invariant(Run(s, acts))
    decreases |acts|
  {
    if acts != [] {
      StepKeeps(s, acts[0]);
      RunKeeps(Step(s, acts[0]), acts[1..]);
    }
  }

  lemma ReachableInvariant(display: Interface, s: State)
    requires Reachable(display, s)
    ensures Invariant(s)
  {
    var acts :| RunAllowed(Start(display), acts) && Run(Start(display), acts) == s;
    StartInvariant(display);
    RunKeeps(Start(display), acts);
  }

  // ---------- Requests in sequence ----------

  /** A new id is announced in sequence if all the ids below it have been announced. */
  ghost predicate InSequence(s: State, act: Act)
    requires Allowed(s, act)
  {
    match act
    case Announce(_, id) => AllBelow(id, s.sent)
    case Send(_, Some(interface)) => AllBelow(AllocateStep(s, interface).1, s.sent)
    case _ => true
  }

  ghost predicate AllBelow(id: nat, sent: set<nat>) {
    forall j: nat | j < id :: j in sent
  }

  ghost predicate AllInSequence(s: State, acts: seq<Act>)
    requires RunAllowed(s, acts)
    decreases |acts|
  {
    acts != [] ==> InSequence(s, acts[0]) && AllInSequence(Step(s, acts[0]), acts[1..])
  }

  /** No request on its way will be refused for its new id, unless a later one spoils it. */
  ghost predicate Acceptable(s: State) {
    InOrder(|s.server.peer|, s.requests)
  }

  /** Exactly the ids announced are within the server's table when all requests have come. */
  ghost predicate Abreast(s: State) {
    Acceptable(s) && forall j: nat :: j in s.sent <==> j < Grown(|s.server.peer|, s.requests)
  }

  lemma {:induction false} GrownAppend(size: nat, requests: seq<Request>, r: Request)
    ensures InOrder(size, requests + [r])
      <==> InOrder(size, requests) && (r.made.Some? ==> r.made.value.id <= Grown(size, requests))
    ensures Grown(size, requests + [r])
      == Grown(size, requests) + if r.made.Some? && r.made.value.id == Grown(size, requests) then 1 else 0
    decreases |requests|
  {
    if requests == [] {
      assert requests + [r] == [r] && [r][1..] == [];
    } else {
      var next := if requests[0].made.Some? && requests[0].made.value.id == size then size + 1 else size;
      GrownAppend(next, requests[1..], r);
      assert (requests + [r])[1..] == requests[1..] + [r];
    }
  }

  /** A request joins those on their way. */
  ghost predicate Joins(s: State, s': State, r: Request) {
    && s'.requests == s.requests + [r] && |s'.server.peer| == |s.server.peer|
    && s'.sent == s.sent + if r.made.Some? then {r.made.value.id} else {}
  }

  lemma JoiningInSequence(s: State, s': State, r: Request)
    requires Joins(s, s', r)
    ensures Abreast(s) ==> (Acceptable(s') <==> (r.made.Some? ==> AllBelow(r.made.value.id, s.sent)))
    ensures Abreast(s) && Acceptable(s') ==> Abreast(s')
    ensures !Acceptable(s) ==> !Acceptable(s')
  {
    GrownAppend(|s.server.peer|, s.requests, r);
    if r.made.Some? && Abreast(s) && AllBelow(r.made.value.id, s.sent) {
      assert r.made.value.id > 0 ==> r.made.value.id - 1 in s.sent;
    }
  }

  ghost predicate Unchanged(s: State, s': State) {
    s'.requests == s.requests && |s'.server.peer| == |s.server.peer| && s'.sent == s.sent
  }

  lemma SendJoins(s: State, sender: nat, made: Option<Interface>)
    requires Shaped(s) && Guard(s, Send(sender, made))
    ensures made.None? ==> Joins(s, SendStep(s, sender, made), Request(sender, ProxyAt(s, sender), None))
    ensures made.Some? ==>
      var (s1, id) := AllocateStep(s, made.value);
      if id == 0 then Unchanged(s, SendStep(s, sender, made))
      else IsProxy(s1, sender) && IsProxy(s1, id)
           && Joins(s, SendStep(s, sender, made),
                    Request(sender, ProxyAt(s1, sender), Some(Made(id, ProxyAt(s1, id)))))
  {
  }

  lemma QuietStep(s: State, act: Act)
    requires Invariant(s) && Allowed(s, act) && !act.Send? && !act.Announce? && !act.Receive?
    ensures Unchanged(s, Step(s, act))
  {
    match act
    case CreateResource(id) => CreateIsQuiet(s, id);
    case DestroyResource(id) => DestroyIsQuiet(s, id);
    case _ =>
  }

  lemma DestroyIsQuiet(s: State, id: nat)
    requires Invariant(s) && Guard(s, DestroyResource(id))
    ensures Unchanged(s, DestroyResourceStep(s, id))
  {
    ResourceIsLatest(s, id);
  }

  lemma CreateIsQuiet(s: State, id: nat)
    requires Invariant(s) && Guard(s, CreateResource(id))
    ensures Unchanged(s, CreateResourceStep(s, id))
  {
    assert SlotOk(id, s.client.own[id], s.owner[id], s.stage[id], s.incs, s.deleted);
  }

  lemma ReceiveInSequence(s: State)
    requires Invariant(s) && Allowed(s, Receive)
    ensures Abreast(s) ==> Abreast(Step(s, Receive)) && Step(s, Receive).status != RefusedNewId
    ensures !Acceptable(s) ==> !Acceptable(Step(s, Receive))
    ensures Step(s, Receive).status == RefusedNewId ==> !Acceptable(s)
  {
    if s.requests[0].made.Some? && Lookup(s.server, s.requests[0].sender) != None {
      ReceiveNewId(s);
    }
  }

  lemma ReceiveNewId(s: State)
    requires Invariant(s) && Allowed(s, Receive) && s.requests[0].made.Some?
    requires Lookup(s.server, s.requests[0].sender) != None
    ensures var id, s', size := s.requests[0].made.value.id, ReceiveStep(s), |s.server.peer|;
            if id <= size
            then s'.requests == s.requests[1..] && |s'.server.peer| == (if id == size then size + 1 else size)
                 && s'.sent == s.sent && s'.status == Fine
            else s' == s.(status := RefusedNewId)
  {
    NewIdReserved(s);
  }

  /** From a state where all is well one act spoils it exactly if it announces an id out
      of sequence, and nothing puts that right again. */
  lemma StepInSequence(s: State, act: Act)
    requires Invariant(s) && Allowed(s, act)
    ensures Abreast(s) ==> (Acceptable(Step(s, act)) <==> InSequence(s, act))
    ensures Abreast(s) && InSequence(s, act) ==> Abreast(Step(s, act))
    ensures !Acceptable(s) ==> !Acceptable(Step(s, act))
  {
    match act
    case Send(sender, made) =>
      SendJoins(s, sender, made);
      if made.None? {
        JoiningInSequence(s, Step(s, act), Request(sender, ProxyAt(s, sender), None));
      } else {
        var (s1, id) := AllocateStep(s, made.value);
        if id != 0 {
          JoiningInSequence(s, Step(s, act),
                            Request(sender, ProxyAt(s1, sender), Some(Made(id, ProxyAt(s1, id)))));
        }
      }
    case Announce(sender, id) =>
      JoiningInSequence(s, Step(s, act), Request(sender, ProxyAt(s, sender), Some(Made(id, ProxyAt(s, id)))));
    case Receive => ReceiveInSequence(s);
    case _ => QuietStep(s, act);
  }

  lemma {:induction false} RunInSequence(s: State, acts: seq<Act>)
    requires Invariant(s) && RunAllowed(s, acts)
    ensures Abreast(s) ==> (Acceptable(Run(s, acts)) <==> AllInSequence(s, acts))
    ensures !Acceptable(s) ==> !Acceptable(Run(s, acts))
    decreases |acts|
  {
    if acts != [] {
      StepKeeps(s, acts[0]);
      StepInSequence(s, acts[0]);
      RunInSequence(Step(s, acts[0]), acts[1..]);
    }
  }

  /** A run that has been refused a new id stands still before that id. */
  ghost predicate RefusedAtHead(s: State) {
    s.status == RefusedNewId ==> !Acceptable(s)
  }

  /** Only taking a request can end in a refusal. */
  lemma OnlyReceiveRefuses(s: State, act: Act)
    requires Allowed(s, act) && !act.Receive?
    ensures Step(s, act).status != RefusedNewId
  {
  }

  lemma RefusedStep(s: State, act: Act)
    requires Invariant(s) && Allowed(s, act)
    ensures RefusedAtHead(Step(s, act))
  {
    if act == Receive {
      ReceiveInSequence(s);
    } else {
      OnlyReceiveRefuses(s, act);
    }
  }

  lemma {:induction false} RefusedIsAtHead(s: State, acts: seq<Act>)
    requires Invariant(s) && RefusedAtHead(s) && RunAllowed(s, acts)
    ensures RefusedAtHead(Run(s, acts))
    decreases |acts|
  {
    if acts != [] {
      StepKeeps(s, acts[0]);
      RefusedStep(s, acts[0]);
      RefusedIsAtHead(Step(s, acts[0]), acts[1..]);
    }
  }

  lemma StartIsAbreast(display: Interface)
    ensures Invariant(Start(display)) && Abreast(Start(display)) && RefusedAtHead(Start(display))
  {
    StartInvariant(display);
    assert Grown(2, []) == 2;
  }

  lemma NothingWaits(s: State)
    requires s.requests == []
    ensures Acceptable(s)
  {
  }

  /** In every run: the server refuses no new id as long as the ids are announced in
      sequence; and after one out of sequence the requests never all get through. Once
      all have been taken, or one has been refused, refusal and sequence decide each other. */
  lemma RefusedIffOutOfSequence(display: Interface, acts: seq<Act>)
    requires RunAllowed(Start(display), acts)
    ensures var s := Run(Start(display), acts);
            && (AllInSequence(Start(display), acts) ==> s.status != RefusedNewId)
            && (!AllInSequence(Start(display), acts) ==> s.requests != [])
            && (s.requests == [] || s.status == RefusedNewId ==>
                  (s.status == RefusedNewId <==> !AllInSequence(Start(display), acts)))
  {
    StartIsAbreast(display);
    var start := Start(display);
    RunInSequence(start, acts);
    RefusedIsAtHead(start, acts);
    if Run(start, acts).requests == [] {
      NothingWaits(Run(start, acts));
    }
  }

  /** In a run in sequence the next request's new id is one the server takes. */
  lemma NewIdsAreAccepted(display: Interface, acts: seq<Act>)
    requires RunAllowed(Start(display), acts) && AllInSequence(Start(display), acts)
    ensures var s := Run(Start(display), acts);
            && s.status != RefusedNewId && s.status != BadEvent
            && (s.requests != [] && s.requests[0].made.Some? ==>
                  ReserveNew(s.server, s.requests[0].made.value.id).1 == None)
  {
    StartIsAbreast(display);
    var start := Start(display);
    RunInSequence(start, acts);
    RefusedIsAtHead(start, acts);
    RunKeeps(start, acts);
    HeadIsAccepted(Run(start, acts));
  }

  lemma HeadIsAccepted(s: State)
    requires Invariant(s) && Acceptable(s)
    ensures s.requests != [] && s.requests[0].made.Some? ==>
      ReserveNew(s.server, s.requests[0].made.value.id).1 == None
  {
    if s.requests != [] && s.requests[0].made.Some? {
      NewIdAcceptedIff(s);
    }
  }

  /** Every proxy is announced as it is made. */
  predicate Atomic(act: Act) {
    !act.Allocate? && !act.Announce?
  }

  ghost predicate Announced(s: State) {
    forall j: nat :: j in s.sent <==> j < |s.client.own| && j <= MAX_OBJECTS
  }

  lemma AtomicStep(s: State, act: Act)
    requires Invariant(s) && Announced(s) && Allowed(s, act) && Atomic(act)
    ensures InSequence(s, act) && Announced(Step(s, act))
  {
    match act
    case Send(sender, Some(interface)) => AtomicSend(s, sender, interface);
    case _ => TableStands(s, act);
  }

  lemma AtomicSend(s: State, sender: nat, interface: Interface)
    requires Invariant(s) && Announced(s) && Guard(s, Send(sender, Some(interface)))
    ensures AllBelow(AllocateStep(s, interface).1, s.sent)
    ensures Announced(SendStep(s, sender, Some(interface)))
  {
    SendJoins(s, sender, Some(interface));
    if s.client.free != [] {
      FreeIdIsDone(s);
    }
  }

  /** Only what takes an id makes the client's table grow. */
  lemma TableStands(s: State, act: Act)
    requires Allowed(s, act) && Atomic(act) && !(act.Send? && act.made.Some?)
    ensures |Step(s, act).client.own| == |s.client.own| && Step(s, act).sent == s.sent
  {
    if act.DestroyProxy? {
      DestroyStands(s, act.id);
    }
  }

  lemma DestroyStands(s: State, id: nat)
    requires Shaped(s) && Guard(s, DestroyProxy(id))
    ensures |DestroyProxyStep(s, id).client.own| == |s.client.own| && DestroyProxyStep(s, id).sent == s.sent
  {
  }

  /** Requests that announce their new object as they make it are always in sequence. */
  lemma {:induction false} AtomicIsInSequence(s: State, acts: seq<Act>)
    requires Invariant(s) && Announced(s) && RunAllowed(s, acts) && forall act <- acts :: Atomic(act)
    ensures AllInSequence(s, acts)
    decreases |acts|
  {
    if acts != [] {
      assert acts[0] in acts;
      StepKeeps(s, acts[0]);
      AtomicStep(s, acts[0]);
      AtomicIsInSequence(Step(s, acts[0]), acts[1..]);
    }
  }

  /** So as long as no proxy is made without its request, the server takes every new id. */
  lemma AtomicRequestsAreAccepted(display: Interface, acts: seq<Act>)
    requires RunAllowed(Start(display), acts) && forall act <- acts :: Atomic(act)
    ensures Run(Start(display), acts).status != RefusedNewId && AllInSequence(Start(display), acts)
  {
    StartInvariant(display);
    AtomicIsInSequence(Start(display), acts);
    NewIdsAreAccepted(display, acts);
  }

  /** In every interleaving an event is delivered to the incarnation the server meant if
      that still lives, and discarded if it has been destroyed; never does it reach a
      later one that has got the same id. */
  lemma EventsReachTheirIncarnation(display: Interface, s: State)
    requires Reachable(display, s) && s.events != [] && s.events[0].Event?
    ensures var e := s.events[0];
            && e.meant < |s.incs| && s.incs[e.meant].id == e.id
            && FateOf(s, e.id, e.opcode) ==
               if Lives(s, e.meant) then Delivered(e.meant, |e.sent|) else Discarded(|e.sent|)
  {
    ReachableInvariant(display, s);
    FateOfEvent(s);
    var e := s.events[0];
    assert SlotOk(e.id, s.client.own[e.id], s.owner[e.id], s.stage[e.id], s.incs, s.deleted);
  }

  /** The client has not destroyed this object. */
  predicate Lives(s: State, inc: nat) {
    inc < |s.incs| && var id := s.incs[inc].id; IsProxy(s, id) && ProxyAt(s, id) == inc
  }

  /** In every interleaving the descriptors on the way are those of the events on the
      way: whatever becomes of an event, its own descriptors go with it, and none else. */
  lemma FdsStayInStep(display: Interface, s: State)
    requires Reachable(display, s)
    ensures s.fds == SentWith(s.events)
    ensures s.events != [] && s.events[0].Event? && s.status == Fine ==>
      s.events[0].sent <= s.fds && Allowed(s, Read) && Step(s, Read).fds == s.fds[|s.events[0].sent|..]
  {
    ReachableInvariant(display, s);
    if s.events != [] && s.events[0].Event? && s.status == Fine {
      FateOfEvent(s);
    }
  }

  /** A request reaches the incarnation the client meant, or none. */
  lemma RequestsReachTheirIncarnation(display: Interface, s: State)
    requires Reachable(display, s) && s.requests != []
    ensures var r := s.requests[0];
            IsResource(s, r.sender) ==> ResourceAt(s, r.sender) == r.meant
  {
    ReachableInvariant(display, s);
    var r := s.requests[0];
    if IsResource(s, r.sender) {
      ResourceIsLatest(s, r.sender);
    }
  }

  /** The server only lets go of ids the client still knows: as a proxy or a zombie. */
  lemma DeletedIdIsKnown(display: Interface, s: State)
    requires Reachable(display, s) && s.queue != []
    ensures var id := s.queue[0]; IsProxy(s, id) || LookupFlag(s.client, id)
  {
    ReachableInvariant(display, s);
    var id := s.queue[0];
    assert SlotOk(id, s.client.own[id], s.owner[id], s.stage[id], s.incs, s.deleted);
  }

  // ---------- A crossing ----------

  /** One more allowed step. */
  lemma ReachableStep(display: Interface, s: State, act: Act)
    requires Reachable(display, s) && Guard(s, act)
    ensures Allowed(s, act) && Reachable(display, Step(s, act))
  {
    ReachableInvariant(display, s);
    var acts :| RunAllowed(Start(display), acts) && Run(Start(display), acts) == s;
    RunOneMore(Start(display), acts, act);
  }

  lemma {:induction false} RunOneMore(s: State, acts: seq<Act>, act: Act)
    requires RunAllowed(s, acts) && Allowed(Run(s, acts), act)
    ensures RunAllowed(s, acts + [act]) && Run(s, acts + [act]) == Step(Run(s, acts), act)
    decreases |acts|
  {
    if acts == [] {
      assert acts + [act] == [act] && [act][1..] == [];
    } else {
      RunOneMore(Step(s, acts[0]), acts[1..], act);
      assert (acts + [act])[1..] == acts[1..] + [act];
    }
  }

  lemma StartIsReachable(display: Interface)
    ensures Reachable(display, Start(display))
  {
    assert RunAllowed(Start(display), []) && Run(Start(display), []) == Start(display);
  }

  /** States in which a single object has been made, with id 2. */
  ghost function Scene(display: Interface, interface: Interface, slot: Slot<Held>, peer: seq<Slot<nat>>,
                       promised: map<nat, nat>, requests: seq<Request>, events: seq<Event>, fds: seq<nat>,
                       stage: Stage): State {
    State(Fine, IdMap(Client, [Live(None, false), Live(Some(Proxy(0)), false), slot], [], []), {}, [],
          IdMap(Server, [], [], [Live(None, false), Live(Some(0), false)] + peer), promised, requests, events, fds,
          [Incarnation(1, display), Incarnation(2, interface)], [0, 0, 1], [NoObject, Resource, stage],
          {0, 1, 2})
  }

  const MADE := Slot.Live(Some(Proxy(1)), false)

  lemma SceneRequested(display: Interface, interface: Interface)
    ensures Reachable(display, Scene(display, interface, MADE, [], map[], [Request(1, 0, Some(Made(2, 1)))], [], [],
                                     Requested))
  {
    StartIsReachable(display);
    var s := Start(display);
    ReachableStep(display, s, Send(1, Some(interface)));
    assert Step(s, Send(1, Some(interface)))
      == Scene(display, interface, MADE, [], map[], [Request(1, 0, Some(Made(2, 1)))], [], [], Requested);
  }

  lemma SceneReserved(display: Interface, interface: Interface)
    ensures Reachable(display, Scene(display, interface, MADE, [Live(None, false)], map[2 := 1], [], [], [], Reserved))
  {
    SceneRequested(display, interface);
    var s := Scene(display, interface, MADE, [], map[], [Request(1, 0, Some(Made(2, 1)))], [], [], Requested);
    ReachableStep(display, s, Receive);
    assert Step(s, Receive)
      == Scene(display, interface, MADE, [Live(None, false)], map[2 := 1], [], [], [], Reserved);
  }

  lemma SceneCreated(display: Interface, interface: Interface)
    ensures Reachable(display, Scene(display, interface, MADE, [Live(Some(1), false)], map[], [], [], [], Resource))
  {
    SceneReserved(display, interface);
    var s := Scene(display, interface, MADE, [Live(None, false)], map[2 := 1], [], [], [], Reserved);
    ReachableStep(display, s, CreateResource(2));
    assert Step(s, CreateResource(2))
      == Scene(display, interface, MADE, [Live(Some(1), false)], map[], [], [], [], Resource);
  }

  lemma SceneSent(display: Interface, interface: Interface, fd: nat)
    requires |interface| == 1 && EventFds(interface, 0) == 1
    ensures Reachable(display, Scene(display, interface, MADE, [Live(Some(1), false)], map[], [],
                                     [Event(2, 0, 1, [fd])], [fd], Resource))
  {
    SceneCreated(display, interface);
    var s := Scene(display, interface, MADE, [Live(Some(1), false)], map[], [], [], [], Resource);
    ReachableStep(display, s, SendEvent(2, 0, [fd]));
    assert Step(s, SendEvent(2, 0, [fd]))
      == Scene(display, interface, MADE, [Live(Some(1), false)], map[], [], [Event(2, 0, 1, [fd])], [fd], Resource);
  }

  /** Two proxies made one after the other, of which the server knows nothing. */
  ghost function TwoMade(display: Interface, interface: Interface): State {
    State(Fine,
          IdMap(Client, [Live(None, false), Live(Some(Proxy(0)), false), MADE, Live(Some(Proxy(2)), false)], [], []),
          {}, [], IdMap(Server, [], [], [Live(None, false), Live(Some(0), false)]), map[], [], [], [],
          [Incarnation(1, display), Incarnation(2, interface), Incarnation(3, interface)], [0, 0, 1, 2],
          [NoObject, Resource, Unsent, Unsent], {0, 1})
  }

  lemma SceneUnsent(display: Interface, interface: Interface)
    ensures Reachable(display, Scene(display, interface, MADE, [], map[], [], [], [], Unsent).(sent := {0, 1}))
  {
    StartIsReachable(display);
    ReachableStep(display, Start(display), Allocate(interface));
    assert Step(Start(display), Allocate(interface))
      == Scene(display, interface, MADE, [], map[], [], [], [], Unsent).(sent := {0, 1});
  }

  lemma TwoMadeIsReachable(display: Interface, interface: Interface)
    ensures Reachable(display, TwoMade(display, interface))
  {
    SceneUnsent(display, interface);
    var s := Scene(display, interface, MADE, [], map[], [], [], [], Unsent).(sent := {0, 1});
    ReachableStep(display, s, Allocate(interface));
    assert Step(s, Allocate(interface)) == TwoMade(display, interface);
  }

  /** The second is announced first, and refused. */
  lemma OutOfSequenceIsRefused(display: Interface, interface: Interface) returns (s: State)
    ensures Reachable(display, s) && s.status == RefusedNewId
    ensures s.requests == [Request(1, 0, Some(Made(3, 2)))] && |s.server.peer| == 2
  {
    TwoMadeIsReachable(display, interface);
    var made := TwoMade(display, interface);
    ReachableStep(display, made, Announce(1, 3));
    s := Step(made, Announce(1, 3));
    ReachableInvariant(display, s);
    ReceiveNewId(s);
    ReachableStep(display, s, Receive);
    s := Step(s, Receive);
  }

  /** Messages do cross: an event with a descriptor can be on its way to an object that
      the client has destroyed. It is discarded, with its descriptor. */
  lemma EventForZombie(display: Interface, interface: Interface, fd: nat) returns (s: State)
    requires |interface| == 1 && EventFds(interface, 0) == 1
    ensures Reachable(display, s) && s.events == [Event(2, 0, 1, [fd])] && !Lives(s, 1)
    ensures FateOf(s, 2, 0) == Discarded(1)
  {
    SceneSent(display, interface, fd);
    var before := Scene(display, interface, MADE, [Live(Some(1), false)], map[], [],
                        [Event(2, 0, 1, [fd])], [fd], Resource);
    ReachableStep(display, before, DestroyProxy(2));
    s := Step(before, DestroyProxy(2));
    ReachableInvariant(display, s);
    FateOfEvent(s);
  }
}
