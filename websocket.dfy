/**
 * The socket layer of the server: which session each client is viewing
 * (`clientSessions`, socket id to session id, a JS map), how the session manager's
 * events reach the clients, and the handlers of the clients' requests. A socket is
 * its id; what the server sends is appended to `outbox`, addressed to one socket or
 * to every client (`io.emit`).
 */
module WebSocket {
  import opened Wrappers
  import opened JsMaps
  import opened Text
  import opened Patterns
  import opened Escapes
  import opened Classifier
  import opened SessionIndex
  import opened Launch
  import opened Registry
  import opened Manager

  type SocketId = string

  /** A worktree as the worktree service lists it; only its path is read here. */
  datatype Worktree = Worktree(path: string, branch: string, isMainWorktree: bool, isCurrent: bool)

  /** A worktree together with the session shown for it, if any. */
  datatype WorktreeView = WorktreeView(worktree: Worktree, session: Option<SessionInfo>)

  /** What the server sends, by event name. */
  datatype Payload =
    | Output(sessionId: SessionId, data: string)                                    // session:output
    | Restore(sessionId: SessionId, history: string)                                // session:restore
    | CreatedNotice(session: SessionInfo)                                           // session:created
    | StateChangedNotice(session: SessionInfo)                                      // session:stateChanged
    | DestroyedNotice(sessionId: SessionId)                                         // session:destroyed
    | WorktreesUpdated(worktrees: seq<WorktreeView>)                                // worktrees:updated
    | SessionsList(sessions: seq<SessionInfo>)                                      // sessions:list
    | SwitchTabAck(sessionId: SessionId, sessionType: SessionType, worktreePath: string) // session:switchTab:ack
    | ErrorNotice(message: string)                                                  // error

  /** `socket.emit` to one client, or `io.emit` to all. */
  datatype Message = ToSocket(socket: SocketId, payload: Payload) | ToAll(payload: Payload)

  /** A `session:restore` request: a bare session id, or an object whose fields may be missing. */
  datatype RestoreQuery =
    | ById(id: SessionId)
    | ByFields(sessionId: Option<SessionId>, worktreePath: Option<string>, sessionType: Option<SessionType>)

  /** The type `createSession` falls back to when the request names none. */
  function DefaultType(sessionType: Option<SessionType>): SessionType {
    if sessionType.Some? then sessionType.value else Claude
  }

  // ---- The worktree join ----

  /** The position of the first session whose worktree is `path`. */
  function FindIndex(sessions: seq<SessionInfo>, path: string): (r: Option<nat>)
    ensures r.Some? ==>
      && r.value < |sessions| && sessions[r.value].worktreePath == path
      && forall j | 0 <= j < r.value :: sessions[j].worktreePath != path
    ensures r.None? <==> forall j | 0 <= j < |sessions| :: sessions[j].worktreePath != path
    decreases |sessions|
  {
    if sessions == [] then None
    else if sessions[0].worktreePath == path then Some(0)
    else
      match FindIndex(sessions[1..], path)
      case None => None
      case Some(i) => Some(i + 1)
  }

  /** `sessions.find(s => s.worktreePath === path)` */
  function FindByPath(sessions: seq<SessionInfo>, path: string): (r: Option<SessionInfo>)
    ensures r.None? <==> forall j | 0 <= j < |sessions| :: sessions[j].worktreePath != path
    ensures r.Some? ==> r.value.worktreePath == path && r.value in sessions
  {
    match FindIndex(sessions, path)
    case None => None
    case Some(i) => Some(sessions[i])
  }

  /** `getWorktreesWithSessions`: each worktree, in order, with the first session of its path. */
  function WorktreesWithSessions(worktrees: seq<Worktree>, sessions: seq<SessionInfo>): (views: seq<WorktreeView>)
    ensures |views| == |worktrees|
    decreases |worktrees|
  {
    if worktrees == [] then []
    else
      var last := worktrees[|worktrees| - 1];
      WorktreesWithSessions(worktrees[..|worktrees| - 1], sessions) + [WorktreeView(last, FindByPath(sessions, last.path))]
  }

  /** The join's entry at a position is that worktree with the session `find` picks for its path. */
  lemma {:induction false} JoinEntry(worktrees: seq<Worktree>, sessions: seq<SessionInfo>, i: nat)
    requires i < |worktrees|
    ensures WorktreesWithSessions(worktrees, sessions)[i] == WorktreeView(worktrees[i], FindByPath(sessions, worktrees[i].path))
    decreases |worktrees|
  {
    if i < |worktrees| - 1 {
      JoinEntry(worktrees[..|worktrees| - 1], sessions, i);
    }
  }

  /**
   * One entry per worktree in the service's order, the worktree kept whole; its session
   * is the first listed session with that path, and there is none exactly when no
   * session has that path.
   */
  lemma JoinFindsFirst(worktrees: seq<Worktree>, sessions: seq<SessionInfo>, i: nat)
    requires i < |worktrees|
    ensures var v := WorktreesWithSessions(worktrees, sessions)[i];
      && v.worktree == worktrees[i]
      && (v.session.None? <==> forall j | 0 <= j < |sessions| :: sessions[j].worktreePath != worktrees[i].path)
      && (v.session.Some? ==> exists j | 0 <= j < |sessions| ::
            && sessions[j] == v.session.value && sessions[j].worktreePath == worktrees[i].path
            && forall k | 0 <= k < j :: sessions[k].worktreePath != worktrees[i].path)
  {
    JoinEntry(worktrees, sessions, i);
    var found := FindIndex(sessions, worktrees[i].path);
    if found.Some? {
      var j := found.value;
      assert sessions[j] == WorktreesWithSessions(worktrees, sessions)[i].session.value;
    }
  }

  // ---- Fan-out ----

  /**
   * The messages of one fan-out over `clientSessions.entries()` (in the map's order):
   * one per connected socket whose entry is the session.
   */
  function FanOutMessages(entries: seq<SocketId>, clients: map<SocketId, SessionId>, connected: set<SocketId>,
                          id: SessionId, p: Payload): seq<Message>
    decreases |entries|
  {
    if entries == [] then []
    else
      var socket := entries[|entries| - 1];
      FanOutMessages(entries[..|entries| - 1], clients, connected, id, p) +
        if socket in clients && clients[socket] == id && socket in connected then [ToSocket(socket, p)] else []
  }

  /** A fan-out reaches exactly the connected sockets whose entry is the session, with the one payload. */
  lemma {:induction false} FanOutExact(entries: seq<SocketId>, clients: map<SocketId, SessionId>, connected: set<SocketId>,
                                       id: SessionId, p: Payload)
    ensures var ms := FanOutMessages(entries, clients, connected, id, p);
      && (forall m | m in ms ::
            m.ToSocket? && m.payload == p && m.socket in entries &&
            m.socket in clients && clients[m.socket] == id && m.socket in connected)
      && (forall s | s in entries && s in clients && clients[s] == id && s in connected :: ToSocket(s, p) in ms)
    decreases |entries|
  {
    if entries != [] {
      var init := entries[..|entries| - 1];
      FanOutExact(init, clients, connected, id, p);
      assert entries == init + [entries[|entries| - 1]];
    }
  }

  /** Over duplicate-free entries, no socket gets the same message twice. */
  lemma {:induction false} FanOutOnce(entries: seq<SocketId>, clients: map<SocketId, SessionId>, connected: set<SocketId>,
                                      id: SessionId, p: Payload)
    requires Distinct(entries)
    ensures Distinct(FanOutMessages(entries, clients, connected, id, p))
    decreases |entries|
  {
    if entries != [] {
      var init := entries[..|entries| - 1];
      var socket := entries[|entries| - 1];
      DistinctPrefix(entries);
      FanOutOnce(init, clients, connected, id, p);
      FanOutExact(init, clients, connected, id, p);
      var earlier := FanOutMessages(init, clients, connected, id, p);
      if socket in clients && clients[socket] == id && socket in connected {
        assert ToSocket(socket, p) !in earlier;
        DistinctAppend(earlier, ToSocket(socket, p));
      } else {
        assert FanOutMessages(entries, clients, connected, id, p) == earlier + [] == earlier;
      }
    }
  }

  /**
   * After a socket's entry moves to another session, no fan-out for the session it
   * left reaches it any more.
   */
  lemma SwitchStopsOutput(clients: JsMap<SocketId, SessionId>, connected: set<SocketId>, socket: SocketId,
                          left: SessionId, now: SessionId, p: Payload)
    requires clients.Valid() && left != now
    ensures var c := clients.Set(socket, now);
      ToSocket(socket, p) !in FanOutMessages(c.keys, c.m, connected, left, p)
  {
    var c := clients.Set(socket, now);
    FanOutExact(c.keys, c.m, connected, left, p);
  }

  /** The `session:restore` payload: the history chunks joined in order, then filtered. */
  function RestorePayload(history: seq<string>): string {
    FilterProblematicSequences(Concat(history))
  }

  /** A history free of escape characters is replayed exactly as it was received. */
  lemma RestorePayloadPlain(history: seq<string>)
    requires ESC !in Concat(history)
    ensures RestorePayload(history) == Concat(history)
  {
    FilterLeavesPlainText(Concat(history));
  }

  // ---- The manager's listeners ----

  /** What the listener of one manager event sends, given the routing table when it runs. */
  function Delivery(e: Event, clients: JsMap<SocketId, SessionId>, connected: set<SocketId>, worktrees: seq<Worktree>): seq<Message> {
    match e
    case SessionCreated(s, registry) =>
      [ToAll(CreatedNotice(s)), ToAll(WorktreesUpdated(WorktreesWithSessions(worktrees, DescribeAll(registry))))]
    case SessionData(id, data) =>
      FanOutMessages(clients.keys, clients.m, connected, id, Output(id, data))
    case SessionStateChanged(s, registry) =>
      [ToAll(StateChangedNotice(s)), ToAll(WorktreesUpdated(WorktreesWithSessions(worktrees, DescribeAll(registry))))]
    case SessionDestroyed(s, registry) =>
      [ToAll(DestroyedNotice(s.id)), ToAll(WorktreesUpdated(WorktreesWithSessions(worktrees, DescribeAll(registry))))]
    case SessionRestore(id, history) =>
      if |history| > 0 then FanOutMessages(clients.keys, clients.m, connected, id, Restore(id, RestorePayload(history))) else []
    case SessionExit(_) => []
  }

  /** The parts joined in order. */
  function Flatten<T>(parts: seq<seq<T>>): seq<T>
    decreases |parts|
  {
    if parts == [] then [] else Flatten(parts[..|parts| - 1]) + parts[|parts| - 1]
  }

  lemma {:induction false} FlattenAppend<T>(xs: seq<seq<T>>, ys: seq<seq<T>>)
    ensures Flatten(xs + ys) == Flatten(xs) + Flatten(ys)
    decreases |ys|
  {
    if ys == [] {
      assert xs + ys == xs;
    } else {
      var init := ys[..|ys| - 1];
      FlattenAppend(xs, init);
      assert (xs + ys)[..|xs + ys| - 1] == xs + init;
    }
  }

  /** `f` applied to each element, in order. */
  function MapSeq<A, B>(f: A -> B, xs: seq<A>): (ys: seq<B>)
    ensures |ys| == |xs|
    decreases |xs|
  {
    if xs == [] then [] else MapSeq(f, xs[..|xs| - 1]) + [f(xs[|xs| - 1])]
  }

  lemma {:induction false} MapSeqAppend<A, B>(f: A -> B, xs: seq<A>, ys: seq<A>)
    ensures MapSeq(f, xs + ys) == MapSeq(f, xs) + MapSeq(f, ys)
    decreases |ys|
  {
    if ys == [] {
      assert xs + ys == xs;
    } else {
      var init := ys[..|ys| - 1];
      MapSeqAppend(f, xs, init);
      assert (xs + ys)[..|xs + ys| - 1] == xs + init;
    }
  }

  /** The listeners run for a run of events, in order: everything they send. */
  function Deliveries(es: seq<Event>, clients: JsMap<SocketId, SessionId>, connected: set<SocketId>, worktrees: seq<Worktree>): seq<Message> {
    Flatten(MapSeq(e => Delivery(e, clients, connected, worktrees), es))
  }

  /** Delivering one more event appends what its listener sends. */
  lemma DeliveriesStep(es: seq<Event>, i: nat, clients: JsMap<SocketId, SessionId>, connected: set<SocketId>, worktrees: seq<Worktree>)
    requires i < |es|
    ensures Deliveries(es[..i + 1], clients, connected, worktrees) ==
      Deliveries(es[..i], clients, connected, worktrees) + Delivery(es[i], clients, connected, worktrees)
  {
    var f := e => Delivery(e, clients, connected, worktrees);
    assert es[..i + 1] == es[..i] + [es[i]];
    MapSeqAppend(f, es[..i], [es[i]]);
    FlattenAppend(MapSeq(f, es[..i]), MapSeq(f, [es[i]]));
    assert MapSeq(f, [es[i]]) == [f(es[i])];
    assert Flatten([f(es[i])]) == f(es[i]);
  }

  /** Delivering two runs of events one after the other is delivering them together. */
  lemma DeliveriesAppend(a: seq<Event>, b: seq<Event>, clients: JsMap<SocketId, SessionId>,
                         connected: set<SocketId>, worktrees: seq<Worktree>)
    ensures Deliveries(a + b, clients, connected, worktrees) ==
      Deliveries(a, clients, connected, worktrees) + Deliveries(b, clients, connected, worktrees)
  {
    var f := e => Delivery(e, clients, connected, worktrees);
    MapSeqAppend(f, a, b);
    FlattenAppend(MapSeq(f, a), MapSeq(f, b));
  }

  /**
   * What the manager's side of `session:create` leaves, from tables `t0`, events `e0`
   * and calls `h0` to `t`, `e` and `h`: the tables, events and calls of
   * `createSession`; after a success, the path's sessions activated, their restores
   * announced, and the returned session among them, now forwarding its output.
   */
  ghost predicate CreatedAndActivated(t0: Tables, e0: seq<Event>, h0: seq<HostCall>, t: Tables, e: seq<Event>, h: seq<HostCall>,
                                      path: string, kind: SessionType, command: Command, alive: bool, spawnFailed: bool,
                                      created: CreateResult)
    requires Shaped(t0)
  {
    var mid := CreateTables(t0, path, kind, alive, spawnFailed);
    var ids := WorktreeSessionIds(mid.sessionsByWorktree, path);
    var emitted := e0 + CreateEvents(t0, path, kind, alive, spawnFailed);
    && h == h0 + CreateCalls(t0, path, kind, command, alive)
    && (created.Failed? ==> t == mid && e == emitted)
    && (created.Created? ==>
          && t == mid.(sessions := Activated(mid.sessions, ids, true))
          && e == emitted + RestoreEvents(ids, mid.sessions.m, true)
          && created.session.id in t.sessions.m
          && t.sessions.m[created.session.id].isActive)
  }

  /** The two steps of the manager's side of `session:create` compose to `CreatedAndActivated`. */
  lemma CreateThenActivate(t0: Tables, e0: seq<Event>, h0: seq<HostCall>, mid: Tables, e1: seq<Event>,
                           t: Tables, e: seq<Event>, h: seq<HostCall>,
                           path: string, kind: SessionType, command: Command, alive: bool, spawnFailed: bool,
                           created: CreateResult)
    requires Shaped(t0)
    requires mid == CreateTables(t0, path, kind, alive, spawnFailed)
    requires e1 == e0 + CreateEvents(t0, path, kind, alive, spawnFailed)
    requires h == h0 + CreateCalls(t0, path, kind, command, alive)
    requires created.Failed? ==> t == mid && e == e1
    requires created.Created? ==>
      var ids := WorktreeSessionIds(mid.sessionsByWorktree, path);
      && t == mid.(sessions := Activated(mid.sessions, ids, true))
      && e == e1 + RestoreEvents(ids, mid.sessions.m, true)
      && created.session.id in t.sessions.m && t.sessions.m[created.session.id].isActive
    ensures CreatedAndActivated(t0, e0, h0, t, e, h, path, kind, command, alive, spawnFailed, created)
  {
  }

  /**
   * Output and restore data reach only the connected sockets viewing that session,
   * each once; a restore with no history reaches nobody.
   */
  lemma DataReachesViewers(e: Event, clients: JsMap<SocketId, SessionId>, connected: set<SocketId>, worktrees: seq<Worktree>)
    requires clients.Valid() && (e.SessionData? || e.SessionRestore?)
    ensures var ms := Delivery(e, clients, connected, worktrees);
      && Distinct(ms)
      && (forall m | m in ms :: m.ToSocket? && m.socket in clients.m && clients.m[m.socket] == e.sessionId && m.socket in connected)
      && (e.SessionData? ==> forall s | s in clients.m && clients.m[s] == e.sessionId && s in connected ::
            ToSocket(s, Output(e.sessionId, e.data)) in ms)
      && (e.SessionRestore? && e.history != [] ==> forall s | s in clients.m && clients.m[s] == e.sessionId && s in connected ::
            ToSocket(s, Restore(e.sessionId, RestorePayload(e.history))) in ms)
      && (e.SessionRestore? && e.history == [] ==> ms == [])
  {
    var p := if e.SessionData? then Output(e.sessionId, e.data) else Restore(e.sessionId, RestorePayload(e.history));
    FanOutExact(clients.keys, clients.m, connected, e.sessionId, p);
    FanOutOnce(clients.keys, clients.m, connected, e.sessionId, p);
  }

  // ---- The router ----

  class Router {
    const manager: SessionManager
    /** What the worktree service lists; the service itself is not modelled. */
    const worktrees: seq<Worktree>
    var clientSessions: JsMap<SocketId, SessionId>
    var connected: set<SocketId>
    var outbox: seq<Message>

    ghost predicate Valid()
      reads this, manager
    {
      manager.Valid() && clientSessions.Valid()
    }

    constructor (manager: SessionManager, worktrees: seq<Worktree>)
      requires manager.Valid()
      ensures Valid() && this.manager == manager && this.worktrees == worktrees
      ensures clientSessions.m == map[] && connected == {} && outbox == []
    {
      this.manager := manager;
      this.worktrees := worktrees;
      clientSessions := EmptyMap();
      connected := {};
      outbox := [];
    }

    /** The listeners' loop over the routing table: `p` for each connected socket viewing `id`. */
    method FanOut(id: SessionId, p: Payload) returns (sent: seq<Message>)
      ensures sent == FanOutMessages(clientSessions.keys, clientSessions.m, connected, id, p)
    {
      var entries := clientSessions.keys;
      sent := [];
      var i := 0;
      while i < |entries|
        invariant 0 <= i <= |entries|
        invariant sent == FanOutMessages(entries[..i], clientSessions.m, connected, id, p)
      {
        var socketId := entries[i];
        assert entries[..i + 1][..i] == entries[..i];
        if socketId in clientSessions.m && clientSessions.m[socketId] == id && socketId in connected {
          sent := sent + [ToSocket(socketId, p)];
        }
        i := i + 1;
      }
      assert entries[..i] == entries;
    }

    /** The listener of one manager event: what it sends. */
    method Deliver(e: Event) returns (sent: seq<Message>)
      ensures sent == Delivery(e, clientSessions, connected, worktrees)
    {
      match e
      case SessionCreated(s, registry) =>
        sent := [ToAll(CreatedNotice(s)), ToAll(WorktreesUpdated(WorktreesWithSessions(worktrees, DescribeAll(registry))))];
      case SessionData(id, data) =>
        sent := FanOut(id, Output(id, data));
      case SessionStateChanged(s, registry) =>
        sent := [ToAll(StateChangedNotice(s)), ToAll(WorktreesUpdated(WorktreesWithSessions(worktrees, DescribeAll(registry))))];
      case SessionDestroyed(s, registry) =>
        sent := [ToAll(DestroyedNotice(s.id)), ToAll(WorktreesUpdated(WorktreesWithSessions(worktrees, DescribeAll(registry))))];
      case SessionRestore(id, history) =>
        sent := [];
        if |history| > 0 {
          sent := FanOut(id, Restore(id, RestorePayload(history)));
        }
      case SessionExit(_) =>
        sent := [];
    }

    /** The listeners run, in order, for the events the manager emitted from position `n` on. */
    method Dispatch(n: nat)
      requires n <= |manager.events|
      modifies this`outbox
      ensures outbox == old(outbox) + Deliveries(manager.events[n..], clientSessions, connected, worktrees)
    {
      var pending := manager.events[n..];
      var sent := [];
      var i := 0;
      while i < |pending|
        invariant 0 <= i <= |pending|
        invariant sent == Deliveries(pending[..i], clientSessions, connected, worktrees)
        invariant outbox == old(outbox)
      {
        DeliveriesStep(pending, i, clientSessions, connected, worktrees);
        var more := Deliver(pending[i]);
        sent := sent + more;
        i := i + 1;
      }
      assert pending[..i] == pending;
      outbox := outbox + sent;
    }

    /** The manager's event log is no shorter than `before`: what lies beyond was emitted since. */
    ghost predicate EmittedSince(before: seq<Event>)
      reads manager
    {
      |before| <= |manager.events|
    }

    // ---- Connection ----

    /** `connection`: the new client gets the worktree list and the session list. */
    method Connect(socket: SocketId)
      requires Valid()
      modifies this`connected, this`outbox
      ensures Valid() && connected == old(connected) + {socket} && clientSessions == old(clientSessions)
      ensures var all := manager.GetAllSessions();
        outbox == old(outbox) + [ToSocket(socket, WorktreesUpdated(WorktreesWithSessions(worktrees, all))), ToSocket(socket, SessionsList(all))]
    {
      connected := connected + {socket};
      var all := manager.GetAllSessions();
      outbox := outbox + [ToSocket(socket, WorktreesUpdated(WorktreesWithSessions(worktrees, all))), ToSocket(socket, SessionsList(all))];
    }

    /** `disconnect`: only this socket's entry goes; every session stays as it is. */
    method Disconnect(socket: SocketId)
      requires Valid()
      modifies this`clientSessions, this`connected
      ensures Valid()
      ensures clientSessions == old(clientSessions).Delete(socket) && connected == old(connected) - {socket}
      ensures socket !in clientSessions.m
      ensures forall s | s in old(clientSessions).m && s != socket :: s in clientSessions.m && clientSessions.m[s] == old(clientSessions).m[s]
    {
      clientSessions := clientSessions.Delete(socket);
      connected := connected - {socket};
    }

    // ---- Session requests ----

    /**
     * `session:create`: create (or reuse) the session, the type defaulting to the agent,
     * and activate its path; only then is the creating socket routed to the session. A
     * failed spawn sends that socket the error and changes no route. The listeners run
     * inside each manager call, but the routing table does not change between them, so
     * running them once afterwards sends the same messages (`DeliveriesAppend`).
     */
    method CreateRequest(socket: SocketId, path: string, sessionType: Option<SessionType>, parameters: seq<string>,
                         env: Environment, alive: bool, spawnError: Option<string>)
      returns (created: CreateResult)
      requires Valid()
      modifies this`outbox, this`clientSessions, manager`tables, manager`events, manager`hostCalls, manager`received
      ensures Valid() && EmittedSince(old(manager.events))
      ensures spawnError.None? ==> created.Created?
      ensures CreatedAndActivated(old(manager.tables), old(manager.events), old(manager.hostCalls),
                                  manager.tables, manager.events, manager.hostCalls,
                                  path, DefaultType(sessionType), LaunchCommand(DefaultType(sessionType), parameters, env),
                                  alive, spawnError.Some?, created)
      ensures created.Created? ==>
        && clientSessions == old(clientSessions).Set(socket, created.session.id)
        && manager.RegisteredAs(path, DefaultType(sessionType), created.session)
        && outbox == old(outbox) + Deliveries(manager.events[|old(manager.events)|..], old(clientSessions), connected, worktrees)
      ensures created.Failed? ==>
        && spawnError == Some(created.message)
        && clientSessions == old(clientSessions)
        && Lookup(manager.tables.sessionsByWorktree, path, DefaultType(sessionType)).None?
        && outbox == old(outbox) + Deliveries(manager.events[|old(manager.events)|..], old(clientSessions), connected, worktrees) +
             [ToSocket(socket, ErrorNotice(created.message))]
    {
      var n := |manager.events|;
      created := CreateAndActivate(path, DefaultType(sessionType), parameters, env, alive, spawnError);
      RouteCreated(socket, n, created);
    }

    /**
     * The socket's side of `session:create`: the listeners run on what the manager
     * emitted, then the socket is routed to the session or told the error.
     */
    method RouteCreated(socket: SocketId, n: nat, created: CreateResult)
      requires Valid() && n <= |manager.events|
      modifies this`outbox, this`clientSessions
      ensures Valid()
      ensures created.Created? ==>
        && clientSessions == old(clientSessions).Set(socket, created.session.id)
        && outbox == old(outbox) + Deliveries(manager.events[n..], old(clientSessions), connected, worktrees)
      ensures created.Failed? ==>
        && clientSessions == old(clientSessions)
        && outbox == old(outbox) + Deliveries(manager.events[n..], old(clientSessions), connected, worktrees) +
             [ToSocket(socket, ErrorNotice(created.message))]
    {
      Dispatch(n);
      match created
      case Failed(message) =>
        outbox := outbox + [ToSocket(socket, ErrorNotice(message))];
      case Created(session) =>
        clientSessions := clientSessions.Set(socket, session.id);
    }

    /** The manager's side of `session:create`. */
    method CreateAndActivate(path: string, kind: SessionType, parameters: seq<string>, env: Environment,
                             alive: bool, spawnError: Option<string>)
      returns (created: CreateResult)
      requires Valid()
      modifies manager`tables, manager`events, manager`hostCalls, manager`received
      ensures Valid() && EmittedSince(old(manager.events))
      ensures spawnError.None? ==> created.Created?
      ensures created.Created? ==> manager.RegisteredAs(path, kind, created.session)
      ensures created.Failed? ==> spawnError == Some(created.message) && Lookup(manager.tables.sessionsByWorktree, path, kind).None?
      ensures CreatedAndActivated(old(manager.tables), old(manager.events), old(manager.hostCalls),
                                  manager.tables, manager.events, manager.hostCalls,
                                  path, kind, LaunchCommand(kind, parameters, env), alive, spawnError.Some?, created)
    {
      ghost var t0, e0, h0 := manager.tables, manager.events, manager.hostCalls;
      created := manager.CreateSession(path, kind, parameters, env, alive, spawnError);
      ghost var mid, e1 := manager.tables, manager.events;
      if created.Created? {
        ActivateCreated(path, kind, created.session);
        CreateThenActivate(t0, e0, h0, mid, e1, manager.tables, manager.events, manager.hostCalls,
                           path, kind, LaunchCommand(kind, parameters, env), alive, spawnError.Some?, created);
      } else {
        CreateThenActivate(t0, e0, h0, mid, e1, mid, e1, manager.hostCalls,
                           path, kind, LaunchCommand(kind, parameters, env), alive, spawnError.Some?, created);
      }
    }


    /**
     * `setSessionActive(path, true)` right after `createSession`: every session of the
     * path is activated, the created one among them, which stays registered under its
     * key and now has its output forwarded.
     */
    method ActivateCreated(path: string, ghost kind: SessionType, ghost session: SessionInfo)
      requires Valid() && manager.RegisteredAs(path, kind, session)
      modifies manager`tables, manager`events
      ensures Valid() && EmittedSince(old(manager.events))
      ensures var ids := WorktreeSessionIds(old(manager.tables).sessionsByWorktree, path);
        && manager.tables == old(manager.tables).(sessions := Activated(old(manager.tables).sessions, ids, true))
        && manager.events == old(manager.events) + RestoreEvents(ids, old(manager.tables).sessions.m, true)
      ensures manager.RegisteredAs(path, kind, session)
      ensures manager.tables.sessions.m[session.id] == old(manager.tables).sessions.m[session.id].(isActive := true)
    {
      ghost var t0 := manager.tables;
      LookupIff(t0.sessions.m, t0.sessionsByWorktree, path, kind);
      ActivationTargetsPath(t0, manager.received, path, true);
      manager.SetSessionActive(path, true);
    }

    /** `session:input`: the keystrokes go to the session's process. */
    method InputRequest(sessionId: SessionId, input: string)
      requires Valid()
      modifies manager`hostCalls
      ensures Valid()
      ensures manager.hostCalls == old(manager.hostCalls) + if sessionId in manager.tables.sessions.m then [Write(sessionId, input)] else []
    {
      manager.WriteToSession(sessionId, input);
    }

    /** `session:resize`: the resize is scheduled when the session is live and the sizes pass the size check. */
    method ResizeRequest(sessionId: SessionId, cols: Dimension, rows: Dimension)
      requires Valid()
      modifies manager`tables
      ensures Valid()
      ensures sessionId !in old(manager.tables).sessions.m || !PassesSizeCheck(cols, rows) ==> manager.tables == old(manager.tables)
      ensures sessionId in old(manager.tables).sessions.m && PassesSizeCheck(cols, rows) ==>
        manager.tables == old(manager.tables).(
          resizeTimers := old(manager.tables).resizeTimers[sessionId := PendingResize(old(manager.tables).nextTimer, cols, rows)],
          nextTimer := old(manager.tables).nextTimer + 1)
    {
      manager.ResizeSession(sessionId, cols, rows);
    }

    /**
     * The session a `session:restore` request names: a bare id, or an object carrying
     * an id, is looked up by id only (an empty id counts as none); otherwise a non-empty path and a type
     * are looked up by key; anything else names nothing.
     */
    function ResolveRestore(query: RestoreQuery): (r: Option<Session>)
      reads this, manager
      requires Valid()
      ensures r.Some? ==> r.value.id in manager.tables.sessions.m && r.value == manager.tables.sessions.m[r.value.id]
      ensures query.ById? ==> (r.Some? <==> query.id in manager.tables.sessions.m) && (r.Some? ==> r.value.id == query.id)
      ensures query.ByFields? && query.sessionId.Some? ==>
        (r.Some? <==> query.sessionId.value in manager.tables.sessions.m) && (r.Some? ==> r.value.id == query.sessionId.value)
      ensures query.ByFields? && query.sessionId.None? && query.worktreePath.Some? && query.worktreePath.value != "" && query.sessionType.Some? ==>
        && (r.Some? <==> exists id | id in manager.tables.sessions.m ::
              manager.tables.sessions.m[id].worktreePath == query.worktreePath.value &&
              manager.tables.sessions.m[id].kind == query.sessionType.value)
        && (r.Some? ==> r.value.worktreePath == query.worktreePath.value && r.value.kind == query.sessionType.value)
      ensures query.ByFields? && query.sessionId.None? &&
              (query.worktreePath.None? || query.worktreePath.value == "" || query.sessionType.None?) ==>
                r.None?
    {
      match query
      case ById(id) => manager.GetSessionById(id)
      case ByFields(sessionId, worktreePath, sessionType) =>
        if sessionId.Some? then manager.GetSessionById(sessionId.value)
        else if worktreePath.Some? && worktreePath.value != "" && sessionType.Some? then manager.GetSession(worktreePath.value, sessionType)
        else None
    }

    /**
     * `session:restore`: a session it names becomes this socket's view, and its
     * history, if any, is replayed to this socket alone; otherwise nothing changes.
     */
    method RestoreRequest(socket: SocketId, query: RestoreQuery)
      requires Valid()
      modifies this`clientSessions, this`outbox
      ensures Valid()
      ensures var found := old(ResolveRestore(query));
        && (found.None? ==> clientSessions == old(clientSessions) && outbox == old(outbox))
        && (found.Some? ==>
              && clientSessions == old(clientSessions).Set(socket, found.value.id)
              && outbox == old(outbox) +
                   if |found.value.outputHistory| > 0
                   then [ToSocket(socket, Restore(found.value.id, RestorePayload(found.value.outputHistory)))] else [])
    {
      var session := ResolveRestore(query);
      if session.Some? {
        clientSessions := clientSessions.Set(socket, session.value.id);
        if |session.value.outputHistory| > 0 {
          outbox := outbox + [ToSocket(socket, Restore(session.value.id, RestorePayload(session.value.outputHistory)))];
        }
      }
    }

    /**
     * `session:setActive`: when some session has the path, the first such in creation
     * order becomes this socket's view and the path is activated; otherwise nothing
     * changes.
     */
    method SetActiveRequest(socket: SocketId, path: string)
      requires Valid()
      modifies this`clientSessions, this`outbox, manager`tables, manager`events
      ensures Valid()
      ensures EmittedSince(old(manager.events))
      ensures var target := FindByPath(old(manager.GetAllSessions()), path);
        && (target.None? ==>
              clientSessions == old(clientSessions) && outbox == old(outbox) &&
              manager.tables == old(manager.tables) && manager.events == old(manager.events))
        && (target.Some? ==>
              var ids := WorktreeSessionIds(old(manager.tables).sessionsByWorktree, path);
              && clientSessions == old(clientSessions).Set(socket, target.value.id)
              && manager.tables == old(manager.tables).(sessions := Activated(old(manager.tables).sessions, ids, true))
              && manager.events == old(manager.events) + RestoreEvents(ids, old(manager.tables).sessions.m, true)
              && outbox == old(outbox) + Deliveries(manager.events[|old(manager.events)|..], clientSessions, connected, worktrees))
    {
      var sessions := manager.GetAllSessions();
      var target := FindByPath(sessions, path);
      if target.Some? {
        clientSessions := clientSessions.Set(socket, target.value.id);
        var n := |manager.events|;
        manager.SetSessionActive(path, true);
        Dispatch(n);
      }
    }

    /**
     * `session:switchTab`: the session under the path and type becomes this socket's
     * view and is acknowledged to it; without one nothing changes. A request without
     * a type takes `getSession`'s untyped branch, the path's first session in map order.
     */
    method SwitchTab(socket: SocketId, path: string, kind: Option<SessionType>)
      requires Valid()
      modifies this`clientSessions, this`outbox
      ensures Valid()
      ensures var ids := WorktreeSessionIds(manager.tables.sessionsByWorktree, path);
        var found := if kind.Some? then Lookup(manager.tables.sessionsByWorktree, path, kind.value)
          else if ids != [] then Some(ids[0]) else None;
        && (found.None? ==> clientSessions == old(clientSessions) && outbox == old(outbox))
        && (found.Some? ==>
              && found.value in manager.tables.sessions.m
              && (kind.Some? ==> manager.tables.sessions.m[found.value].kind == kind.value)
              && clientSessions == old(clientSessions).Set(socket, found.value)
              && outbox == old(outbox) +
                   [ToSocket(socket, SwitchTabAck(found.value, manager.tables.sessions.m[found.value].kind, path))])
    {
      var session := manager.GetSession(path, kind);
      if kind.Some? {
        LookupIff(manager.tables.sessions.m, manager.tables.sessionsByWorktree, path, kind.value);
      } else {
        WorktreeSessionIdsExact(manager.tables.sessions.m, manager.tables.sessionsByWorktree, path);
      }
      if session.Some? {
        clientSessions := clientSessions.Set(socket, session.value.id);
        outbox := outbox + [ToSocket(socket, SwitchTabAck(session.value.id, session.value.kind, session.value.worktreePath))];
      }
    }

    /** `session:destroy`: `destroySessionById` with its listeners run. */
    method DestroyRequest(sessionId: SessionId)
      requires Valid()
      modifies this`outbox, manager`tables, manager`events, manager`hostCalls, manager`received
      ensures Valid()
      ensures sessionId !in manager.tables.sessions.m
      ensures clientSessions == old(clientSessions)
      ensures EmittedSince(old(manager.events))
      ensures sessionId !in old(manager.tables).sessions.m ==>
        manager.tables == old(manager.tables) && manager.events == old(manager.events) && manager.hostCalls == old(manager.hostCalls)
      ensures sessionId in old(manager.tables).sessions.m ==>
        && manager.tables == Unregister(old(manager.tables), sessionId)
        && manager.hostCalls == old(manager.hostCalls) + [Kill(sessionId)]
        && manager.events == old(manager.events) +
             [SessionDestroyed(Describe(old(manager.tables).sessions.m[sessionId]), manager.tables.sessions)]
      ensures outbox == old(outbox) + Deliveries(manager.events[|old(manager.events)|..], clientSessions, connected, worktrees)
    {
      var n := |manager.events|;
      manager.DestroySessionById(sessionId);
      Dispatch(n);
    }

    // ---- Process and timer callbacks, with the listeners run ----

    /** A chunk of output from a live session's process. */
    method ProcessOutput(sessionId: SessionId, data: string)
      requires Valid() && sessionId in manager.tables.sessions.m
      modifies this`outbox, manager`tables, manager`events, manager`received
      ensures Valid()
      ensures EmittedSince(old(manager.events))
      ensures manager.received == old(manager.received)[sessionId := old(manager.received)[sessionId] + [data]]
      ensures var s := old(manager.tables).sessions.m[sessionId];
        var buffered := BufferedTables(old(manager.tables), sessionId, data);
        var clean := StripAnsi(data);
        var forwarded := if s.isActive then [SessionData(sessionId, FilterProblematicSequences(data))] else [];
        && (IsBlank(clean) || s.kind != Claude ==> manager.tables == buffered && manager.events == old(manager.events) + forwarded)
        && (!IsBlank(clean) && s.kind == Claude ==>
              && manager.tables == ClassifiedTables(buffered, sessionId, clean)
              && manager.events == old(manager.events) + forwarded +
                   if VerdictOf(buffered, sessionId, clean).state != s.state
                   then [SessionStateChanged(Describe(manager.tables.sessions.m[sessionId]), manager.tables.sessions)] else [])
      ensures outbox == old(outbox) + Deliveries(manager.events[|old(manager.events)|..], clientSessions, connected, worktrees)
    {
      var n := |manager.events|;
      manager.OnData(sessionId, data);
      Dispatch(n);
    }

    /** A live session's process exits. */
    method ProcessExit(sessionId: SessionId)
      requires Valid() && sessionId in manager.tables.sessions.m
      modifies this`outbox, manager`tables, manager`events, manager`hostCalls, manager`received
      ensures Valid()
      ensures sessionId !in manager.tables.sessions.m
      ensures EmittedSince(old(manager.events))
      ensures var s := old(manager.tables).sessions.m[sessionId].(state := Idle);
        && manager.tables == Unregister(old(manager.tables), sessionId)
        && manager.hostCalls == old(manager.hostCalls) + [Kill(sessionId)]
        && manager.events == old(manager.events) + [SessionStateChanged(Describe(s), old(manager.tables).sessions.Set(sessionId, s))]
             + [SessionDestroyed(Describe(s), manager.tables.sessions)] + [SessionExit(Describe(s))]
      ensures outbox == old(outbox) + Deliveries(manager.events[|old(manager.events)|..], clientSessions, connected, worktrees)
    {
      var n := |manager.events|;
      manager.OnExit(sessionId);
      Dispatch(n);
    }

    /** The idle timer of a session fires. */
    method BusyTimerFired(sessionId: SessionId)
      requires Valid() && sessionId in manager.tables.busyTimers
      modifies this`outbox, manager`tables, manager`events
      ensures Valid()
      ensures EmittedSince(old(manager.events))
      ensures sessionId in old(manager.tables).sessions.m && old(manager.tables).sessions.m[sessionId].state == Busy
      ensures var s := old(manager.tables).sessions.m[sessionId].(state := Idle);
        && manager.tables == old(manager.tables).(sessions := old(manager.tables).sessions.Set(sessionId, s),
                                                  busyTimers := old(manager.tables).busyTimers - {sessionId})
        && manager.events == old(manager.events) + [SessionStateChanged(Describe(s), manager.tables.sessions)]
      ensures outbox == old(outbox) + Deliveries(manager.events[|old(manager.events)|..], clientSessions, connected, worktrees)
    {
      var n := |manager.events|;
      manager.FireBusyTimer(sessionId);
      Dispatch(n);
    }

    /** The resize timer of a session fires. */
    method ResizeTimerFired(sessionId: SessionId)
      requires Valid() && sessionId in manager.tables.resizeTimers
      modifies manager`tables, manager`hostCalls
      ensures Valid()
      ensures var p := old(manager.tables).resizeTimers[sessionId];
        && PassesSizeCheck(p.cols, p.rows)
        && manager.hostCalls == old(manager.hostCalls) + [Resize(sessionId, p.cols, p.rows)]
        && manager.tables == old(manager.tables).(resizeTimers := old(manager.tables).resizeTimers - {sessionId})
    {
      manager.FireResizeTimer(sessionId);
    }

    /** `SIGINT`/`SIGTERM`: the manager destroys everything and the listeners run. */
    method Shutdown()
      requires Valid()
      modifies this`outbox, manager`tables, manager`events, manager`hostCalls, manager`received
      ensures Valid()
      ensures manager.tables.sessions.m == map[]
      ensures EmittedSince(old(manager.events))
      ensures var d := DestroyEach(old(manager.tables).(busyTimers := map[], resizeTimers := map[]), old(manager.tables).sessions.keys);
        manager.tables == d.tables && manager.events == old(manager.events) + d.events && manager.hostCalls == old(manager.hostCalls) + d.calls
      ensures outbox == old(outbox) + Deliveries(manager.events[|old(manager.events)|..], clientSessions, connected, worktrees)
    {
      var n := |manager.events|;
      ghost var t0 := manager.tables;
      ghost var r0 := manager.received;
      manager.Destroy();
      Dispatch(n);
      DestroyAllEmpties(t0.(busyTimers := map[], resizeTimers := map[]), r0, manager.tables, manager.received);
    }
  }
}
