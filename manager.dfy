/**
 * `SessionManager`: the object that owns the session tables and updates them in
 * place. The child processes are abstract: what the manager asks of them is appended
 * to `hostCalls`, and what it announces to its listeners to `events`. Each process
 * callback (output, exit) and each timer callback is a method called explicitly.
 */
module Manager {
  import opened Wrappers
  import opened JsMaps
  import opened Text
  import opened Escapes
  import opened Classifier
  import opened OutputBuffers
  import opened SessionIndex
  import opened Launch
  import opened Registry

  class SessionManager {
    var tables: Tables
    var events: seq<Event>
    var hostCalls: seq<HostCall>
    /** Every chunk each live session has produced, in arrival order. */
    ghost var received: map<SessionId, seq<string>>

    ghost predicate Valid()
      reads this`tables, this`received
    {
      ManagerValid(tables, received)
    }

    constructor ()
      ensures Valid()
      ensures tables.sessions.m == map[] && tables.sessions.keys == [] && tables.sessionsByWorktree.m == map[]
      ensures tables.waitingWithBottomBorder == map[] && tables.busyTimers == map[] && tables.resizeTimers == map[]
      ensures events == [] && hostCalls == []
    {
      tables := Tables(EmptyMap(), EmptyMap(), map[], map[], map[], 0, 0);
      events := [];
      hostCalls := [];
      received := map[];
    }

    // ---- Queries ----

    /** `getSessionById` */
    function GetSessionById(id: SessionId): (r: Option<Session>)
      reads this
      requires Valid()
      ensures r.Some? <==> id in tables.sessions.m
      ensures r.Some? ==> r.value.id == id && r.value == tables.sessions.m[id]
    {
      tables.sessions.Get(id)
    }

    /**
     * `getSession`: with a type, the session registered under (path, type); without
     * one, the first session of the path's map in registration order.
     */
    function GetSession(path: string, kind: Option<SessionType>): (r: Option<Session>)
      reads this
      requires Valid()
      ensures kind.Some? ==>
        (r.Some? <==> exists id | id in tables.sessions.m ::
          tables.sessions.m[id].worktreePath == path && tables.sessions.m[id].kind == kind.value)
      ensures kind.Some? && r.Some? ==>
        r.value.id in tables.sessions.m && r.value == tables.sessions.m[r.value.id] &&
        r.value.worktreePath == path && r.value.kind == kind.value
      ensures kind.None? ==>
        (r.Some? <==> exists id | id in tables.sessions.m :: tables.sessions.m[id].worktreePath == path)
      ensures kind.None? && r.Some? ==>
        r.value.id in tables.sessions.m && r.value == tables.sessions.m[r.value.id] && r.value.worktreePath == path &&
        WorktreeSessionIds(tables.sessionsByWorktree, path) != [] &&
        r.value.id == WorktreeSessionIds(tables.sessionsByWorktree, path)[0]
    {
      WorktreeSessionIdsExact(tables.sessions.m, tables.sessionsByWorktree, path);
      match kind
      case Some(k) =>
        LookupIff(tables.sessions.m, tables.sessionsByWorktree, path, k);
        var found := Lookup(tables.sessionsByWorktree, path, k);
        if found.Some? then tables.sessions.Get(found.value) else None
      case None =>
        var ids := WorktreeSessionIds(tables.sessionsByWorktree, path);
        if |ids| > 0 then tables.sessions.Get(ids[0]) else None
    }

    /** `getAllSessions`: one descriptor per live session, in creation order. */
    function GetAllSessions(): (all: seq<SessionInfo>)
      reads this
      requires Valid()
      ensures |all| == |tables.sessions.keys|
      ensures forall i | 0 <= i < |all| :: all[i].id == tables.sessions.keys[i]
      ensures forall id | id in tables.sessions.m :: Describe(tables.sessions.m[id]) in all
    {
      DescribeAllLists(tables.sessions);
      DescribeAll(tables.sessions)
    }

    // ---- The classifier step ----

    /**
     * `detectSessionState`: the first rule that applies decides the new state, the
     * border flag and the idle timer; a new timer takes a fresh handle.
     */
    method DetectSessionState(cleanData: string, currentState: SessionState, sessionId: SessionId)
      returns (newState: SessionState)
      modifies this`tables
      ensures var v := Classify(cleanData, currentState, FlagOf(old(tables).waitingWithBottomBorder, sessionId));
        newState == v.state && tables == ApplyVerdict(old(tables), sessionId, v)
    {
      var t := tables;
      var hasBottomBorder := IncludesPromptBoxBottomBorder(cleanData);
      var hasWaitingPrompt := ContainsAny(cleanData, WaitingPrompts);
      var wasWaitingWithBottomBorder := FlagOf(t.waitingWithBottomBorder, sessionId);
      var hasEscToInterrupt := Contains(ToLower(cleanData), InterruptHint);
      var flags := t.waitingWithBottomBorder;
      var busy := t.busyTimers;
      var nextTimer := t.nextTimer;

      newState := currentState;
      if hasWaitingPrompt {
        newState := WaitingInput;
        flags := flags[sessionId := hasBottomBorder];
        busy := busy - {sessionId};
      } else if currentState == WaitingInput && hasBottomBorder && !hasWaitingPrompt && !wasWaitingWithBottomBorder {
        newState := WaitingInput;
        flags := flags[sessionId := true];
        busy := busy - {sessionId};
      } else if hasEscToInterrupt {
        newState := Busy;
        flags := flags[sessionId := false];
        busy := busy - {sessionId};
      } else if currentState == Busy && !hasEscToInterrupt {
        if sessionId !in busy {
          busy := busy[sessionId := nextTimer];
          nextTimer := nextTimer + 1;
        }
        newState := Busy;
      }
      tables := t.(waitingWithBottomBorder := flags, busyTimers := busy, nextTimer := nextTimer);
    }

    /**
     * The 500 ms idle timer firing: its session is still registered and busy (a
     * pending timer exists only for a busy session), so it becomes idle and the
     * change is announced; the timer's own entry always goes.
     */
    method FireBusyTimer(id: SessionId)
      requires Valid() && id in tables.busyTimers
      modifies this`tables, this`events
      ensures Valid()
      ensures id in old(tables).sessions.m && old(tables).sessions.m[id].state == Busy
      ensures var s := old(tables).sessions.m[id].(state := Idle);
        && tables == old(tables).(sessions := old(tables).sessions.Set(id, s), busyTimers := old(tables).busyTimers - {id})
        && events == old(events) + [SessionStateChanged(Describe(s), tables.sessions)]
    {
      var t := tables;
      BusyFiredKeepsValid(t, received, id);
      var sessions := t.sessions;
      var es := events;
      if id in t.sessions.m && t.sessions.m[id].state == Busy {
        var s := t.sessions.m[id].(state := Idle);
        sessions := t.sessions.Set(id, s);
        es := es + [SessionStateChanged(Describe(s), sessions)];
      }
      tables := t.(sessions := sessions, busyTimers := t.busyTimers - {id});
      events := es;
    }

    // ---- Activation ----

    /**
     * `setSessionActive`: every session of the path, in the order of the path's map,
     * takes the flag; when activating, each with a history is announced for restore.
     */
    method SetSessionActive(path: string, active: bool)
      requires Valid()
      modifies this`tables, this`events
      ensures Valid()
      ensures var ids := WorktreeSessionIds(old(tables).sessionsByWorktree, path);
        && tables == old(tables).(sessions := Activated(old(tables).sessions, ids, active))
        && events == old(events) + RestoreEvents(ids, old(tables).sessions.m, active)
    {
      var ids := WorktreeSessionIds(tables.sessionsByWorktree, path);
      var t0, e0 := tables, events;
      var sessions, emitted := t0.sessions, [];
      var i := 0;
      while i < |ids|
        invariant 0 <= i <= |ids|
        invariant sessions == Activated(t0.sessions, ids[..i], active)
        invariant emitted == RestoreEvents(ids[..i], t0.sessions.m, active)
      {
        sessions, emitted := ActivateNext(t0.sessions, ids, i, active, sessions, emitted);
        i := i + 1;
      }
      assert ids[..i] == ids;
      tables := t0.(sessions := sessions);
      events := e0 + emitted;
      ActivityKeepsValid(t0, received, sessions);
    }

    /** One step of the `setSessionActive` loop: the next id of the path's map. */
    static method ActivateNext(s0: Sessions, ids: seq<SessionId>, i: nat, active: bool, sessions: Sessions, emitted: seq<Event>)
      returns (sessions': Sessions, emitted': seq<Event>)
      requires s0.Valid() && i < |ids|
      requires sessions == Activated(s0, ids[..i], active)
      requires emitted == RestoreEvents(ids[..i], s0.m, active)
      ensures sessions' == Activated(s0, ids[..i + 1], active)
      ensures emitted' == RestoreEvents(ids[..i + 1], s0.m, active)
    {
      assert ids[..i + 1][..i] == ids[..i];
      var id := ids[i];
      assert RestoreEvents(ids[..i + 1], s0.m, active) == RestoreEvents(ids[..i], s0.m, active) +
        if active && id in s0.m && |s0.m[id].outputHistory| > 0
        then [SessionRestore(id, s0.m[id].outputHistory)] else [];
      sessions', emitted' := sessions, emitted;
      if id in sessions.m {
        var session := sessions.m[id];
        sessions' := sessions.Set(id, session.(isActive := active));
        if active && |session.outputHistory| > 0 {
          emitted' := emitted + [SessionRestore(id, session.outputHistory)];
        }
      }
    }

    // ---- Process input and resizing ----

    /** `writeToSession`: forwards the keystrokes to a live session's process. */
    method WriteToSession(id: SessionId, data: string)
      modifies this`hostCalls
      ensures hostCalls == old(hostCalls) + (if id in tables.sessions.m then [Write(id, data)] else [])
    {
      if id in tables.sessions.m {
        hostCalls := hostCalls + [Write(id, data)];
      }
    }

    /**
     * `resizeSession`: an unknown session or a numeric dimension outside 1..1000
     * changes nothing; otherwise, NaN and fractional sizes included, the pending
     * resize, if any, is replaced by a new one.
     */
    method ResizeSession(id: SessionId, cols: Dimension, rows: Dimension)
      requires Valid()
      modifies this`tables
      ensures Valid()
      ensures id !in old(tables).sessions.m || !PassesSizeCheck(cols, rows) ==> tables == old(tables)
      ensures id in old(tables).sessions.m && PassesSizeCheck(cols, rows) ==>
        tables == old(tables).(resizeTimers := old(tables).resizeTimers[id := PendingResize(old(tables).nextTimer, cols, rows)],
                               nextTimer := old(tables).nextTimer + 1)
    {
      var t := tables;
      if id !in t.sessions.m {
        return;
      }
      if LessThan(cols, MinDimension) || LessThan(rows, MinDimension) || GreaterThan(cols, MaxDimension) || GreaterThan(rows, MaxDimension) {
        return;
      }
      var t' := t.(resizeTimers := t.resizeTimers[id := PendingResize(t.nextTimer, cols, rows)], nextTimer := t.nextTimer + 1);
      ResizeTimersKeepValid(t, received, t');
      tables := t';
    }

    /** The 50 ms resize timer firing: the process takes the dimensions that passed the size check, and the entry goes. */
    method FireResizeTimer(id: SessionId)
      requires Valid() && id in tables.resizeTimers
      modifies this`tables, this`hostCalls
      ensures Valid()
      ensures var p := old(tables).resizeTimers[id];
        && PassesSizeCheck(p.cols, p.rows)
        && hostCalls == old(hostCalls) + [Resize(id, p.cols, p.rows)]
        && tables == old(tables).(resizeTimers := old(tables).resizeTimers - {id})
    {
      var t := tables;
      var pending := t.resizeTimers[id];
      var t' := t.(resizeTimers := t.resizeTimers - {id});
      ResizeTimersKeepValid(t, received, t');
      hostCalls := hostCalls + [Resize(id, pending.cols, pending.rows)];
      tables := t';
    }

    // ---- Destroy paths ----

    /**
     * `destroySessionById`: kill the process, drop both timers, the index entry, the
     * session and its flag, then announce it once. An unknown id changes nothing.
     * The exit handler marks the session idle just before, hence only the other
     * sessions' agreement is required.
     */
    method DestroySessionById(id: SessionId)
      requires RegistryOf(tables, received) && AgreeExcept(tables, id)
      modifies this`tables, this`events, this`hostCalls, this`received
      ensures Valid()
      ensures id !in tables.sessions.m
      ensures id !in old(tables).sessions.m ==>
        tables == old(tables) && events == old(events) && hostCalls == old(hostCalls) && received == old(received)
      ensures id in old(tables).sessions.m ==>
        var s := old(tables).sessions.m[id];
        && tables == Unregister(old(tables), id)
        && received == old(received) - {id}
        && hostCalls == old(hostCalls) + [Kill(id)]
        && events == old(events) + [SessionDestroyed(Describe(s), tables.sessions)]
    {
      var t := tables;
      if id in t.sessions.m {
        var session := t.sessions.m[id];
        UnregisterKeepsValid(t, received, id);
        var t' := Unregister(t, id);
        hostCalls := hostCalls + [Kill(id)];
        events := events + [SessionDestroyed(Describe(session), t'.sessions)];
        received := received - {id};
        tables := t';
      } else {
        assert AllAgree(t);
      }
    }

    /**
     * `destroySession`: every session registered under the path is destroyed, in the
     * order of the path's map; the other sessions stay as they were.
     */
    method DestroySession(path: string)
      requires Valid()
      modifies this`tables, this`events, this`hostCalls, this`received
      ensures Valid()
      ensures var d := DestroyEach(old(tables), WorktreeSessionIds(old(tables).sessionsByWorktree, path));
        tables == d.tables && events == old(events) + d.events && hostCalls == old(hostCalls) + d.calls
      ensures path !in tables.sessionsByWorktree.m
      ensures forall x :: x in tables.sessions.m <==> x in old(tables).sessions.m && old(tables).sessions.m[x].worktreePath != path
      ensures forall x | x in tables.sessions.m :: tables.sessions.m[x] == old(tables).sessions.m[x]
    {
      var ids := WorktreeSessionIds(tables.sessionsByWorktree, path);
      ghost var r0 := received;
      ghost var t0 := tables;
      ghost var e0 := events;
      ghost var h0 := hostCalls;
      var i := 0;
      while i < |ids|
        invariant 0 <= i <= |ids|
        invariant Valid()
        invariant var d := DestroyEach(t0, ids[..i]);
          tables == d.tables && events == e0 + d.events && hostCalls == h0 + d.calls
      {
        DestroyNext(t0, e0, h0, ids, i);
        i := i + 1;
      }
      assert ids[..i] == ids;
      DestroySessionEmptiesPath(t0, r0, path, tables, received);
    }

    /**
     * `destroy`: all pending timers are cancelled, then every session is destroyed in
     * creation order, leaving every table empty.
     */
    method Destroy()
      requires Valid()
      modifies this`tables, this`events, this`hostCalls, this`received
      ensures Valid()
      ensures var d := DestroyEach(old(tables).(busyTimers := map[], resizeTimers := map[]), old(tables).sessions.keys);
        tables == d.tables && events == old(events) + d.events && hostCalls == old(hostCalls) + d.calls
      ensures tables.sessions.m == map[] && tables.sessions.keys == [] && tables.sessionsByWorktree.m == map[]
      ensures tables.waitingWithBottomBorder == map[] && tables.busyTimers == map[] && tables.resizeTimers == map[]
    {
      ClearTimersKeepsValid(tables, received);
      tables := tables.(busyTimers := map[], resizeTimers := map[]);
      var ids := tables.sessions.keys;
      ghost var r0 := received;
      ghost var t0 := tables;
      ghost var e0 := events;
      ghost var h0 := hostCalls;
      var i := 0;
      while i < |ids|
        invariant 0 <= i <= |ids|
        invariant Valid()
        invariant var d := DestroyEach(t0, ids[..i]);
          tables == d.tables && events == e0 + d.events && hostCalls == h0 + d.calls
      {
        DestroyNext(t0, e0, h0, ids, i);
        i := i + 1;
      }
      assert ids[..i] == ids;
      DestroyAllEmpties(t0, r0, tables, received);
    }

    /** One step of the destroy loops: `destroySessionById` on the next id of the list. */
    method DestroyNext(ghost t0: Tables, ghost e0: seq<Event>, ghost h0: seq<HostCall>, ids: seq<SessionId>, i: nat)
      requires Valid() && i < |ids| && Shaped(t0)
      requires var d := DestroyEach(t0, ids[..i]);
        tables == d.tables && events == e0 + d.events && hostCalls == h0 + d.calls
      modifies this`tables, this`events, this`hostCalls, this`received
      ensures Valid()
      ensures var d := DestroyEach(t0, ids[..i + 1]);
        tables == d.tables && events == e0 + d.events && hostCalls == h0 + d.calls
    {
      assert ids[..i + 1][..i] == ids[..i];
      DestroySessionById(ids[i]);
    }

    // ---- Registration ----

    /** The descriptor is that of the live session registered under the path and type. */
    ghost predicate RegisteredAs(path: string, kind: SessionType, info: SessionInfo)
      reads this`tables
    {
      && Lookup(tables.sessionsByWorktree, path, kind) == Some(info.id)
      && info.id in tables.sessions.m && Describe(tables.sessions.m[info.id]) == info
    }

    /**
     * The reuse check of `createSession`: a session already registered under the path
     * and type is probed with an empty write; a live one is returned as it is, a dead
     * one is destroyed. Either way no other session is registered under the key.
     */
    method ReuseOrReap(path: string, kind: SessionType, alive: bool) returns (reused: Option<SessionInfo>)
      requires Valid()
      modifies this`tables, this`events, this`hostCalls, this`received
      ensures Valid()
      ensures var found := Lookup(old(tables).sessionsByWorktree, path, kind);
        && (found.None? ==>
              reused.None? && tables == old(tables) && events == old(events) && hostCalls == old(hostCalls) && received == old(received))
        && (found.Some? ==> found.value in old(tables).sessions.m)
        && (found.Some? && alive ==>
              && reused == Some(Describe(old(tables).sessions.m[found.value]))
              && tables == old(tables) && events == old(events) && received == old(received)
              && hostCalls == old(hostCalls) + [Write(found.value, "")])
        && (found.Some? && !alive ==>
              && reused.None?
              && tables == Unregister(old(tables), found.value) && received == old(received) - {found.value}
              && hostCalls == old(hostCalls) + [Write(found.value, ""), Kill(found.value)]
              && events == old(events) + [SessionDestroyed(Describe(old(tables).sessions.m[found.value]), tables.sessions)])
      ensures reused.None? ==> Lookup(tables.sessionsByWorktree, path, kind).None?
      ensures reused.Some? ==> RegisteredAs(path, kind, reused.value)
      ensures reused.None? ==>
        tables == ReapTables(old(tables), path, kind) && events == old(events) + ReapEvents(old(tables), path, kind)
    {
      var t := tables;
      var found := Lookup(t.sessionsByWorktree, path, kind);
      reused := None;
      if found.Some? {
        var existingId := found.value;
        var existing := t.sessions.m[existingId];
        hostCalls := hostCalls + [Write(existingId, "")];
        if alive {
          reused := Some(Describe(existing));
        } else {
          LookupAfterRemove(t.sessionsByWorktree, existing.worktreePath, existing.kind, path, kind);
          DestroySessionById(existingId);
        }
      }
    }

    /**
     * The spawning half of `createSession`, under a free key: a fresh id is drawn and
     * the process is spawned in the worktree. A failed spawn registers nothing; a
     * successful one registers the new session and announces it.
     */
    method SpawnSession(path: string, kind: SessionType, parameters: seq<string>, env: Environment, spawnError: Option<string>)
      returns (r: CreateResult)
      requires Valid() && Lookup(tables.sessionsByWorktree, path, kind).None?
      modifies this`tables, this`events, this`hostCalls, this`received
      ensures Valid()
      ensures var id := old(tables).nextId;
        && hostCalls == old(hostCalls) + [Spawn(id, LaunchCommand(kind, parameters, env), path)]
        && (spawnError.Some? ==>
              r == Failed(spawnError.value) && tables == old(tables).(nextId := id + 1) &&
              events == old(events) && received == old(received))
        && (spawnError.None? ==>
              && r == Created(Describe(NewSession(id, path, kind)))
              && tables == Register(old(tables), path, kind) && received == old(received)[id := []]
              && events == old(events) + [SessionCreated(r.session, tables.sessions)])
      ensures r.Created? ==> RegisteredAs(path, kind, r.session)
      ensures tables == SpawnTables(old(tables), path, kind, spawnError.Some?)
      ensures events == old(events) + SpawnEvents(old(tables), path, kind, spawnError.Some?)
    {
      var t := tables;
      var id := t.nextId;
      hostCalls := hostCalls + [Spawn(id, LaunchCommand(kind, parameters, env), path)];
      if spawnError.Some? {
        IdDrawnKeepsValid(t, received);
        tables := t.(nextId := id + 1);
        return Failed(spawnError.value);
      }
      RegisterKeepsValid(t, received, path, kind);
      RegisterAddsOne(t, received, path, kind);
      tables := Register(t, path, kind);
      received := received[id := []];
      r := Created(Describe(NewSession(id, path, kind)));
      events := events + [SessionCreated(r.session, tables.sessions)];
    }

    /**
     * `createSession`: a live session under the path and type is reused and nothing
     * changes; otherwise a dead one is destroyed and exactly one fresh session is
     * registered under the key, idle for a terminal and busy for the agent.
     */
    method CreateSession(path: string, kind: SessionType, parameters: seq<string>, env: Environment,
                         alive: bool, spawnError: Option<string>)
      returns (r: CreateResult)
      requires Valid()
      modifies this`tables, this`events, this`hostCalls, this`received
      ensures Valid()
      ensures var found := Lookup(old(tables).sessionsByWorktree, path, kind);
        && (found.Some? && alive ==>
              found.value in old(tables).sessions.m && r == Created(Describe(old(tables).sessions.m[found.value])))
        && (!(found.Some? && alive) && spawnError.Some? ==> r == Failed(spawnError.value))
        && (!(found.Some? && alive) && spawnError.None? ==> r == Created(Describe(NewSession(old(tables).nextId, path, kind))))
      ensures tables == CreateTables(old(tables), path, kind, alive, spawnError.Some?)
      ensures events == old(events) + CreateEvents(old(tables), path, kind, alive, spawnError.Some?)
      ensures hostCalls == old(hostCalls) + CreateCalls(old(tables), path, kind, LaunchCommand(kind, parameters, env), alive)
      ensures r.Created? ==> RegisteredAs(path, kind, r.session)
      ensures r.Failed? ==> spawnError == Some(r.message) && Lookup(tables.sessionsByWorktree, path, kind).None?
    {
      ghost var t0, e0, h0 := tables, events, hostCalls;
      ghost var found := Lookup(t0.sessionsByWorktree, path, kind);
      var reused := ReuseOrReap(path, kind, alive);
      if reused.Some? {
        CreateReuses(t0, path, kind, LaunchCommand(kind, parameters, env), alive, spawnError.Some?);
        assert e0 + [] == e0;
        return Created(reused.value);
      }
      ghost var mid, e1, h1 := tables, events, hostCalls;
      ReapFreesKey(t0, path, kind);
      r := SpawnSession(path, kind, parameters, env, spawnError);
      CreateTablesCompose(t0, path, kind, alive, spawnError.Some?, mid, tables);
      CreateEventsCompose(t0, path, kind, alive, spawnError.Some?, e0, e1, events);
      CreateCallsCompose(t0, path, kind, LaunchCommand(kind, parameters, env), alive, h0, h1, hostCalls);
    }

    // ---- The process callbacks ----

    /**
     * The buffering half of the `onData` handler: the chunk joins the history, whose
     * oldest chunks go while it is over 10 MiB, and the window of the last 100 chunks.
     */
    method BufferChunk(id: SessionId, data: string)
      requires Valid() && id in tables.sessions.m
      modifies this`tables, this`received
      ensures Valid()
      ensures received == old(received)[id := old(received)[id] + [data]]
      ensures tables == BufferedTables(old(tables), id, data)
    {
      var t := tables;
      BufferedKeepsValid(t, received, id, data);
      var s := t.sessions.m[id];
      var outputHistory := PushHistory(s.outputHistory, data);
      var output := s.output + [data];
      if |output| > MaxOutputChunks {
        output := output[1..];
      }
      var b := s.(outputHistory := outputHistory, output := output);
      assert b == Buffered(s, data);
      tables := t.(sessions := t.sessions.Set(id, b));
      received := received[id := received[id] + [data]];
    }

    /**
     * The classifying half of the `onData` handler for an agent session: the verdict
     * on the stripped chunk is stored and a changed state is announced.
     */
    method ClassifyChunk(id: SessionId, cleanData: string)
      requires Valid() && id in tables.sessions.m
      modifies this`tables, this`events
      ensures Valid()
      ensures tables == ClassifiedTables(old(tables), id, cleanData)
      ensures events == old(events) +
        if VerdictOf(old(tables), id, cleanData).state != old(tables).sessions.m[id].state
        then [SessionStateChanged(Describe(tables.sessions.m[id]), tables.sessions)] else []
    {
      var t := tables;
      ClassifiedKeepsValid(t, received, id, cleanData);
      var session := t.sessions.m[id];
      var oldState := session.state;
      var newState := DetectSessionState(cleanData, oldState, id);
      if newState != oldState {
        tables := tables.(sessions := t.sessions.Set(id, session.(state := newState)));
        events := events + [SessionStateChanged(Describe(tables.sessions.m[id]), tables.sessions)];
      } else {
        assert t.sessions.m[id := session] == t.sessions.m;
        assert t.sessions.Set(id, session.(state := newState)) == t.sessions;
      }
    }

    /**
     * The `onData` handler of a live session: the chunk is buffered; an active
     * session forwards a filtered copy; a non-blank chunk of an agent session is
     * classified and a changed state is announced.
     */
    method OnData(id: SessionId, data: string)
      requires Valid() && id in tables.sessions.m
      modifies this`tables, this`events, this`received
      ensures Valid()
      ensures received == old(received)[id := old(received)[id] + [data]]
      ensures var s := old(tables).sessions.m[id];
        var buffered := BufferedTables(old(tables), id, data);
        var clean := StripAnsi(data);
        var forwarded := if s.isActive then [SessionData(id, FilterProblematicSequences(data))] else [];
        && (IsBlank(clean) || s.kind != Claude ==> tables == buffered && events == old(events) + forwarded)
        && (!IsBlank(clean) && s.kind == Claude ==>
              && tables == ClassifiedTables(buffered, id, clean)
              && events == old(events) + forwarded +
                   if VerdictOf(buffered, id, clean).state != s.state
                   then [SessionStateChanged(Describe(tables.sessions.m[id]), tables.sessions)] else [])
    {
      BufferChunk(id, data);
      ReactToChunk(id, data);
    }

    /**
     * The rest of the `onData` handler once the chunk is buffered: an active session
     * forwards a filtered copy, and a non-blank chunk of an agent session is classified.
     */
    method ReactToChunk(id: SessionId, data: string)
      requires Valid() && id in tables.sessions.m
      modifies this`tables, this`events
      ensures Valid()
      ensures var s := old(tables).sessions.m[id];
        var clean := StripAnsi(data);
        var forwarded := if s.isActive then [SessionData(id, FilterProblematicSequences(data))] else [];
        && (IsBlank(clean) || s.kind != Claude ==> tables == old(tables) && events == old(events) + forwarded)
        && (!IsBlank(clean) && s.kind == Claude ==>
              && tables == ClassifiedTables(old(tables), id, clean)
              && events == old(events) + forwarded +
                   if VerdictOf(old(tables), id, clean).state != s.state
                   then [SessionStateChanged(Describe(tables.sessions.m[id]), tables.sessions)] else [])
    {
      var session := tables.sessions.m[id];
      var cleanData := StripAnsi(data);
      if session.isActive {
        events := events + [SessionData(id, FilterProblematicSequences(data))];
      }
      if IsBlank(cleanData) || session.kind != Claude {
        return;
      }
      ClassifyChunk(id, cleanData);
    }

    /**
     * The `onExit` handler of a live session: the session is marked idle and that is
     * announced, then it is destroyed, then its exit is announced.
     */
    method OnExit(id: SessionId)
      requires Valid() && id in tables.sessions.m
      modifies this`tables, this`events, this`hostCalls, this`received
      ensures Valid()
      ensures id !in tables.sessions.m
      ensures var s := old(tables).sessions.m[id].(state := Idle);
        && tables == Unregister(old(tables), id)
        && received == old(received) - {id}
        && hostCalls == old(hostCalls) + [Kill(id)]
        && events == old(events) + [SessionStateChanged(Describe(s), old(tables).sessions.Set(id, s))]
             + [SessionDestroyed(Describe(s), tables.sessions)] + [SessionExit(Describe(s))]
    {
      var t := tables;
      var s := t.sessions.m[id].(state := Idle);
      ExitMarkKeepsRegistry(t, received, id);
      var sessions := t.sessions.Set(id, s);
      tables := t.(sessions := sessions);
      events := events + [SessionStateChanged(Describe(s), sessions)];
      DestroySessionById(id);
      events := events + [SessionExit(Describe(s))];
    }

    /**
     * The `onExit` handler of a session that is no longer registered, as when its
     * process ends after being killed: the record the handler holds is marked idle and
     * announced, the destroy call finds nothing, and the exit is announced.
     */
    method OnLateExit(session: Session)
      requires Valid() && session.id !in tables.sessions.m
      modifies this`tables, this`events, this`hostCalls, this`received
      ensures Valid()
      ensures tables == old(tables) && hostCalls == old(hostCalls) && received == old(received)
      ensures var s := session.(state := Idle);
        events == old(events) + [SessionStateChanged(Describe(s), tables.sessions), SessionExit(Describe(s))]
    {
      var s := session.(state := Idle);
      events := events + [SessionStateChanged(Describe(s), tables.sessions)];
      DestroySessionById(s.id);
      events := events + [SessionExit(Describe(s))];
    }
  }
}
