/**
 * The value level of `SessionManager`: its maps gathered in one `Tables` record,
 * the invariant that ties them together, the events it emits and the calls it makes
 * on its processes, and one lemma per step saying that the step keeps the invariant.
 * Timers are map entries holding a fresh handle; a timer firing is an explicit step.
 */
module Registry {
  import opened Wrappers
  import opened JsMaps
  import opened Text
  import opened Escapes
  import opened Classifier
  import opened OutputBuffers
  import opened SessionIndex
  import opened Launch

  /**
   * What the manager emits. Listeners run synchronously, so `registry` is the live
   * sessions at emit time: what a listener calling `getAllSessions()` reads.
   */
  datatype Event =
    | SessionCreated(session: SessionInfo, registry: Sessions)
    | SessionData(sessionId: SessionId, data: string)
    | SessionStateChanged(session: SessionInfo, registry: Sessions)
    | SessionDestroyed(session: SessionInfo, registry: Sessions)
    | SessionRestore(sessionId: SessionId, history: seq<string>)
    | SessionExit(session: SessionInfo)

  /** The requests made of a session's process; `Write(id, "")` is also the liveness probe. */
  datatype HostCall =
    | Spawn(id: SessionId, command: Command, cwd: string)
    | Write(id: SessionId, data: string)
    | Resize(id: SessionId, cols: Dimension, rows: Dimension)
    | Kill(id: SessionId)

  /** A scheduled resize: its timer handle and the dimensions it will apply. */
  datatype PendingResize = PendingResize(timer: TimerId, cols: Dimension, rows: Dimension)

  /** `createSession` returns a descriptor or throws with a message. */
  datatype CreateResult = Created(session: SessionInfo) | Failed(message: string)

  /**
   * A resize dimension as it arrives in a `session:resize` payload, seen through the
   * comparisons of the size check: a number (fractions included), or a value that
   * converts to NaN (a missing field, a non-numeric string), which every `<` and `>`
   * rejects.
   */
  datatype Dimension = Number(value: real) | NotANumber

  const MinDimension: real := 1.0
  const MaxDimension: real := 1000.0

  /** `d < bound`: false for NaN. */
  predicate LessThan(d: Dimension, bound: real) {
    d.Number? && d.value < bound
  }

  /** `d > bound`: false for NaN. */
  predicate GreaterThan(d: Dimension, bound: real) {
    d.Number? && d.value > bound
  }

  /** The request gets past `cols < 1 || rows < 1 || cols > 1000 || rows > 1000`. */
  predicate PassesSizeCheck(cols: Dimension, rows: Dimension) {
    !(LessThan(cols, MinDimension) || LessThan(rows, MinDimension) ||
      GreaterThan(cols, MaxDimension) || GreaterThan(rows, MaxDimension))
  }

  /** The check lets through exactly the numbers in 1..1000, fractional ones included, and every NaN. */
  lemma PassesSizeCheckIff(cols: Dimension, rows: Dimension)
    ensures PassesSizeCheck(cols, rows) <==>
      && (cols.NotANumber? || MinDimension <= cols.value <= MaxDimension)
      && (rows.NotANumber? || MinDimension <= rows.value <= MaxDimension)
  {
  }

  /** A missing or non-numeric width and a fractional one both pass; zero does not. */
  lemma SizeCheckExamples()
    ensures PassesSizeCheck(NotANumber, Number(24.0))
    ensures PassesSizeCheck(Number(80.5), Number(24.0))
    ensures !PassesSizeCheck(Number(0.0), Number(24.0))
    ensures !PassesSizeCheck(Number(80.0), Number(1001.0))
  {
  }

  /** `waitingWithBottomBorder.get(id) || false` */
  function FlagOf(flags: map<SessionId, bool>, id: SessionId): bool {
    id in flags && flags[id]
  }

  function ApplyFlag(flags: map<SessionId, bool>, id: SessionId, u: FlagUpdate): map<SessionId, bool> {
    match u
    case KeepFlag => flags
    case SetFlag(b) => flags[id := b]
  }

  /** Cancel deletes the entry; arming adds a fresh handle only when none is pending. */
  function ApplyTimer(timers: map<SessionId, TimerId>, id: SessionId, a: TimerAction, handle: TimerId): map<SessionId, TimerId> {
    match a
    case KeepTimer => timers
    case CancelTimer => timers - {id}
    case ArmTimer => if id in timers then timers else timers[id := handle]
  }

  /**
   * The manager's five maps and the two supplies that stand for its fresh values
   * (the random session ids and the timer handles).
   */
  datatype Tables = Tables(
    sessions: Sessions,
    sessionsByWorktree: Index,
    waitingWithBottomBorder: map<SessionId, bool>,
    busyTimers: map<SessionId, TimerId>,
    resizeTimers: map<SessionId, PendingResize>,
    nextId: SessionId,
    nextTimer: TimerId)

  /** The two JS maps of the tables are well formed. */
  ghost predicate Shaped(t: Tables) {
    t.sessions.Valid() && WellFormedIndex(t.sessionsByWorktree)
  }

  /** The session's history and window are what its received chunks determine. */
  ghost predicate BuffersFit(s: Session, received: seq<string>) {
    s.outputHistory == HistoryOf(received) && s.output == WindowOf(received)
  }

  /** Each record sits under its own id, drawn from the id supply. */
  ghost predicate IdsFresh(t: Tables) {
    forall id | id in t.sessions.m :: t.sessions.m[id].id == id && id < t.nextId
  }

  /** Each live session's history and window are what its received chunks determine. */
  ghost predicate BuffersOk(t: Tables, received: map<SessionId, seq<string>>) {
    && received.Keys == t.sessions.m.Keys
    && (forall id {:trigger BuffersFit(t.sessions.m[id], received[id])} | id in t.sessions.m ::
          BuffersFit(t.sessions.m[id], received[id]))
  }

  /** The flag and timer maps are only about live sessions; handles come from the supply; pending sizes passed the size check. */
  ghost predicate TimersOk(t: Tables) {
    && t.waitingWithBottomBorder.Keys <= t.sessions.m.Keys
    && t.busyTimers.Keys <= t.sessions.m.Keys
    && t.resizeTimers.Keys <= t.sessions.m.Keys
    && (forall id | id in t.busyTimers :: t.busyTimers[id] < t.nextTimer)
    && (forall id | id in t.resizeTimers ::
          t.resizeTimers[id].timer < t.nextTimer && PassesSizeCheck(t.resizeTimers[id].cols, t.resizeTimers[id].rows))
  }

  /** The maps agree with each other: the index with the session table, and everything else with the live sessions. */
  ghost predicate RegistryOf(t: Tables, received: map<SessionId, seq<string>>) {
    && Shaped(t)
    && IndexMatches(t.sessions.m, t.sessionsByWorktree)
    && IdsFresh(t)
    && BuffersOk(t, received)
    && TimersOk(t)
  }

  /** A pending idle timer means busy, and a raised border flag means waiting for input. */
  ghost predicate StatesAgree(t: Tables, id: SessionId)
    requires id in t.sessions.m
  {
    && (id in t.busyTimers ==> t.sessions.m[id].state == Busy)
    && (FlagOf(t.waitingWithBottomBorder, id) ==> t.sessions.m[id].state == WaitingInput)
  }

  ghost predicate AgreeExcept(t: Tables, x: SessionId) {
    forall id | id in t.sessions.m && id != x :: StatesAgree(t, id)
  }

  ghost predicate AllAgree(t: Tables) {
    forall id | id in t.sessions.m :: StatesAgree(t, id)
  }

  ghost predicate ManagerValid(t: Tables, received: map<SessionId, seq<string>>) {
    RegistryOf(t, received) && AllAgree(t)
  }

  // ---- Unregistering ----

  /** The clean-up of `destroySessionById`: the session, its index key, its flag and both timers go. */
  function Unregister(t: Tables, id: SessionId): (r: Tables)
    requires Shaped(t) && id in t.sessions.m
    ensures Shaped(r)
  {
    var s := t.sessions.m[id];
    t.(sessions := t.sessions.Delete(id),
       sessionsByWorktree := IndexRemove(t.sessionsByWorktree, s.worktreePath, s.kind),
       waitingWithBottomBorder := t.waitingWithBottomBorder - {id},
       busyTimers := t.busyTimers - {id},
       resizeTimers := t.resizeTimers - {id})
  }

  /**
   * The clean-up is total and touches nothing else: no map mentions the id any more,
   * no index key leads to it, and every other session and key is as before.
   */
  lemma UnregisterForgetsOnlyId(t: Tables, received: map<SessionId, seq<string>>, id: SessionId)
    requires RegistryOf(t, received) && id in t.sessions.m
    ensures var r := Unregister(t, id);
      && id !in r.sessions.m && id !in r.waitingWithBottomBorder && id !in r.busyTimers && id !in r.resizeTimers
      && (forall p, k :: Lookup(r.sessionsByWorktree, p, k) != Some(id))
      && (forall x | x in t.sessions.m && x != id :: x in r.sessions.m && r.sessions.m[x] == t.sessions.m[x])
      && r.sessions.keys == Without(t.sessions.keys, id)
      && (forall p, k | Lookup(t.sessionsByWorktree, p, k) != Some(id) ::
            Lookup(r.sessionsByWorktree, p, k) == Lookup(t.sessionsByWorktree, p, k))
  {
    var s := t.sessions.m[id];
    var r := Unregister(t, id);
    forall p, k ensures Lookup(r.sessionsByWorktree, p, k) == if p == s.worktreePath && k == s.kind then None else Lookup(t.sessionsByWorktree, p, k) {
      LookupAfterRemove(t.sessionsByWorktree, s.worktreePath, s.kind, p, k);
    }
    assert IndexedAt(t.sessionsByWorktree, s, id);
    forall p, k | Lookup(t.sessionsByWorktree, p, k).Some? ensures Lookup(t.sessionsByWorktree, p, k) == Some(id) ==> p == s.worktreePath && k == s.kind {
    }
  }

  /** Unregistering keeps every agreement of the other sessions. */
  lemma UnregisterKeepsValid(t: Tables, received: map<SessionId, seq<string>>, id: SessionId)
    requires RegistryOf(t, received) && AgreeExcept(t, id) && id in t.sessions.m
    ensures ManagerValid(Unregister(t, id), received - {id})
  {
    var r := Unregister(t, id);
    var received' := received - {id};
    RemoveKeepsMatch(t.sessions.m, t.sessionsByWorktree, id);
    forall x | x in r.sessions.m ensures BuffersFit(r.sessions.m[x], received'[x]) {
      assert BuffersFit(t.sessions.m[x], received[x]);
    }
    forall x | x in r.sessions.m ensures StatesAgree(r, x) {
      assert StatesAgree(t, x);
    }
  }

  // ---- Changing session records in place ----

  /** Records that keep their ids, paths and types keep the index and the id supply valid. */
  lemma SameKeysKeepRegistry(t: Tables, received: map<SessionId, seq<string>>, t': Tables, received': map<SessionId, seq<string>>)
    requires RegistryOf(t, received)
    requires t'.sessions.Valid() && t'.sessions.m.Keys == t.sessions.m.Keys
    requires t'.sessionsByWorktree == t.sessionsByWorktree && t'.nextId == t.nextId
    requires forall x | x in t.sessions.m ::
      && t'.sessions.m[x].id == x
      && t'.sessions.m[x].worktreePath == t.sessions.m[x].worktreePath
      && t'.sessions.m[x].kind == t.sessions.m[x].kind
    requires BuffersOk(t', received') && TimersOk(t')
    ensures RegistryOf(t', received')
  {
    SameKeysKeepMatch(t.sessions.m, t'.sessions.m, t.sessionsByWorktree);
  }

  /**
   * A record under the same id, path and type whose buffers fit what it received
   * keeps the registry; state, activity and buffers are not part of any key.
   */
  lemma ReplaceKeepsRegistry(t: Tables, received: map<SessionId, seq<string>>, id: SessionId, s: Session, rcv: seq<string>)
    requires RegistryOf(t, received) && id in t.sessions.m
    requires s.id == id && s.worktreePath == t.sessions.m[id].worktreePath && s.kind == t.sessions.m[id].kind
    requires BuffersFit(s, rcv)
    ensures RegistryOf(t.(sessions := t.sessions.Set(id, s)), received[id := rcv])
  {
    var t' := t.(sessions := t.sessions.Set(id, s));
    assert t'.sessions.m == t.sessions.m[id := s];
    ReplaceKeepsBuffers(t, received, id, s, rcv);
    SameKeysKeepRegistry(t, received, t', received[id := rcv]);
  }

  lemma ReplaceKeepsBuffers(t: Tables, received: map<SessionId, seq<string>>, id: SessionId, s: Session, rcv: seq<string>)
    requires BuffersOk(t, received) && t.sessions.Valid() && id in t.sessions.m && BuffersFit(s, rcv)
    ensures BuffersOk(t.(sessions := t.sessions.Set(id, s)), received[id := rcv])
  {
    var t' := t.(sessions := t.sessions.Set(id, s));
    var received' := received[id := rcv];
    assert t'.sessions.m == t.sessions.m[id := s];
    forall x | x in t'.sessions.m ensures BuffersFit(t'.sessions.m[x], received'[x]) {
      if x != id {
        assert BuffersFit(t.sessions.m[x], received[x]);
      }
    }
  }

  // ---- The output pipeline ----

  /** A session's buffers after one more chunk: appended and evicted history, rolled window. */
  function Buffered(s: Session, data: string): Session {
    s.(outputHistory := Evict(s.outputHistory + [data]), output := Window(s.output, data))
  }

  /** The tables once a live session has buffered a chunk. */
  function BufferedTables(t: Tables, id: SessionId, data: string): Tables
    requires t.sessions.Valid() && id in t.sessions.m
  {
    t.(sessions := t.sessions.Set(id, Buffered(t.sessions.m[id], data)))
  }

  /** `outputHistory.push(buffer)` and the eviction loop after it. */
  method PushHistory(history: seq<string>, data: string) returns (h: seq<string>)
    ensures h == Evict(history + [data])
  {
    h := history + [data];
    var totalSize := TotalBytes(h);
    while totalSize > MaxHistorySize && |h| > 0
      invariant totalSize == TotalBytes(h)
      invariant Evict(h) == Evict(history + [data])
      decreases |h|
    {
      var removed := h[0];
      h := h[1..];
      totalSize := totalSize - Utf8Length(removed);
    }
  }

  /** Buffering a chunk keeps every invariant, now about one more received chunk. */
  lemma BufferedKeepsValid(t: Tables, received: map<SessionId, seq<string>>, id: SessionId, data: string)
    requires ManagerValid(t, received) && id in t.sessions.m
    ensures ManagerValid(BufferedTables(t, id, data), received[id := received[id] + [data]])
  {
    var s := t.sessions.m[id];
    assert BuffersFit(s, received[id]);
    BuffersOfAppend(received[id], data);
    ReplaceKeepsRegistry(t, received, id, Buffered(s, data), received[id] + [data]);
    var t' := t.(sessions := t.sessions.Set(id, Buffered(s, data)));
    forall x | x in t'.sessions.m ensures StatesAgree(t', x) {
      assert StatesAgree(t, x);
    }
  }

  // ---- Classification ----

  /** The verdict's effect on the flag map, the busy timers and the handle supply. */
  function ApplyVerdict(t: Tables, id: SessionId, v: Verdict): Tables {
    t.(waitingWithBottomBorder := ApplyFlag(t.waitingWithBottomBorder, id, v.flag),
       busyTimers := ApplyTimer(t.busyTimers, id, v.timer, t.nextTimer),
       nextTimer := if v.timer == ArmTimer && id !in t.busyTimers then t.nextTimer + 1 else t.nextTimer)
  }

  /** A verdict only touches a live session's entries, and a new timer gets a fresh handle. */
  lemma VerdictKeepsTimers(t: Tables, id: SessionId, v: Verdict)
    requires TimersOk(t) && id in t.sessions.m
    ensures TimersOk(ApplyVerdict(t, id, v))
  {
  }

  /** A verdict about one session leaves every other session's flag and timer as they were. */
  lemma VerdictElsewhere(t: Tables, id: SessionId, v: Verdict, x: SessionId)
    requires x != id
    ensures var t' := ApplyVerdict(t, id, v);
      (x in t'.busyTimers <==> x in t.busyTimers) && FlagOf(t'.waitingWithBottomBorder, x) == FlagOf(t.waitingWithBottomBorder, x)
  {
  }

  /** The classifier's rules set a raised flag only with waiting, and arm a timer only while busy. */
  lemma VerdictAgrees(t: Tables, id: SessionId, sig: Signals)
    requires t.sessions.Valid() && id in t.sessions.m && StatesAgree(t, id)
    ensures var s := t.sessions.m[id];
      var v := Transition(sig, s.state, FlagOf(t.waitingWithBottomBorder, id));
      var t' := ApplyVerdict(t, id, v).(sessions := t.sessions.Set(id, s.(state := v.state)));
      id in t'.sessions.m && StatesAgree(t', id)
  {
  }

  /** The agreement of every session survives storing a verdict and its state. */
  lemma VerdictKeepsAgreement(t: Tables, id: SessionId, sig: Signals)
    requires t.sessions.Valid() && id in t.sessions.m && AllAgree(t)
    ensures var s := t.sessions.m[id];
      var v := Transition(sig, s.state, FlagOf(t.waitingWithBottomBorder, id));
      AllAgree(ApplyVerdict(t, id, v).(sessions := t.sessions.Set(id, s.(state := v.state))))
  {
    var s := t.sessions.m[id];
    var v := Transition(sig, s.state, FlagOf(t.waitingWithBottomBorder, id));
    var t2 := ApplyVerdict(t, id, v).(sessions := t.sessions.Set(id, s.(state := v.state)));
    assert StatesAgree(t, id);
    VerdictAgrees(t, id, sig);
    forall x | x in t2.sessions.m && x != id ensures StatesAgree(t2, x) {
      assert StatesAgree(t, x);
      VerdictElsewhere(t, id, v, x);
    }
  }

  /** Flags and timers that still fit the live sessions keep the registry. */
  lemma TimersKeepRegistry(t: Tables, received: map<SessionId, seq<string>>, t': Tables)
    requires RegistryOf(t, received)
    requires t' == t.(waitingWithBottomBorder := t'.waitingWithBottomBorder, busyTimers := t'.busyTimers,
                      resizeTimers := t'.resizeTimers, nextTimer := t'.nextTimer)
    requires TimersOk(t')
    ensures RegistryOf(t', received)
  {
  }

  /** Storing a verdict and its state changes no key, buffer or live-session set. */
  lemma StoredVerdictKeepsRegistry(t: Tables, received: map<SessionId, seq<string>>, id: SessionId, v: Verdict)
    requires RegistryOf(t, received) && id in t.sessions.m
    ensures RegistryOf(ApplyVerdict(t, id, v).(sessions := t.sessions.Set(id, t.sessions.m[id].(state := v.state))), received)
  {
    var s := t.sessions.m[id];
    assert BuffersFit(s, received[id]);
    ReplaceKeepsRegistry(t, received, id, s.(state := v.state), received[id]);
    assert received[id := received[id]] == received;
    var t1 := t.(sessions := t.sessions.Set(id, s.(state := v.state)));
    VerdictKeepsTimers(t1, id, v);
    TimersKeepRegistry(t1, received, ApplyVerdict(t1, id, v));
  }

  /** The classifier's verdict on a stripped chunk, from the session's state and border flag. */
  function VerdictOf(t: Tables, id: SessionId, clean: string): Verdict
    requires id in t.sessions.m
  {
    Classify(clean, t.sessions.m[id].state, FlagOf(t.waitingWithBottomBorder, id))
  }

  /** The tables once the verdict on a chunk and the state it decides are stored. */
  function ClassifiedTables(t: Tables, id: SessionId, clean: string): Tables
    requires t.sessions.Valid() && id in t.sessions.m
  {
    var v := VerdictOf(t, id, clean);
    ApplyVerdict(t, id, v).(sessions := t.sessions.Set(id, t.sessions.m[id].(state := v.state)))
  }

  /**
   * Storing the classifier's verdict and new state keeps a pending idle timer only on
   * a busy session and a raised border flag only on a waiting one.
   */
  lemma ClassifiedKeepsValid(t: Tables, received: map<SessionId, seq<string>>, id: SessionId, clean: string)
    requires ManagerValid(t, received) && id in t.sessions.m
    ensures ManagerValid(ClassifiedTables(t, id, clean), received)
  {
    StoredVerdictKeepsRegistry(t, received, id, VerdictOf(t, id, clean));
    VerdictKeepsAgreement(t, id, SignalsOf(clean));
  }

  // ---- Registration ----

  /** The registration of `createSession`: a fresh record under the next id, indexed under its key. */
  function Register(t: Tables, path: string, kind: SessionType): (r: Tables)
    requires Shaped(t)
    ensures Shaped(r)
  {
    var id := t.nextId;
    t.(sessions := t.sessions.Set(id, NewSession(id, path, kind)),
       sessionsByWorktree := IndexInsert(t.sessionsByWorktree, path, kind, id),
       nextId := id + 1)
  }

  /**
   * Registering under a free key adds exactly one session, last in creation order,
   * reachable through its key, and leaves every other session and key as it was.
   */
  lemma RegisterAddsOne(t: Tables, received: map<SessionId, seq<string>>, path: string, kind: SessionType)
    requires RegistryOf(t, received) && Lookup(t.sessionsByWorktree, path, kind).None?
    ensures var r := Register(t, path, kind);
      var id := t.nextId;
      && id !in t.sessions.m
      && r.sessions.keys == t.sessions.keys + [id]
      && r.sessions.m == t.sessions.m[id := NewSession(id, path, kind)]
      && Lookup(r.sessionsByWorktree, path, kind) == Some(id)
      && (forall p, k | !(p == path && k == kind) :: Lookup(r.sessionsByWorktree, p, k) == Lookup(t.sessionsByWorktree, p, k))
  {
    forall p, k ensures Lookup(Register(t, path, kind).sessionsByWorktree, p, k) ==
      if p == path && k == kind then Some(t.nextId) else Lookup(t.sessionsByWorktree, p, k)
    {
      LookupAfterInsert(t.sessionsByWorktree, path, kind, t.nextId, p, k);
    }
  }

  /** The new session's empty buffers fit its empty list of received chunks; the others keep theirs. */
  lemma RegisterKeepsBuffers(t: Tables, received: map<SessionId, seq<string>>, path: string, kind: SessionType)
    requires Shaped(t) && BuffersOk(t, received) && IdsFresh(t)
    ensures BuffersOk(Register(t, path, kind), received[t.nextId := []])
  {
    var id := t.nextId;
    var r := Register(t, path, kind);
    var received' := received[id := []];
    assert r.sessions.m == t.sessions.m[id := NewSession(id, path, kind)];
    forall x | x in r.sessions.m ensures BuffersFit(r.sessions.m[x], received'[x]) {
      if x != id {
        assert BuffersFit(t.sessions.m[x], received[x]);
      }
    }
  }

  /** The new session has no flag or timer, so nothing constrains its state; the others keep theirs. */
  lemma RegisterKeepsAgreement(t: Tables, path: string, kind: SessionType)
    requires Shaped(t) && TimersOk(t) && IdsFresh(t) && AllAgree(t)
    ensures AllAgree(Register(t, path, kind))
  {
    var id := t.nextId;
    var r := Register(t, path, kind);
    assert id !in t.sessions.m;
    assert r.sessions.m == t.sessions.m[id := NewSession(id, path, kind)];
    forall x | x in r.sessions.m ensures StatesAgree(r, x) {
      if x != id {
        assert StatesAgree(t, x);
      }
    }
  }

  /** Registering under a free key keeps every invariant; the new session has received nothing. */
  lemma RegisterKeepsValid(t: Tables, received: map<SessionId, seq<string>>, path: string, kind: SessionType)
    requires ManagerValid(t, received) && Lookup(t.sessionsByWorktree, path, kind).None?
    ensures ManagerValid(Register(t, path, kind), received[t.nextId := []])
  {
    var id := t.nextId;
    var r := Register(t, path, kind);
    assert id !in t.sessions.m;
    InsertKeepsMatch(t.sessions.m, t.sessionsByWorktree, NewSession(id, path, kind));
    assert r.sessions.m == t.sessions.m[id := NewSession(id, path, kind)];
    RegisterKeepsBuffers(t, received, path, kind);
    RegisterKeepsAgreement(t, path, kind);
  }

  /** The reap half of `createSession`: a session found under the key is unregistered. */
  function ReapTables(t: Tables, path: string, kind: SessionType): (r: Tables)
    requires Shaped(t)
    ensures Shaped(r)
  {
    var found := Lookup(t.sessionsByWorktree, path, kind);
    if found.Some? && found.value in t.sessions.m then Unregister(t, found.value) else t
  }

  /** The event of the reap half: the reaped session's destruction, if there was one. */
  function ReapEvents(t: Tables, path: string, kind: SessionType): (es: seq<Event>)
    requires Shaped(t)
    ensures |es| <= 1
  {
    var found := Lookup(t.sessionsByWorktree, path, kind);
    if found.Some? && found.value in t.sessions.m
    then [SessionDestroyed(Describe(t.sessions.m[found.value]), ReapTables(t, path, kind).sessions)] else []
  }

  /** The spawn half of `createSession`: a fresh id is drawn and registered unless the spawn failed. */
  function SpawnTables(t: Tables, path: string, kind: SessionType, spawnFailed: bool): (r: Tables)
    requires Shaped(t)
    ensures Shaped(r)
  {
    if spawnFailed then t.(nextId := t.nextId + 1) else Register(t, path, kind)
  }

  /** The event of the spawn half: the new session's creation, if the spawn succeeded. */
  function SpawnEvents(t: Tables, path: string, kind: SessionType, spawnFailed: bool): (es: seq<Event>)
    requires Shaped(t)
    ensures |es| <= 1
  {
    if spawnFailed then [] else [SessionCreated(Describe(NewSession(t.nextId, path, kind)), Register(t, path, kind).sessions)]
  }

  /**
   * The tables `createSession` leaves. A session found under the key and still alive
   * is reused and nothing changes; otherwise the reap half, then the spawn half.
   */
  function CreateTables(t: Tables, path: string, kind: SessionType, alive: bool, spawnFailed: bool): (r: Tables)
    requires Shaped(t)
    ensures Shaped(r)
  {
    var found := Lookup(t.sessionsByWorktree, path, kind);
    if found.Some? && alive then t else SpawnTables(ReapTables(t, path, kind), path, kind, spawnFailed)
  }

  /** The events `createSession` emits. */
  function CreateEvents(t: Tables, path: string, kind: SessionType, alive: bool, spawnFailed: bool): (es: seq<Event>)
    requires Shaped(t)
    ensures |es| <= 2
  {
    var found := Lookup(t.sessionsByWorktree, path, kind);
    if found.Some? && alive then []
    else ReapEvents(t, path, kind) + SpawnEvents(ReapTables(t, path, kind), path, kind, spawnFailed)
  }

  /** The process calls `createSession` makes: the liveness probe, the kill of a dead session, the spawn. */
  function CreateCalls(t: Tables, path: string, kind: SessionType, command: Command, alive: bool): (cs: seq<HostCall>)
    requires Shaped(t)
    ensures |cs| <= 3
  {
    var found := Lookup(t.sessionsByWorktree, path, kind);
    if found.Some? && alive then [Write(found.value, "")]
    else (if found.Some? then [Write(found.value, ""), Kill(found.value)] else []) + [Spawn(t.nextId, command, path)]
  }

  /** The reap half removes the session found under the key, if any, and frees the key. */
  lemma ReapFreesKey(t: Tables, path: string, kind: SessionType)
    requires Shaped(t) && IndexMatches(t.sessions.m, t.sessionsByWorktree) && IdsFresh(t)
    ensures var found := Lookup(t.sessionsByWorktree, path, kind);
      var r := ReapTables(t, path, kind);
      && (found.Some? ==> found.value in t.sessions.m)
      && r.nextId == t.nextId && IdsFresh(r)
      && Lookup(r.sessionsByWorktree, path, kind).None?
      && (forall x :: x in r.sessions.m <==> x in t.sessions.m && Some(x) != found)
      && (forall x | x in r.sessions.m :: r.sessions.m[x] == t.sessions.m[x])
  {
    var found := Lookup(t.sessionsByWorktree, path, kind);
    if found.Some? {
      var s := t.sessions.m[found.value];
      LookupAfterRemove(t.sessionsByWorktree, s.worktreePath, s.kind, path, kind);
    }
  }

  /** Under a free key, the spawn half uses up an id and registers it unless the spawn failed. */
  lemma SpawnAddsNew(t: Tables, path: string, kind: SessionType, spawnFailed: bool)
    requires Shaped(t) && IdsFresh(t) && Lookup(t.sessionsByWorktree, path, kind).None?
    ensures var r := SpawnTables(t, path, kind, spawnFailed);
      var id := t.nextId;
      && r.nextId == id + 1
      && (forall x :: x in r.sessions.m <==> x in t.sessions.m || (!spawnFailed && x == id))
      && (forall x | x in t.sessions.m :: r.sessions.m[x] == t.sessions.m[x])
      && (!spawnFailed ==>
            && r.sessions.m[id] == NewSession(id, path, kind)
            && r.sessions.keys == t.sessions.keys + [id]
            && Lookup(r.sessionsByWorktree, path, kind) == Some(id))
      && (spawnFailed ==> Lookup(r.sessionsByWorktree, path, kind).None?)
  {
    if !spawnFailed {
      assert t.nextId !in t.sessions.m;
      LookupAfterInsert(t.sessionsByWorktree, path, kind, t.nextId, path, kind);
    }
  }

  /** The tables of `createSession` are those of its reap half followed by its spawn half. */
  lemma CreateTablesCompose(t: Tables, path: string, kind: SessionType, alive: bool, spawnFailed: bool, mid: Tables, r: Tables)
    requires Shaped(t) && !(Lookup(t.sessionsByWorktree, path, kind).Some? && alive)
    requires mid == ReapTables(t, path, kind) && Shaped(mid) && r == SpawnTables(mid, path, kind, spawnFailed)
    ensures r == CreateTables(t, path, kind, alive, spawnFailed)
  {
  }

  /** The events of `createSession` are those of its reap half followed by those of its spawn half. */
  lemma CreateEventsCompose(t: Tables, path: string, kind: SessionType, alive: bool, spawnFailed: bool,
                            e0: seq<Event>, e1: seq<Event>, e2: seq<Event>)
    requires Shaped(t) && !(Lookup(t.sessionsByWorktree, path, kind).Some? && alive)
    requires e1 == e0 + ReapEvents(t, path, kind) && e2 == e1 + SpawnEvents(ReapTables(t, path, kind), path, kind, spawnFailed)
    ensures e2 == e0 + CreateEvents(t, path, kind, alive, spawnFailed)
  {
    var reap, spawn := ReapEvents(t, path, kind), SpawnEvents(ReapTables(t, path, kind), path, kind, spawnFailed);
    assert CreateEvents(t, path, kind, alive, spawnFailed) == reap + spawn;
    assert (e0 + reap) + spawn == e0 + (reap + spawn);
  }

  /** The calls of `createSession`: the probe and, for a dead session, its kill, then the spawn. */
  lemma CreateCallsCompose(t: Tables, path: string, kind: SessionType, command: Command, alive: bool,
                           h0: seq<HostCall>, h1: seq<HostCall>, h2: seq<HostCall>)
    requires Shaped(t) && !(Lookup(t.sessionsByWorktree, path, kind).Some? && alive)
    requires var found := Lookup(t.sessionsByWorktree, path, kind);
      h1 == h0 + (if found.Some? then [Write(found.value, ""), Kill(found.value)] else []) && h2 == h1 + [Spawn(t.nextId, command, path)]
    ensures h2 == h0 + CreateCalls(t, path, kind, command, alive)
  {
    var found := Lookup(t.sessionsByWorktree, path, kind);
    var probe := if found.Some? then [Write(found.value, ""), Kill(found.value)] else [];
    assert CreateCalls(t, path, kind, command, alive) == probe + [Spawn(t.nextId, command, path)];
    assert (h0 + probe) + [Spawn(t.nextId, command, path)] == h0 + (probe + [Spawn(t.nextId, command, path)]);
  }

  /** `createSession` reusing a live session under the key: no table changes and nothing is emitted. */
  lemma CreateReuses(t: Tables, path: string, kind: SessionType, command: Command, alive: bool, spawnFailed: bool)
    requires Shaped(t) && IndexMatches(t.sessions.m, t.sessionsByWorktree)
    requires Lookup(t.sessionsByWorktree, path, kind).Some? && alive
    ensures var found := Lookup(t.sessionsByWorktree, path, kind);
      && found.value in t.sessions.m
      && CreateTables(t, path, kind, alive, spawnFailed) == t
      && CreateEvents(t, path, kind, alive, spawnFailed) == []
      && CreateCalls(t, path, kind, command, alive) == [Write(found.value, "")]
  {
  }

  /**
   * The tables after `createSession` without a live session under the key: a dead one
   * is removed; a failed spawn only uses up an id; a successful one registers a fresh
   * session under the key, last in creation order.
   */
  lemma CreateReplaces(t: Tables, path: string, kind: SessionType, alive: bool, spawnFailed: bool)
    requires Shaped(t) && IndexMatches(t.sessions.m, t.sessionsByWorktree) && IdsFresh(t)
    requires !(Lookup(t.sessionsByWorktree, path, kind).Some? && alive)
    ensures var found := Lookup(t.sessionsByWorktree, path, kind);
      var r := CreateTables(t, path, kind, alive, spawnFailed);
      var id := t.nextId;
      && r.nextId == id + 1
      && (forall x :: x in r.sessions.m <==> (x in t.sessions.m && Some(x) != found) || (!spawnFailed && x == id))
      && (forall x | x in t.sessions.m && Some(x) != found :: r.sessions.m[x] == t.sessions.m[x])
      && (!spawnFailed ==>
            && r.sessions.m[id] == NewSession(id, path, kind)
            && r.sessions.keys[|r.sessions.keys| - 1] == id
            && Lookup(r.sessionsByWorktree, path, kind) == Some(id))
      && (spawnFailed ==> Lookup(r.sessionsByWorktree, path, kind).None?)
  {
    var reaped := ReapTables(t, path, kind);
    ReapFreesKey(t, path, kind);
    SpawnAddsNew(reaped, path, kind, spawnFailed);
    assert CreateTables(t, path, kind, alive, spawnFailed) == SpawnTables(reaped, path, kind, spawnFailed);
  }

  /**
   * The events of `createSession` without a live session under the key: the dead
   * session's destruction, then, unless the spawn failed, the new session's creation.
   */
  lemma CreateAnnounces(t: Tables, path: string, kind: SessionType, alive: bool, spawnFailed: bool)
    requires Shaped(t) && IndexMatches(t.sessions.m, t.sessionsByWorktree)
    requires !(Lookup(t.sessionsByWorktree, path, kind).Some? && alive)
    ensures var found := Lookup(t.sessionsByWorktree, path, kind);
      var es := CreateEvents(t, path, kind, alive, spawnFailed);
      && (found.Some? ==> found.value in t.sessions.m)
      && |es| == (if found.Some? then 1 else 0) + (if spawnFailed then 0 else 1)
      && (found.Some? ==> es[0] == SessionDestroyed(Describe(t.sessions.m[found.value]), ReapTables(t, path, kind).sessions))
      && (!spawnFailed ==>
            es[|es| - 1] == SessionCreated(Describe(NewSession(t.nextId, path, kind)), CreateTables(t, path, kind, alive, spawnFailed).sessions))
  {
    var reaped := ReapTables(t, path, kind);
    assert CreateEvents(t, path, kind, alive, spawnFailed) == ReapEvents(t, path, kind) + SpawnEvents(reaped, path, kind, spawnFailed);
    assert CreateTables(t, path, kind, alive, spawnFailed) == SpawnTables(reaped, path, kind, spawnFailed);
  }

  /** The calls of `createSession` without a live session under the key: the probe, the kill of a dead session, the spawn. */
  lemma CreateSpawns(t: Tables, path: string, kind: SessionType, command: Command, alive: bool)
    requires Shaped(t) && !(Lookup(t.sessionsByWorktree, path, kind).Some? && alive)
    ensures var found := Lookup(t.sessionsByWorktree, path, kind);
      CreateCalls(t, path, kind, command, alive) ==
        (if found.Some? then [Write(found.value, ""), Kill(found.value)] else []) + [Spawn(t.nextId, command, path)]
  {
  }

  // ---- Activation ----

  /**
   * The records after `setSessionActive` walks `ids`: each id still registered gets
   * the activity flag, nothing else changes and no key moves.
   */
  function Activated(sessions: Sessions, ids: seq<SessionId>, active: bool): (r: Sessions)
    requires sessions.Valid()
    ensures r.Valid() && r.keys == sessions.keys && r.m.Keys == sessions.m.Keys
    ensures forall x | x in sessions.m :: r.m[x] == sessions.m[x].(isActive := r.m[x].isActive)
    decreases |ids|
  {
    if ids == [] then sessions
    else
      var init := ids[..|ids| - 1];
      var id := ids[|ids| - 1];
      var prev := Activated(sessions, init, active);
      if id in prev.m then
        var r := prev.Set(id, prev.m[id].(isActive := active));
        assert r.keys == prev.keys;
        r
      else prev
  }

  /** Exactly the listed sessions take the flag; the others keep their records. */
  lemma {:induction false} ActivatedSetsListed(sessions: Sessions, ids: seq<SessionId>, active: bool)
    requires sessions.Valid()
    ensures var r := Activated(sessions, ids, active);
      forall x | x in sessions.m :: r.m[x] == if x in ids then sessions.m[x].(isActive := active) else sessions.m[x]
    decreases |ids|
  {
    if ids != [] {
      var init := ids[..|ids| - 1];
      ActivatedSetsListed(sessions, init, active);
      assert ids == init + [ids[|ids| - 1]];
    }
  }

  /**
   * The restore events `setSessionActive` emits while walking `ids`, in order: one per
   * registered session with a non-empty history, and only when activating.
   */
  function RestoreEvents(ids: seq<SessionId>, sessions: map<SessionId, Session>, active: bool): (es: seq<Event>)
    ensures |es| <= |ids|
    decreases |ids|
  {
    if ids == [] then []
    else
      var init := ids[..|ids| - 1];
      var last := ids[|ids| - 1];
      var earlier := RestoreEvents(init, sessions, active);
      earlier +
        (if active && last in sessions && |sessions[last].outputHistory| > 0
         then [SessionRestore(last, sessions[last].outputHistory)] else [])
  }

  /**
   * Each restore event is about a listed, registered session with a non-empty history,
   * carries that history and is emitted only when activating; when activating, every
   * such listed session has one.
   */
  lemma {:induction false} RestoreEventsListed(ids: seq<SessionId>, sessions: map<SessionId, Session>, active: bool)
    ensures var es := RestoreEvents(ids, sessions, active);
      && (forall e | e in es ::
            && e.SessionRestore? && e.sessionId in ids && e.sessionId in sessions && active
            && e.history == sessions[e.sessionId].outputHistory != [])
      && (active ==> forall i | 0 <= i < |ids| && ids[i] in sessions && sessions[ids[i]].outputHistory != [] ::
            SessionRestore(ids[i], sessions[ids[i]].outputHistory) in es)
    decreases |ids|
  {
    if ids != [] {
      var init := ids[..|ids| - 1];
      var last := ids[|ids| - 1];
      RestoreEventsListed(init, sessions, active);
      var es := RestoreEvents(ids, sessions, active);
      var earlier := RestoreEvents(init, sessions, active);
      assert forall e | e in earlier :: e in es;
      assert ids == init + [last];
      forall e | e in es
        ensures e.SessionRestore? && e.sessionId in ids && e.sessionId in sessions && active
        ensures e.history == sessions[e.sessionId].outputHistory != []
      {
        if e !in earlier {
          assert e == SessionRestore(last, sessions[last].outputHistory);
        }
      }
      if active {
        forall i | 0 <= i < |ids| && ids[i] in sessions && sessions[ids[i]].outputHistory != []
          ensures SessionRestore(ids[i], sessions[ids[i]].outputHistory) in es
        {
          if i < |init| {
            assert ids[i] == init[i];
          }
        }
      }
    }
  }

  /**
   * `setSessionActive(path, active)` sets the flag of exactly the sessions of the path,
   * and restores exactly those of them that have a history, when activating.
   */
  lemma ActivationTargetsPath(t: Tables, received: map<SessionId, seq<string>>, path: string, active: bool)
    requires RegistryOf(t, received)
    ensures var ids := WorktreeSessionIds(t.sessionsByWorktree, path);
      var r := Activated(t.sessions, ids, active);
      var es := RestoreEvents(ids, t.sessions.m, active);
      && (forall x | x in t.sessions.m ::
            r.m[x] == if t.sessions.m[x].worktreePath == path then t.sessions.m[x].(isActive := active) else t.sessions.m[x])
      && (forall e | e in es ::
            e.SessionRestore? && e.sessionId in t.sessions.m && t.sessions.m[e.sessionId].worktreePath == path)
      && (active ==> forall x | x in t.sessions.m && t.sessions.m[x].worktreePath == path && t.sessions.m[x].outputHistory != [] ::
            SessionRestore(x, t.sessions.m[x].outputHistory) in es)
  {
    var ids := WorktreeSessionIds(t.sessionsByWorktree, path);
    WorktreeSessionIdsExact(t.sessions.m, t.sessionsByWorktree, path);
    ActivatedSetsListed(t.sessions, ids, active);
    RestoreEventsListed(ids, t.sessions.m, active);
    var es := RestoreEvents(ids, t.sessions.m, active);
    forall e | e in es
      ensures e.SessionRestore? && e.sessionId in t.sessions.m && t.sessions.m[e.sessionId].worktreePath == path
    {
      var i :| 0 <= i < |ids| && ids[i] == e.sessionId;
    }
    if active {
      forall x | x in t.sessions.m && t.sessions.m[x].worktreePath == path && t.sessions.m[x].outputHistory != []
        ensures SessionRestore(x, t.sessions.m[x].outputHistory) in es
      {
        var i :| 0 <= i < |ids| && ids[i] == x;
      }
    }
  }

  /** Changing only activity flags keeps every invariant: activity is in no key, buffer or agreement. */
  lemma ActivityKeepsValid(t: Tables, received: map<SessionId, seq<string>>, sessions: Sessions)
    requires ManagerValid(t, received)
    requires sessions.Valid() && sessions.m.Keys == t.sessions.m.Keys
    requires forall x | x in sessions.m :: sessions.m[x] == t.sessions.m[x].(isActive := sessions.m[x].isActive)
    ensures ManagerValid(t.(sessions := sessions), received)
  {
    var t' := t.(sessions := sessions);
    forall x | x in sessions.m ensures BuffersFit(sessions.m[x], received[x]) {
      assert BuffersFit(t.sessions.m[x], received[x]);
    }
    SameKeysKeepRegistry(t, received, t', received);
    forall x | x in sessions.m ensures StatesAgree(t', x) {
      assert StatesAgree(t, x);
    }
  }

  // ---- Timers ----

  /** The idle timer of a session finds it busy, and setting it idle while dropping the timer keeps every invariant. */
  lemma BusyFiredKeepsValid(t: Tables, received: map<SessionId, seq<string>>, id: SessionId)
    requires ManagerValid(t, received) && id in t.busyTimers
    ensures id in t.sessions.m && t.sessions.m[id].state == Busy
    ensures ManagerValid(t.(sessions := t.sessions.Set(id, t.sessions.m[id].(state := Idle)), busyTimers := t.busyTimers - {id}), received)
  {
    var s := t.sessions.m[id];
    assert StatesAgree(t, id);
    assert BuffersFit(s, received[id]);
    ReplaceKeepsRegistry(t, received, id, s.(state := Idle), received[id]);
    assert received[id := received[id]] == received;
    var t1 := t.(sessions := t.sessions.Set(id, s.(state := Idle)));
    var t2 := t1.(busyTimers := t.busyTimers - {id});
    TimersKeepRegistry(t1, received, t2);
    assert t2.sessions.m == t.sessions.m[id := s.(state := Idle)];
    forall x | x in t2.sessions.m ensures StatesAgree(t2, x) {
      assert StatesAgree(t, x);
    }
  }

  /** Pending resizes and the handle supply play no part in the agreements. */
  lemma ResizeTimersKeepValid(t: Tables, received: map<SessionId, seq<string>>, t': Tables)
    requires ManagerValid(t, received)
    requires t' == t.(resizeTimers := t'.resizeTimers, nextTimer := t'.nextTimer) && TimersOk(t')
    ensures ManagerValid(t', received)
  {
    TimersKeepRegistry(t, received, t');
    forall x | x in t'.sessions.m ensures StatesAgree(t', x) {
      assert StatesAgree(t, x);
    }
  }

  /** Dropping every pending timer keeps every invariant. */
  lemma ClearTimersKeepsValid(t: Tables, received: map<SessionId, seq<string>>)
    requires ManagerValid(t, received)
    ensures ManagerValid(t.(busyTimers := map[], resizeTimers := map[]), received)
  {
    var t' := t.(busyTimers := map[], resizeTimers := map[]);
    TimersKeepRegistry(t, received, t');
    forall x | x in t'.sessions.m ensures StatesAgree(t', x) {
      assert StatesAgree(t, x);
    }
  }

  /** Drawing an id that is never registered keeps every invariant. */
  lemma IdDrawnKeepsValid(t: Tables, received: map<SessionId, seq<string>>)
    requires ManagerValid(t, received)
    ensures ManagerValid(t.(nextId := t.nextId + 1), received)
  {
    var t' := t.(nextId := t.nextId + 1);
    assert IndexMatches(t'.sessions.m, t'.sessionsByWorktree);
    forall x | x in t'.sessions.m ensures StatesAgree(t', x) {
      assert StatesAgree(t, x);
    }
  }

  // ---- Exit ----

  /**
   * The exit handler first marks the session idle: the tables still hold together
   * except for that session's agreement, and unregistering it afterwards gives what
   * unregistering it at once would.
   */
  lemma ExitMarkKeepsRegistry(t: Tables, received: map<SessionId, seq<string>>, id: SessionId)
    requires ManagerValid(t, received) && id in t.sessions.m
    ensures var t' := t.(sessions := t.sessions.Set(id, t.sessions.m[id].(state := Idle)));
      && RegistryOf(t', received) && AgreeExcept(t', id)
      && Unregister(t', id) == Unregister(t, id)
  {
    var s := t.sessions.m[id];
    var t' := t.(sessions := t.sessions.Set(id, s.(state := Idle)));
    assert BuffersFit(s, received[id]);
    ReplaceKeepsRegistry(t, received, id, s.(state := Idle), received[id]);
    assert received[id := received[id]] == received;
    assert t'.sessions.m == t.sessions.m[id := s.(state := Idle)];
    forall x | x in t'.sessions.m && x != id ensures StatesAgree(t', x) {
      assert StatesAgree(t, x);
    }
    assert t'.sessions.Delete(id).m == t.sessions.Delete(id).m;
  }

  // ---- Shutdown ----

  /** Every path of the index belongs to some live session. */
  lemma IndexPathsLive(t: Tables, received: map<SessionId, seq<string>>)
    requires RegistryOf(t, received)
    ensures forall p | p in t.sessionsByWorktree.m ::
      exists id | id in t.sessions.m :: t.sessions.m[id].worktreePath == p
  {
    forall p | p in t.sessionsByWorktree.m ensures exists id | id in t.sessions.m :: t.sessions.m[id].worktreePath == p {
      var k :| k in t.sessionsByWorktree.m[p].m;
      var id := Lookup(t.sessionsByWorktree, p, k).value;
      assert id in t.sessions.m && t.sessions.m[id].worktreePath == p;
    }
  }

  /** Tables with no live session hold no key, flag or timer either. */
  lemma EmptiedTablesAreEmpty(t: Tables, received: map<SessionId, seq<string>>)
    requires ManagerValid(t, received) && t.sessions.m == map[]
    ensures t.sessions.keys == [] && t.sessionsByWorktree.m == map[] && received == map[]
    ensures t.waitingWithBottomBorder == map[] && t.busyTimers == map[] && t.resizeTimers == map[]
  {
    t.sessions.SizeCountsKeys();
    IndexPathsLive(t, received);
  }

  /** One `Kill` per id, in order. */
  function Kills(ids: seq<SessionId>): (calls: seq<HostCall>)
    ensures |calls| == |ids|
    decreases |ids|
  {
    if ids == [] then [] else Kills(ids[..|ids| - 1]) + [Kill(ids[|ids| - 1])]
  }

  /** The `i`-th call kills the `i`-th id. */
  lemma {:induction false} KillsListed(ids: seq<SessionId>, i: nat)
    requires i < |ids|
    ensures Kills(ids)[i] == Kill(ids[i])
    decreases |ids|
  {
    if i < |ids| - 1 {
      KillsListed(ids[..|ids| - 1], i);
    }
  }

  /** What destroying a list of sessions leaves: the tables, the events emitted and the calls made. */
  datatype Teardown = Teardown(tables: Tables, events: seq<Event>, calls: seq<HostCall>)

  /**
   * `destroySessionById` applied to each id in turn: a registered id is killed,
   * unregistered and announced, an id no longer registered is skipped.
   */
  function DestroyEach(t: Tables, ids: seq<SessionId>): (r: Teardown)
    requires Shaped(t)
    ensures Shaped(r.tables)
    decreases |ids|
  {
    if ids == [] then Teardown(t, [], [])
    else
      var prev := DestroyEach(t, ids[..|ids| - 1]);
      var id := ids[|ids| - 1];
      if id in prev.tables.sessions.m then
        var next := Unregister(prev.tables, id);
        Teardown(next, prev.events + [SessionDestroyed(Describe(prev.tables.sessions.m[id]), next.sessions)], prev.calls + [Kill(id)])
      else prev
  }

  /** One step of the teardown removes the last id's record, if it is still there. */
  lemma DestroyEachStep(t: Tables, ids: seq<SessionId>)
    requires Shaped(t) && ids != []
    ensures DestroyEach(t, ids).tables.sessions.m == DestroyEach(t, ids[..|ids| - 1]).tables.sessions.m - {ids[|ids| - 1]}
  {
  }

  /** The teardown removes exactly the listed sessions; every other session is untouched. */
  lemma {:induction false} DestroyEachForgets(t: Tables, ids: seq<SessionId>)
    requires Shaped(t)
    ensures var r := DestroyEach(t, ids).tables;
      && (forall x :: x in r.sessions.m <==> x in t.sessions.m && x !in ids)
      && (forall x | x in r.sessions.m :: r.sessions.m[x] == t.sessions.m[x])
    decreases |ids|
  {
    if ids != [] {
      var init := ids[..|ids| - 1];
      DestroyEachForgets(t, init);
      DestroyEachStep(t, ids);
      assert ids == init + [ids[|ids| - 1]];
    }
  }

  /** A live session not in the list survives the teardown unchanged. */
  lemma {:induction false} DestroyEachKeeps(t: Tables, ids: seq<SessionId>, x: SessionId)
    requires Shaped(t) && x in t.sessions.m && x !in ids
    ensures var r := DestroyEach(t, ids).tables;
      x in r.sessions.m && r.sessions.m[x] == t.sessions.m[x]
    decreases |ids|
  {
    if ids != [] {
      DestroyEachKeeps(t, ids[..|ids| - 1], x);
    }
  }

  /** Destroying distinct live sessions kills each one once, in order, and emits one event per session. */
  lemma {:induction false} DestroyEachKills(t: Tables, ids: seq<SessionId>)
    requires Shaped(t) && Distinct(ids) && forall i | 0 <= i < |ids| :: ids[i] in t.sessions.m
    ensures DestroyEach(t, ids).calls == Kills(ids) && |DestroyEach(t, ids).events| == |ids|
    decreases |ids|
  {
    if ids != [] {
      var init := ids[..|ids| - 1];
      DistinctPrefix(ids);
      DestroyEachKills(t, init);
      DestroyEachKeeps(t, init, ids[|ids| - 1]);
    }
  }

  /** Dropping the last of distinct live ids leaves distinct live ids, without the last. */
  lemma LivePrefix(t: Tables, ids: seq<SessionId>)
    requires Distinct(ids) && ids != [] && forall i | 0 <= i < |ids| :: ids[i] in t.sessions.m
    ensures var init := ids[..|ids| - 1];
      Distinct(init) && ids[|ids| - 1] !in init && forall i | 0 <= i < |init| :: init[i] in t.sessions.m
  {
    DistinctPrefix(ids);
    var init := ids[..|ids| - 1];
    forall i | 0 <= i < |init| ensures init[i] in t.sessions.m {
      assert init[i] == ids[i];
    }
  }

  /** One step of the teardown on a registered id appends its announcement. */
  lemma DestroyEachEventStep(t: Tables, ids: seq<SessionId>)
    requires Shaped(t) && ids != []
    requires ids[|ids| - 1] in DestroyEach(t, ids[..|ids| - 1]).tables.sessions.m
    ensures var prev := DestroyEach(t, ids[..|ids| - 1]);
      DestroyEach(t, ids).events ==
        prev.events + [SessionDestroyed(Describe(prev.tables.sessions.m[ids[|ids| - 1]]), DestroyEach(t, ids).tables.sessions)]
  {
  }

  /** The last event announces the last session, described as it was before. */
  lemma DestroyEachAnnouncesLast(t: Tables, ids: seq<SessionId>)
    requires Shaped(t) && Distinct(ids) && ids != [] && forall i | 0 <= i < |ids| :: ids[i] in t.sessions.m
    ensures var d := DestroyEach(t, ids);
      && |d.events| == |ids|
      && |DestroyEach(t, ids[..|ids| - 1]).events| == |ids| - 1
      && d.events[..|ids| - 1] == DestroyEach(t, ids[..|ids| - 1]).events
      && d.events[|ids| - 1].SessionDestroyed?
      && d.events[|ids| - 1].session == Describe(t.sessions.m[ids[|ids| - 1]])
  {
    var init := ids[..|ids| - 1];
    LivePrefix(t, ids);
    DestroyEachKills(t, init);
    DestroyEachKeeps(t, init, ids[|ids| - 1]);
    DestroyEachEventStep(t, ids);
  }

  /** The `j`-th event announces the `j`-th session, described as it was before. */
  lemma {:induction false} DestroyEachAnnounces(t: Tables, ids: seq<SessionId>, j: nat)
    requires Shaped(t) && Distinct(ids) && forall i | 0 <= i < |ids| :: ids[i] in t.sessions.m
    requires j < |ids|
    ensures var d := DestroyEach(t, ids);
      j < |d.events| && d.events[j].SessionDestroyed? && d.events[j].session == Describe(t.sessions.m[ids[j]])
    decreases |ids|
  {
    var init := ids[..|ids| - 1];
    DestroyEachAnnouncesLast(t, ids);
    if j < |init| {
      LivePrefix(t, ids);
      DestroyEachAnnounces(t, init, j);
      var d := DestroyEach(t, ids).events;
      assert d[j] == d[..|init|][j];
      assert ids[j] == init[j];
    }
  }

  /**
   * `destroySession` removes exactly the sessions of the path, each killed and
   * announced once, and the path's entry of the index with them.
   */
  lemma DestroySessionEmptiesPath(t: Tables, received: map<SessionId, seq<string>>, path: string,
                                   t': Tables, received': map<SessionId, seq<string>>)
    requires RegistryOf(t, received)
    requires t' == DestroyEach(t, WorktreeSessionIds(t.sessionsByWorktree, path)).tables
    requires RegistryOf(t', received')
    ensures var ids := WorktreeSessionIds(t.sessionsByWorktree, path);
      var d := DestroyEach(t, ids);
      && (forall x :: x in t'.sessions.m <==> x in t.sessions.m && t.sessions.m[x].worktreePath != path)
      && (forall x | x in t'.sessions.m :: t'.sessions.m[x] == t.sessions.m[x])
      && d.calls == Kills(ids)
      && |d.events| == |ids|
      && (forall j | 0 <= j < |ids| ::
            ids[j] in t.sessions.m && d.events[j].SessionDestroyed? && d.events[j].session == Describe(t.sessions.m[ids[j]]))
      && path !in t'.sessionsByWorktree.m
  {
    var ids := WorktreeSessionIds(t.sessionsByWorktree, path);
    WorktreeSessionIdsExact(t.sessions.m, t.sessionsByWorktree, path);
    DestroyEachForgets(t, ids);
    DestroyEachKills(t, ids);
    forall j | 0 <= j < |ids|
      ensures ids[j] in t.sessions.m && DestroyEach(t, ids).events[j].SessionDestroyed? &&
              DestroyEach(t, ids).events[j].session == Describe(t.sessions.m[ids[j]])
    {
      DestroyEachAnnounces(t, ids, j);
    }
    IndexPathsLive(t', received');
  }

  /** `destroy` leaves no session, key, flag or timer; every session is killed and announced once, in creation order. */
  lemma DestroyAllEmpties(t: Tables, received: map<SessionId, seq<string>>, t': Tables, received': map<SessionId, seq<string>>)
    requires RegistryOf(t, received)
    requires t' == DestroyEach(t, t.sessions.keys).tables
    requires ManagerValid(t', received')
    ensures var d := DestroyEach(t, t.sessions.keys);
      && t'.sessions.m == map[] && t'.sessions.keys == [] && t'.sessionsByWorktree.m == map[]
      && t'.waitingWithBottomBorder == map[] && t'.busyTimers == map[] && t'.resizeTimers == map[]
      && d.calls == Kills(t.sessions.keys)
      && |d.events| == |t.sessions.keys|
      && (forall j | 0 <= j < |t.sessions.keys| ::
            d.events[j].SessionDestroyed? && d.events[j].session == Describe(t.sessions.m[t.sessions.keys[j]]))
  {
    DestroyEachForgets(t, t.sessions.keys);
    DestroyEachKills(t, t.sessions.keys);
    forall j | 0 <= j < |t.sessions.keys|
      ensures DestroyEach(t, t.sessions.keys).events[j].SessionDestroyed? &&
              DestroyEach(t, t.sessions.keys).events[j].session == Describe(t.sessions.m[t.sessions.keys[j]])
    {
      DestroyEachAnnounces(t, t.sessions.keys, j);
    }
    assert forall x | x in t'.sessions.m :: false;
    EmptiedTablesAreEmpty(t', received');
  }
}
