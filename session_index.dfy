/**
 * The session records of the session manager and its two lookup structures:
 * `sessions` (id to session) and `sessionsByWorktree` (worktree path to session type
 * to id), both JavaScript maps. This module holds the value-level facts; the class
 * that updates them in place is in module Manager.
 */
module SessionIndex {
  import opened Wrappers
  import opened JsMaps
  import opened Classifier

  type SessionId = nat
  type TimerId = nat

  datatype SessionType = Claude | Terminal

  /** `InternalSession` without the process handle and the activity time stamp. */
  datatype Session = Session(
    id: SessionId,
    worktreePath: string,
    kind: SessionType,
    state: SessionState,
    output: seq<string>,
    outputHistory: seq<string>,
    isActive: bool)

  /** The public `Session` descriptor handed to callers and listeners. */
  datatype SessionInfo = SessionInfo(id: SessionId, worktreePath: string, state: SessionState, kind: SessionType)

  function Describe(s: Session): SessionInfo {
    SessionInfo(s.id, s.worktreePath, s.state, s.kind)
  }

  /** A freshly spawned session: a shell starts idle, the agent starts busy. */
  function NewSession(id: SessionId, path: string, kind: SessionType): (s: Session)
    ensures s.state == Idle <==> kind == Terminal
    ensures s.state != WaitingInput
    ensures s.output == [] && s.outputHistory == [] && !s.isActive
  {
    Session(id, path, kind, if kind == Terminal then Idle else Busy, [], [], false)
  }

  type Sessions = JsMap<SessionId, Session>
  type Index = JsMap<string, JsMap<SessionType, SessionId>>

  /** `sessionsByWorktree.get(path)?.get(kind)` */
  function Lookup(idx: Index, path: string, kind: SessionType): Option<SessionId> {
    if path in idx.m && kind in idx.m[path].m then Some(idx.m[path].m[kind]) else None
  }

  /** Every map of the index is a well-formed JS map, and no path keeps an empty inner map. */
  ghost predicate WellFormedIndex(idx: Index) {
    idx.Valid() && forall p | p in idx.m :: idx.m[p].Valid() && idx.m[p].m != map[]
  }

  /** The index and the session table describe the same sessions, in both directions. */
  ghost predicate IndexMatches(sessions: map<SessionId, Session>, idx: Index) {
    && WellFormedIndex(idx)
    && (forall p, k | Lookup(idx, p, k).Some? ::
          Lookup(idx, p, k).value in sessions &&
          sessions[Lookup(idx, p, k).value].worktreePath == p &&
          sessions[Lookup(idx, p, k).value].kind == k)
    && (forall id {:trigger IndexedAt(idx, sessions[id], id)} | id in sessions :: IndexedAt(idx, sessions[id], id))
  }

  /** The session `s` is registered under its own key with the id `id`. */
  ghost predicate IndexedAt(idx: Index, s: Session, id: SessionId) {
    Lookup(idx, s.worktreePath, s.kind) == Some(id)
  }

  /** The registration steps of `createSession`: add the path's map if missing, then the type. */
  function IndexInsert(idx: Index, path: string, kind: SessionType, id: SessionId): (r: Index)
    requires WellFormedIndex(idx)
    ensures WellFormedIndex(r)
  {
    // a missing path first gets an empty map, which then receives the type
    var inner := (if path in idx.m then idx.m[path] else EmptyMap()).Set(kind, id);
    assert kind in inner.m;
    var r := idx.Set(path, inner);
    assert r.m == idx.m[path := inner];
    r
  }

  /** After registration the new key leads to the new id and every other key is as before. */
  lemma LookupAfterInsert(idx: Index, path: string, kind: SessionType, id: SessionId, p: string, k: SessionType)
    requires WellFormedIndex(idx)
    ensures Lookup(IndexInsert(idx, path, kind, id), p, k) == if p == path && k == kind then Some(id) else Lookup(idx, p, k)
  {
  }

  /** The clean-up steps of `destroySessionById`: delete the type, then the path once its map is empty. */
  function IndexRemove(idx: Index, path: string, kind: SessionType): (r: Index)
    requires WellFormedIndex(idx)
    ensures WellFormedIndex(r)
  {
    if path in idx.m then
      var inner := idx.m[path].Delete(kind);
      if inner.Size() == 0 then
        idx.Delete(path)
      else
        assert inner.keys[0] in inner.m;
        var r := idx.Set(path, inner);
        assert forall p | p in r.m && p != path :: r.m[p] == idx.m[p];
        r
    else
      idx
  }

  /** After clean-up the removed key is gone and every other key is as before. */
  lemma LookupAfterRemove(idx: Index, path: string, kind: SessionType, p: string, k: SessionType)
    requires WellFormedIndex(idx)
    ensures Lookup(IndexRemove(idx, path, kind), p, k) == if p == path && k == kind then None else Lookup(idx, p, k)
  {
    if p == path {
      LookupAfterRemoveSamePath(idx, path, kind, k);
    }
  }

  /** Within the cleaned path only the removed type is gone. */
  lemma LookupAfterRemoveSamePath(idx: Index, path: string, kind: SessionType, k: SessionType)
    requires WellFormedIndex(idx)
    ensures Lookup(IndexRemove(idx, path, kind), path, k) == if k == kind then None else Lookup(idx, path, k)
  {
    if path in idx.m {
      idx.m[path].Delete(kind).SizeCountsKeys();
    }
  }

  /** The path keeps an entry exactly while some other type is still registered under it. */
  lemma PathKeptAfterRemove(idx: Index, path: string, kind: SessionType)
    requires WellFormedIndex(idx)
    ensures var r := IndexRemove(idx, path, kind);
      && (forall p | p != path :: p in r.m <==> p in idx.m)
      && (path in r.m <==> exists k | k != kind :: Lookup(idx, path, k).Some?)
  {
    if path in idx.m {
      var inner := idx.m[path].Delete(kind);
      if inner.Size() == 0 {
        assert forall x | x in inner.m :: x in inner.keys;
        forall k | k != kind ensures Lookup(idx, path, k).None? {
          assert k !in inner.m;
        }
      } else {
        var k := inner.keys[0];
        assert k in inner.m && k != kind;
        assert Lookup(idx, path, k).Some?;
      }
    }
  }

  /** Registering a fresh session under a free key keeps the table and the index in step. */
  lemma InsertKeepsMatch(sessions: map<SessionId, Session>, idx: Index, s: Session)
    requires IndexMatches(sessions, idx)
    requires s.id !in sessions && Lookup(idx, s.worktreePath, s.kind).None?
    ensures IndexMatches(sessions[s.id := s], IndexInsert(idx, s.worktreePath, s.kind, s.id))
  {
    var sessions' := sessions[s.id := s];
    var idx' := IndexInsert(idx, s.worktreePath, s.kind, s.id);
    forall p, k | Lookup(idx', p, k).Some?
      ensures Lookup(idx', p, k).value in sessions'
      ensures sessions'[Lookup(idx', p, k).value].worktreePath == p
      ensures sessions'[Lookup(idx', p, k).value].kind == k
    {
      LookupAfterInsert(idx, s.worktreePath, s.kind, s.id, p, k);
    }
    forall id | id in sessions'
      ensures IndexedAt(idx', sessions'[id], id)
    {
      LookupAfterInsert(idx, s.worktreePath, s.kind, s.id, sessions'[id].worktreePath, sessions'[id].kind);
      if id != s.id {
        assert IndexedAt(idx, sessions[id], id);
      }
    }
  }

  /** Removing a registered session and its key keeps the table and the index in step. */
  lemma RemoveKeepsMatch(sessions: map<SessionId, Session>, idx: Index, id: SessionId)
    requires IndexMatches(sessions, idx) && id in sessions
    ensures IndexMatches(sessions - {id}, IndexRemove(idx, sessions[id].worktreePath, sessions[id].kind))
  {
    var s := sessions[id];
    var idx' := IndexRemove(idx, s.worktreePath, s.kind);
    forall p, k | Lookup(idx', p, k).Some?
      ensures Lookup(idx', p, k).value in sessions - {id}
      ensures sessions[Lookup(idx', p, k).value].worktreePath == p
      ensures sessions[Lookup(idx', p, k).value].kind == k
    {
      LookupAfterRemove(idx, s.worktreePath, s.kind, p, k);
      var x := Lookup(idx, p, k).value;
      assert sessions[x].worktreePath == p && sessions[x].kind == k;
      assert !(p == s.worktreePath && k == s.kind);
    }
    forall x | x in sessions - {id}
      ensures IndexedAt(idx', (sessions - {id})[x], x)
    {
      LookupAfterRemove(idx, s.worktreePath, s.kind, sessions[x].worktreePath, sessions[x].kind);
      assert IndexedAt(idx, sessions[x], x);
      assert IndexedAt(idx, sessions[id], id);
    }
  }

  /** Records that keep their worktree paths and types keep the table and the index in step. */
  lemma SameKeysKeepMatch(sessions: map<SessionId, Session>, sessions': map<SessionId, Session>, idx: Index)
    requires IndexMatches(sessions, idx) && sessions'.Keys == sessions.Keys
    requires forall x | x in sessions ::
      sessions'[x].worktreePath == sessions[x].worktreePath && sessions'[x].kind == sessions[x].kind
    ensures IndexMatches(sessions', idx)
  {
    forall x | x in sessions' ensures IndexedAt(idx, sessions'[x], x) {
      assert IndexedAt(idx, sessions[x], x);
    }
  }

  /** A key leads to a session exactly when some live session has that worktree path and type. */
  lemma LookupIff(sessions: map<SessionId, Session>, idx: Index, path: string, kind: SessionType)
    requires IndexMatches(sessions, idx)
    ensures Lookup(idx, path, kind).Some? <==>
      exists id | id in sessions :: sessions[id].worktreePath == path && sessions[id].kind == kind
  {
    if id :| id in sessions && sessions[id].worktreePath == path && sessions[id].kind == kind {
      assert IndexedAt(idx, sessions[id], id);
    }
  }

  /** At most one session per (worktree path, session type). */
  lemma OneSessionPerKey(sessions: map<SessionId, Session>, idx: Index, a: SessionId, b: SessionId)
    requires IndexMatches(sessions, idx) && a in sessions && b in sessions
    requires sessions[a].worktreePath == sessions[b].worktreePath && sessions[a].kind == sessions[b].kind
    ensures a == b
  {
    assert IndexedAt(idx, sessions[a], a) && IndexedAt(idx, sessions[b], b);
  }

  /** The ids registered under a path, in the order the path's map iterates them. */
  function WorktreeSessionIds(idx: Index, path: string): (ids: seq<SessionId>)
    requires WellFormedIndex(idx)
  {
    if path in idx.m then idx.m[path].Values() else []
  }

  /** Those ids are exactly the sessions whose worktree is the path, each listed once. */
  lemma WorktreeSessionIdsExact(sessions: map<SessionId, Session>, idx: Index, path: string)
    requires IndexMatches(sessions, idx)
    ensures var ids := WorktreeSessionIds(idx, path);
      && Distinct(ids)
      && (forall i | 0 <= i < |ids| :: ids[i] in sessions && sessions[ids[i]].worktreePath == path)
      && (forall id | id in sessions && sessions[id].worktreePath == path :: id in ids)
  {
    var ids := WorktreeSessionIds(idx, path);
    forall id | id in sessions && sessions[id].worktreePath == path ensures path in idx.m {
      assert IndexedAt(idx, sessions[id], id);
    }
    if path in idx.m {
      var inner := idx.m[path];
      forall i | 0 <= i < |ids| ensures ids[i] in sessions && sessions[ids[i]].worktreePath == path {
        assert Lookup(idx, path, inner.keys[i]) == Some(ids[i]);
      }
      forall i, j | 0 <= i < j < |ids| ensures ids[i] != ids[j] {
        assert Lookup(idx, path, inner.keys[i]) == Some(ids[i]);
        assert Lookup(idx, path, inner.keys[j]) == Some(ids[j]);
        DistinctPairwise(inner.keys);
      }
      DistinctPairwise(ids);
      forall id | id in sessions && sessions[id].worktreePath == path ensures id in ids {
        assert IndexedAt(idx, sessions[id], id);
        var i :| 0 <= i < |inner.keys| && inner.keys[i] == sessions[id].kind;
        assert ids[i] == id;
      }
    }
  }

  /** `getAllSessions()`: the descriptors of the live sessions, in creation order. */
  function DescribeAll(sessions: Sessions): seq<SessionInfo> {
    DescribeKeys(sessions.keys, sessions.m)
  }

  /** The descriptors of the listed keys that have a record, in order. */
  function DescribeKeys(keys: seq<SessionId>, m: map<SessionId, Session>): seq<SessionInfo> {
    if keys == [] then []
    else (if keys[0] in m then [Describe(m[keys[0]])] else []) + DescribeKeys(keys[1..], m)
  }

  /** Keys that all have a record give one descriptor each, in order. */
  lemma {:induction false} DescribeKeysAll(keys: seq<SessionId>, m: map<SessionId, Session>)
    requires forall i | 0 <= i < |keys| :: keys[i] in m
    ensures var all := DescribeKeys(keys, m);
      |all| == |keys| && forall i | 0 <= i < |all| :: all[i] == Describe(m[keys[i]])
  {
    if keys != [] {
      DescribeKeysAll(keys[1..], m);
    }
  }

  /** One descriptor per live session, in creation order, each live session listed. */
  lemma DescribeAllLists(sessions: Sessions)
    requires sessions.Valid()
    ensures var all := DescribeAll(sessions);
      && |all| == |sessions.keys|
      && (forall i | 0 <= i < |all| :: all[i] == Describe(sessions.m[sessions.keys[i]]))
      && (forall id | id in sessions.m :: Describe(sessions.m[id]) in all)
  {
    DescribeKeysAll(sessions.keys, sessions.m);
    var all := DescribeAll(sessions);
    forall id | id in sessions.m ensures Describe(sessions.m[id]) in all {
      var i :| 0 <= i < |sessions.keys| && sessions.keys[i] == id;
      assert all[i] == Describe(sessions.m[id]);
    }
  }
}
