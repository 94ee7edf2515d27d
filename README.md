# Session engine of claude-code-crew, in Dafny

This project models the server-side session engine of claude-code-crew. It has two parts.

- `SessionManager` keeps one pseudo-terminal session per (worktree path, session type).
  It buffers each session's output and classifies the output of agent sessions as
  idle, busy or waiting for input. It debounces resizes and tears sessions down.
- The WebSocket layer keeps track of which session each browser client is viewing
  (`clientSessions`). It forwards session output and history replays only to those
  viewers, broadcasts registry changes, and handles the clients' requests.

Modules, one per concern:

- `Text`, `Patterns`, `Escapes`: `includes`, ASCII `toLowerCase`, `trim`, the UTF-8
  byte length, and the regular-expression deletion passes of `stripAnsi` and
  `filterProblematicSequences`. Each pass is written as an exact per-position matcher.
- `Classifier`: the ordered rules of `detectSessionState` as a pure transition on the
  detected signals. It returns the new state, the border-flag update and the idle-timer action.
- `OutputBuffers`: the 10 MiB history and the 100-chunk window. Each is specified by what
  the session has received so far.
- `JsMaps`: JavaScript `Map` with its insertion order. It is used for the registry, the
  worktree index and `clientSessions`.
- `SessionIndex`, `Registry`: the session records, the two lookup maps and the invariant
  that ties them together. Also the events, the process calls and one lemma per step.
- `Launch`: the command line `createSession` spawns.
- `Manager`: class `SessionManager`. It updates its tables in place. It appends what it
  emits to `events` and what it asks of processes to `hostCalls`.
- `WebSocket`: class `Router`, which owns `clientSessions`, the connected sockets and an
  `outbox` of messages sent. It also holds the `getWorktreesWithSessions` join and the
  listener fan-outs.

## Model

| member | source | states |
|---|---|---|
| Classifier.BottomBorderIff | server/src/services/sessionManager.ts:52-60 | the border test holds exactly when a corner, one or more fill glyphs and the closing corner of one of the four box styles occur consecutively |
| Classifier.WaitingPromptWins | server/src/services/sessionManager.ts:91-103 | any waiting-prompt signal gives waiting_input, sets the flag to whether a border was seen and cancels the idle timer, whatever the prior state and other signals |
| Classifier.BorderRedraw | server/src/services/sessionManager.ts:104-116 | in waiting_input a border-only chunk with the flag down keeps waiting, raises the flag and cancels the timer; with the flag up it changes nothing |
| Classifier.InterruptHintMeansBusy | server/src/services/sessionManager.ts:117-124 | the interrupt hint (when no earlier rule applies) gives busy, lowers the flag and cancels the idle timer |
| Classifier.QuietBusyArmsTimer | server/src/services/sessionManager.ts:125-141 | a busy session with no prompt and no hint stays busy and asks for the idle timer, keeping the flag |
| Classifier.TransitionStates | server/src/services/sessionManager.ts:89-143 | for each of the three states, the exact condition on signals, prior state and flag under which it is the result |
| Classifier.TimerActions | server/src/services/sessionManager.ts:99-139 | a timer is armed only for a session staying busy, left alone only when nothing changes, and cancelled on every state change |
| Classifier.PromptTextMeansWaiting | server/src/services/sessionManager.ts:67-103 | a stripped chunk containing any of the fourteen prompt substrings is classified waiting_input, even if it also shows the interrupt hint |
| Classifier.InterruptHintAnyCase | server/src/services/sessionManager.ts:85-87 | the hint is detected in whatever ASCII letter case it is written |
| Escapes.StripAnsi | server/src/services/sessionManager.ts:19-31 | the result never lengthens the text, adds no character, and contains no ESC, no carriage return and none of the deleted control characters |
| Escapes.FilterProblematicSequences | server/src/services/sessionManager.ts:33-50 | the result never lengthens the data and only keeps characters of the input |
| Escapes.FilterLeavesPlainText | server/src/services/sessionManager.ts:33-50 | output containing no ESC is returned unchanged |
| Text.ContainsIffOccurs | server/src/services/sessionManager.ts:68-82 | the left-to-right scan used for `includes` holds exactly when the substring occurs at some index |
| OutputBuffers.EvictKeepsLongestFittingSuffix | server/src/services/sessionManager.ts:262-272 | eviction keeps a suffix of at most 10 MiB and drops a chunk only while the total is over the cap |
| OutputBuffers.HistoryStep | server/src/services/sessionManager.ts:259-272 | push-then-evict keeps the history equal to the longest suffix of all received chunks within 10 MiB |
| OutputBuffers.HistoryFitsUnique | server/src/services/sessionManager.ts:259-272 | that longest fitting suffix is unique, so the history is determined by what was received |
| OutputBuffers.LongerSuffixesOverCap | server/src/services/sessionManager.ts:267-272 | every suffix of the received chunks longer than the history weighs more than 10 MiB |
| OutputBuffers.WindowStep | server/src/services/sessionManager.ts:274-277 | push-then-shift keeps the window equal to the last at most 100 received chunks, in arrival order |
| OutputBuffers.HistoryOfFits | server/src/services/sessionManager.ts:259-272 | from an empty history, any sequence of chunks leaves the longest suffix within the cap |
| OutputBuffers.WindowOfFits | server/src/services/sessionManager.ts:274-277 | from an empty window, any sequence of chunks leaves the last min(n, 100) of them |
| OutputBuffers.ConcatBytes | server/src/websocket/index.ts:58-60 | the joined history is exactly as many UTF-8 bytes as the history's summed chunk sizes |
| Registry.PushHistory | server/src/services/sessionManager.ts:260-272 | the push and the eviction loop compute exactly the eviction of the extended history |
| SessionIndex.NewSession | server/src/services/sessionManager.ts:225-235 | a new session is idle exactly when it is a terminal (busy for the agent), never waiting, with empty buffers and inactive |
| SessionIndex.LookupAfterInsert | server/src/services/sessionManager.ts:240-244 | after registration the new key gives the new id and every other key is unchanged |
| SessionIndex.LookupAfterRemove | server/src/services/sessionManager.ts:433-440 | after the index clean-up the removed key gives nothing and every other key is unchanged |
| SessionIndex.PathKeptAfterRemove | server/src/services/sessionManager.ts:436-439 | the path keeps its entry exactly while another type is still registered under it |
| SessionIndex.InsertKeepsMatch | server/src/services/sessionManager.ts:238-244 | registering a fresh session under a free key keeps the table and the index in agreement both ways |
| SessionIndex.RemoveKeepsMatch | server/src/services/sessionManager.ts:433-442 | removing a session and its key keeps the table and the index in agreement both ways |
| SessionIndex.LookupIff | server/src/services/sessionManager.ts:320-330 | a (path, type) key leads to a session exactly when a live session has that path and type |
| SessionIndex.OneSessionPerKey | server/src/services/sessionManager.ts:240-244 | two live sessions with the same path and type are the same session |
| SessionIndex.WorktreeSessionIdsExact | server/src/services/sessionManager.ts:347-349 | the ids iterated for a path are exactly the live sessions of that path, each once |
| SessionIndex.DescribeAllLists | server/src/services/sessionManager.ts:458-466 | the descriptors follow creation order, one per live session, and every live session is listed |
| Launch.LaunchCommand | server/src/services/sessionManager.ts:179-204 | parameters always run the agent with them; otherwise a terminal runs the login shell (SHELL or /bin/sh, `-l`) and the agent runs with the space-split words of CC_CLAUDE_ARGS, or none |
| Launch.JoinSplit | server/src/services/sessionManager.ts:200-202 | joining the split pieces with the separator gives the variable back |
| Launch.SplitJoin | server/src/services/sessionManager.ts:200-202 | splitting a join of separator-free words gives the words back |
| Registry.UnregisterForgetsOnlyId | server/src/services/sessionManager.ts:410-446 | the clean-up removes the id from every map, leaves no index key leading to it, and keeps every other session, key and creation position |
| Registry.UnregisterKeepsValid | server/src/services/sessionManager.ts:410-446 | the clean-up keeps the registry invariant |
| Registry.BufferedKeepsValid | server/src/services/sessionManager.ts:258-279 | buffering a chunk keeps the invariant, now about one more received chunk |
| Registry.VerdictKeepsTimers | server/src/services/sessionManager.ts:99-139 | a verdict touches only a live session's flag and timer, and a new timer gets a fresh handle |
| Registry.VerdictElsewhere | server/src/services/sessionManager.ts:89-141 | a verdict about one session leaves every other session's flag and timer unchanged |
| Registry.VerdictAgrees | server/src/services/sessionManager.ts:89-141 | after a verdict, a pending idle timer means busy and a raised flag means waiting |
| Registry.ClassifiedKeepsValid | server/src/services/sessionManager.ts:295-309 | storing the verdict and its state keeps the invariant |
| Registry.RegisterAddsOne | server/src/services/sessionManager.ts:225-246 | registering under a free key adds exactly one fresh session, last in creation order, reachable by its key, and changes no other key |
| Registry.RegisterKeepsValid | server/src/services/sessionManager.ts:225-244 | registering under a free key keeps the invariant |
| Registry.ActivatedSetsListed | server/src/services/sessionManager.ts:345-363 | exactly the listed sessions take the activity flag; every other record is unchanged |
| Registry.RestoreEventsListed | server/src/services/sessionManager.ts:349-359 | each restore event is for a listed live session with a non-empty history, only when activating, and each such session gets one |
| Registry.ActivationTargetsPath | server/src/services/sessionManager.ts:345-363 | activation flags exactly the sessions of the path and restores exactly those of them with a history |
| Registry.ActivityKeepsValid | server/src/services/sessionManager.ts:345-363 | changing only activity flags keeps the invariant |
| Registry.BusyFiredKeepsValid | server/src/services/sessionManager.ts:127-137 | a pending idle timer always finds its session live and busy, and firing it keeps the invariant |
| Registry.PassesSizeCheckIff | server/src/services/sessionManager.ts:380-383 | a size pair is refused exactly when a numeric dimension is below 1 or above 1000; NaN fails every comparison and so passes |
| Registry.SizeCheckExamples | server/src/services/sessionManager.ts:380-383 | NaN and fractional sizes pass the check, 0 and 1001 do not |
| Registry.ResizeTimersKeepValid | server/src/services/sessionManager.ts:385-407 | replacing a pending resize by one whose sizes passed the size check, or dropping one, keeps the invariant |
| Registry.ClearTimersKeepsValid | server/src/services/sessionManager.ts:469-478 | clearing every timer keeps the invariant |
| Registry.IdDrawnKeepsValid | server/src/services/sessionManager.ts:175-177 | drawing an id that is never registered keeps the invariant |
| Registry.ExitMarkKeepsRegistry | server/src/services/sessionManager.ts:312-317 | marking an exiting session idle keeps the registry, and only that session's agreement is pending |
| Registry.IndexPathsLive | server/src/services/sessionManager.ts:433-440 | every path in the index belongs to a live session |
| Registry.EmptiedTablesAreEmpty | server/src/services/sessionManager.ts:468-484 | with no live session there is no key, flag, timer or buffer left |
| Registry.DestroyEachForgets | server/src/services/sessionManager.ts:448-456 | the teardown removes exactly the listed sessions; the others are untouched |
| Registry.DestroyEachKeeps | server/src/services/sessionManager.ts:448-456 | a live session not in the list survives unchanged |
| Registry.DestroyEachKills | server/src/services/sessionManager.ts:448-456 | each listed session is killed once, in order, with one event per session |
| Registry.DestroyEachAnnounces | server/src/services/sessionManager.ts:444 | the j-th event announces the destruction of the j-th session, described as it was |
| Registry.DestroySessionEmptiesPath | server/src/services/sessionManager.ts:448-456 | destroying a path removes exactly its sessions and its index entry, killing and announcing each once |
| Registry.DestroyAllEmpties | server/src/services/sessionManager.ts:468-484 | destroying everything leaves every table empty, killing and announcing each session once, in creation order |
| Manager.SessionManager.constructor | server/src/services/sessionManager.ts:12-17 | all five maps start empty, with no events and no process calls |
| Manager.SessionManager.GetSessionById | server/src/services/sessionManager.ts:341-343 | a session is found exactly when the id is live, and it is that record |
| Manager.SessionManager.GetSession | server/src/services/sessionManager.ts:320-339 | with a type, found exactly when a live session has that path and type; without one, found exactly when the path has a session, and it is the first of the path's map |
| Manager.SessionManager.GetAllSessions | server/src/services/sessionManager.ts:458-466 | one descriptor per live session in creation order, covering every live session |
| Manager.SessionManager.DetectSessionState | server/src/services/sessionManager.ts:62-144 | the returned state and the flag/timer updates are those of the classifier's verdict |
| Manager.SessionManager.FireBusyTimer | server/src/services/sessionManager.ts:127-137 | the session is live and busy when its timer fires, becomes idle, the change is announced, and the timer's entry goes |
| Manager.SessionManager.SetSessionActive | server/src/services/sessionManager.ts:345-363 | the path's sessions, in map order, take the flag; when activating, each with a history is announced for restore |
| Manager.SessionManager.ActivateNext | server/src/services/sessionManager.ts:349-360 | one loop step: the next id of the path's map is flagged and possibly announced |
| Manager.SessionManager.WriteToSession | server/src/services/sessionManager.ts:365-370 | input is forwarded to a live session's process and dropped otherwise |
| Manager.SessionManager.ResizeSession | server/src/services/sessionManager.ts:372-408 | an unknown session or a numeric dimension outside 1..1000 changes nothing; otherwise, NaN and fractions included, the pending resize is replaced by one with a fresh handle |
| Manager.SessionManager.FireResizeTimer | server/src/services/sessionManager.ts:392-405 | the process takes the dimensions that passed the size check and the timer's entry goes |
| Manager.SessionManager.DestroySessionById | server/src/services/sessionManager.ts:410-446 | a live id is killed, unregistered from every map and announced once; an unknown id changes nothing |
| Manager.SessionManager.DestroySession | server/src/services/sessionManager.ts:448-456 | the path's sessions are destroyed one by one in the map's order; afterwards the path has no index entry, the survivors are exactly the other paths' sessions, and they are unchanged |
| Manager.SessionManager.Destroy | server/src/services/sessionManager.ts:468-484 | all timers are cleared, then every session is destroyed in creation order, leaving every table empty |
| Manager.SessionManager.DestroyNext | server/src/services/sessionManager.ts:481-483 | one loop step: `destroySessionById` on the next id |
| Manager.SessionManager.ReuseOrReap | server/src/services/sessionManager.ts:147-173 | a live registered session is probed and returned with nothing changed; a dead one is destroyed; afterwards no session is left under the key unless reused |
| Manager.SessionManager.SpawnSession | server/src/services/sessionManager.ts:175-246 | the process is spawned with the launch command; a failed spawn registers nothing; otherwise one fresh session is registered and announced |
| Manager.SessionManager.CreateSession | server/src/services/sessionManager.ts:146-255 | a live session under the key is returned and nothing changes; otherwise a dead one is destroyed and exactly one fresh session is registered under the key, or the spawn error is reported; the returned descriptor is registered under the key; the new tables, events and process calls are those of reusing, reaping and spawning in that order (`Registry.CreateTables`, `Registry.CreateEvents`, `Registry.CreateCalls`) |
| Registry.ReapFreesKey | server/src/services/sessionManager.ts:148-173 | reaping a dead session under the key removes exactly that session, keeps every other record and the id counter, and leaves the key free |
| Registry.SpawnAddsNew | server/src/services/sessionManager.ts:175-246 | a spawn on a free key takes the next id; on success it adds exactly one new session, last in creation order and under the key, and keeps every other record; a failed spawn adds nothing and leaves the key free |
| Registry.CreateReuses | server/src/services/sessionManager.ts:149-165 | a live session under the key is reused: the tables are unchanged, nothing is announced, and the only call is the empty probe write |
| Registry.CreateReplaces | server/src/services/sessionManager.ts:146-255 | otherwise the sessions afterwards are the old ones minus the one under the key, plus the new one unless the spawn failed; the others are unchanged, the new one is last in creation order and under the key, and a failed spawn leaves the key free |
| Registry.CreateAnnounces | server/src/services/sessionManager.ts:166-246 | otherwise a reaped session's destruction is announced first and the new session's creation last, one event each |
| Registry.CreateSpawns | server/src/services/sessionManager.ts:153-223 | otherwise a dead session under the key is probed and killed before the new process is spawned with the launch command in the worktree |
| Manager.SessionManager.BufferChunk | server/src/services/sessionManager.ts:258-279 | the history and window become those of one more received chunk |
| Manager.SessionManager.ClassifyChunk | server/src/services/sessionManager.ts:295-309 | the verdict is stored and a state change is announced exactly when the state changes |
| Manager.SessionManager.OnData | server/src/services/sessionManager.ts:258-310 | the chunk is buffered; an active session forwards the filtered chunk; only a non-blank chunk of an agent session is classified, and a change is announced |
| Manager.SessionManager.ReactToChunk | server/src/services/sessionManager.ts:281-309 | forwarding only when active, then classification only for non-blank agent output |
| Manager.SessionManager.OnExit | server/src/services/sessionManager.ts:312-317 | the session is marked idle (announced), destroyed (announced), then its exit is announced |
| Manager.SessionManager.OnLateExit | server/src/services/sessionManager.ts:312-317 | the exit of an already destroyed session changes no table and announces only the idle state and the exit |
| WebSocket.FindIndex | server/src/websocket/index.ts:20 | the position of the first session with the path, or none exactly when no session has it |
| WebSocket.FindByPath | server/src/websocket/index.ts:20 | a listed session with the path, or none exactly when no session has it |
| WebSocket.JoinEntry | server/src/websocket/index.ts:19-25 | the join's i-th entry is the i-th worktree with the session `find` picks for its path |
| WebSocket.JoinFindsFirst | server/src/websocket/index.ts:13-26 | one entry per worktree in order, whole, joined with the first session of its path, none exactly when the path has no session |
| WebSocket.FanOutExact | server/src/websocket/index.ts:34-44 | a fan-out reaches exactly the connected sockets whose entry is the session, with the one payload |
| WebSocket.FanOutOnce | server/src/websocket/index.ts:36-43 | no socket gets the same message twice |
| WebSocket.SwitchStopsOutput | server/src/websocket/index.ts:194-201 | once a socket's entry moves to another session, output of the session it left no longer reaches it |
| WebSocket.RestorePayloadPlain | server/src/websocket/index.ts:56-63 | an ESC-free history is replayed exactly as the joined chunks |
| WebSocket.DeliveriesStep | server/src/websocket/index.ts:28-79 | running the listeners on one more event appends what that listener sends |
| WebSocket.DeliveriesAppend | server/src/websocket/index.ts:95-96 | running the listeners on two runs of events in turn sends what running them on both together sends |
| WebSocket.DataReachesViewers | server/src/websocket/index.ts:34-79 | output and history replays reach exactly the connected viewers of the session, each once; an empty history reaches nobody |
| WebSocket.Router.constructor | server/src/websocket/index.ts:7-10 | the routing table starts empty, with no sockets and nothing sent |
| WebSocket.Router.FanOut | server/src/websocket/index.ts:36-43 | the loop over the routing table sends exactly the fan-out messages, in the table's order |
| WebSocket.Router.Deliver | server/src/websocket/index.ts:28-79 | each listener sends its event's messages (two broadcasts for created, state-changed and destroyed; a fan-out for data and non-empty restores) |
| WebSocket.Router.Dispatch | server/src/websocket/index.ts:28-79 | the listeners run in order on the newly emitted events |
| WebSocket.Router.Connect | server/src/websocket/index.ts:82-90 | the new client gets the joined worktree list and then the session list |
| WebSocket.Router.Disconnect | server/src/websocket/index.ts:228-235 | only this socket's entry goes; every other entry and every session stays |
| WebSocket.Router.CreateRequest | server/src/websocket/index.ts:93-105 | the session (type defaulting to the agent) is created or reused and its path activated, with the tables, events and process calls of creation followed by activation; only then is the socket routed to it; a failed spawn sends the error to this socket only and changes no route |
| WebSocket.Router.CreateAndActivate | server/src/websocket/index.ts:95-96 | the tables, events and calls are those of creation followed, on success, by activating the path's sessions with their restore events; the returned session is registered under the key and active; a failure leaves the key free and activates nothing |
| WebSocket.Router.ActivateCreated | server/src/websocket/index.ts:96 | every session listed with the path is activated and its restore event emitted; the created session stays registered as described and becomes active, and nothing else about it changes |
| WebSocket.Router.RouteCreated | server/src/websocket/index.ts:97-103 | the listeners run on the manager's new events; a created session becomes this socket's view, while a failure changes no route and sends its message to this socket only |
| WebSocket.Router.InputRequest | server/src/websocket/index.ts:108-114 | input reaches a live session's process only |
| WebSocket.Router.ResizeRequest | server/src/websocket/index.ts:117-123 | invalid requests change nothing; valid ones replace the pending resize by one with the next handle and those dimensions, and nothing else changes |
| WebSocket.Router.ResolveRestore | server/src/websocket/index.ts:126-141 | a string or an object with an id resolves by id only; otherwise a non-empty path and a type resolve by key; anything else resolves to nothing |
| WebSocket.Router.RestoreRequest | server/src/websocket/index.ts:126-165 | a resolved session becomes this socket's view and its filtered history, if any, goes to this socket only; otherwise nothing changes |
| WebSocket.Router.SetActiveRequest | server/src/websocket/index.ts:168-191 | the first session listed with the path becomes this socket's view, the path's sessions are activated with their restore events, and the listeners run on those events; with none nothing changes |
| WebSocket.Router.SwitchTab | server/src/websocket/index.ts:193-216 | the session under the key becomes this socket's view and is acknowledged with its id, type and path; a request without a type takes the path's first session in map order; without a session nothing changes |
| WebSocket.Router.DestroyRequest | server/src/websocket/index.ts:219-225 | an unknown id changes nothing; a known session is unregistered, killed and announced, the routing table is unchanged, and the listeners run on the announcement |
| WebSocket.Router.ProcessOutput | server/src/websocket/index.ts:34-44 | a chunk is buffered, cleaned and forwarded, the session's state is classified, and the listeners run on the output and state events |
| WebSocket.Router.ProcessExit | server/src/websocket/index.ts:46-54 | an exiting session is marked idle, unregistered, killed and announced, its exit is emitted, and the listeners run on those events |
| WebSocket.Router.BusyTimerFired | server/src/websocket/index.ts:46-49 | a live busy session becomes idle, its timer goes, and the listeners broadcast the state change |
| WebSocket.Router.ResizeTimerFired | server/src/services/sessionManager.ts:392-405 | the process takes the pending dimensions, which passed the size check, the entry goes, and nothing else changes |
| WebSocket.Router.Shutdown | server/src/websocket/index.ts:239-247 | every timer is cleared and every session is destroyed, killed and announced in creation order, and the listeners run on the announcements |

## Left out

- The pseudo-terminal is abstract. Spawning, writing, resizing and killing are recorded as calls in `hostCalls`.
  - The liveness probe's outcome is the `alive` parameter of `CreateSession`.
  - A spawn failure is the `spawnError` parameter.
  - The environment built for the child (COLORTERM, TERM, TERM_PROGRAM) is not modelled.
  - The window size taken from `process.stdout` is not modelled.
- Session ids are drawn from a counter (`nextId`), not from `Date.now()` and `Math.random()`.
  - An id is a natural number, so an empty-string id in a `session:restore` object is represented as no id. JavaScript treats it as falsy too, so the request then goes by path and type.
  - The `lastActivity` time stamps are not modelled.
- A resize dimension is a number or NaN (`Registry.Dimension`). A request value that JavaScript compares as a number is represented by that number. The conversion of strings, `undefined` and other JSON values to numbers is not modelled; NaN stands for every value that converts to NaN.
- Timers are map entries with fresh handles, and firing one is an explicit method call. Neither the 500 ms and 50 ms delays nor elapsed time is modelled.
- Chunks are strings. A chunk's size is the UTF-8 byte length of its characters (Unicode scalar values), standing for `Buffer.from(data, 'utf8').length`.
- The history evicts whole chunks from the front, as the code does. It can therefore hold less than 10 MiB, and a single chunk over the cap empties it.
- `Text.ToLower` lower-cases ASCII letters only. A non-ASCII character whose lower case is ASCII (such as the Kelvin sign) is not folded.
- Console logging, `process.exit`, and the socket.io transport are not modelled.
  - A socket is its id. The connected sockets stand for `io.sockets.sockets`.
  - `io.emit` is a `ToAll` message in the outbox.
- The worktree service is not part of this model. Its list is a constant the router is built with.
- Every try/catch path other than a failed spawn is not modelled, because the modelled calls do not throw. This covers writing to a dead process, a failing resize and a failing kill.
- `activeSessionIds` in the `session:setActive` handler is computed and never used, so it is not modelled.
- Manager.SessionManager.OnData: requires the session to be registered. The source's handler closes over the session object and could run for output arriving after the session was destroyed. That late output would re-add the session's flag and timer entries, and it is not modelled.
- Manager.SessionManager.OnExit: requires the session to be registered. The exit of an already destroyed session is `Manager.SessionManager.OnLateExit`.
- WebSocket.Router.CreateRequest: the listeners run once, after both manager calls, rather than inside each. The routing table is the same throughout, so the messages are the same (`WebSocket.DeliveriesAppend`).
- The `session:created` and `session:stateChanged` broadcasts carry the five-field session descriptor (`SessionIndex.Describe`: id, path, state, type and, unmodelled, the activity time), not the whole internal session object that the listeners receive. The extra fields (process handle, buffers, history, `isActive`) are not part of the model's messages.
- Client components and type declarations are not part of this model.
