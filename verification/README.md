# Iotronic: a verified model of the control plane

Iotronic manages IoT boards. A conductor serves RPC calls, WAMP agents relay commands to the
boards, and both work on one database, one pool of public ports, one allow list per agent and one
nginx file per board. This project models the parts whose correctness depends on whole runs or on
a real algorithm, and proves what the code keeps.

`dafny verify dfyconfig.toml` checks everything. One file per component:

| file | component |
|---|---|
| `HashRings.dfy` | the consistent hash ring |
| `Sessions.dfy` | boards, WAMP sessions, agent assignment |
| `Requests.dfy` | main requests, their children and results |
| `PortPool.dfy`, `AllowLists.dfy` | public ports, exposed services, allow lists |
| `ObjectModel.dfy` | coercion, change tracking, serialisation, column-wise save |
| `PeriodicTasks.dfy` | the periodic scheduler |
| `ProcessLaunching.dfy` | forking and respawning workers |
| `Pagination.dfy` | listing by next links |
| `NginxRedirect.dfy` | redirect lines in a server file |
| `WebserviceDns.dfy` | webservices of a board: their names, and the domain list it is sent |
| `TunnelPorts.dfy` | ports of virtual interfaces |
| `Migrations.dfy` | batched online migrations |
| `Collections.dfy` | shared list vocabulary |

## How the model is built

* Objects that the program updates in place are classes; their methods are proved against
  functions on values (`Step`, `Lookup`, `Spend`, ...), and the main results are lemmas about those
  functions over every run or every input.
* A handler that runs without a remote call in the middle is one atomic step. Where a remote call
  separates two parts of a handler, they are two steps and other handlers may run between them
  (`Requests`, `AllowLists`, `WebserviceDns`).
* The clock, random numbers, MD5, ISO-8601 text, `str`, `int`, `literal_eval`, pids, signals and
  replies of boards are parameters or nondeterministic choices.
* Assumptions on the environment are explicit: session ids and request uuids are never reused,
  board ids and webservice uuids are not reused, nothing else rewrites a board's status, one
  conductor owns the port pool, the servers' threads do not interleave inside one step (a database
  read and write, a use of the lists of ports in memory, or an agent's reading and rewriting of its
  allow-list or nginx file), fork returns a pid that is not in use, the clock does not go back,
  periodic tasks have distinct names, and the table does not change while a client follows next
  links.

## What the code does not do

Some properties one would expect fail. The code is modelled as it is; each failure has its exact
condition or the family of runs that shows it.

* Hosts of a ring can share a point, and the last one listed takes it. The table is independent of
  the host order, and a rebuilt ring loses just the points of the hosts left out, if and only if no
  two hosts share a point (`OrderIrrelevantIffDisjoint`, `RebuildingTakesOutPointsIffDisjoint`). If
  the next point after a shared one belongs to a third host, some key gets different answers when
  the owner is ignored and when the ring is rebuilt without it (`CollisionBreaksConsistency`). With
  the hosts left kept in list order, ignoring equals rebuilding for all keys and replicas if and
  only if every point the rebuilt ring regains belongs to the next live owner clockwise
  (`IgnoringEqualsRebuildingIff`).
  Because the key is fed again before every digest, a host whose name repeats another's `m` times
  shares a point with it as soon as hosts have more than `2m - 2` points (`AliasedNamesCollide`);
  with a collision-free digest only names with a common repetition collide
  (`DisjointIffNoCommonRepetition`).
* `get_hosts` does not end when more hosts are wanted than live hosts own points
  (`ProbeNeverEnds`). `CanServe` is the exact condition and the precondition of `GetHosts`. There
  are such rings for every digest: a host named `h` twice over, listed before `h` and its longer
  repetitions, owns no point (`CrowdedRingNeverServes`).
* The class comment of the ring speaks of the closest lower divider; `bisect` picks the next
  strictly higher point and wraps, and so does the model.
* A board can leave `registered` without an agent and then never gets one. It has an agent if and
  only if a registration took it out of `registered`; a connection or a leave strands it
  (`AgentIffRegisteredOut`, `OtherwiseStranded`). Two ways there: a registration that is not
  completed, because no agent is online or the board has no location, still creates a session, and
  that session leaves (`FailedRegistrationStrands`); or the board connects before it has registered,
  which the handler does not check (`EarlyConnectionStrands`).
* A main request's counter is right if and only if no child's terminal result was delivered twice
  (`RequestAccounting`): a terminal notification for a completed child makes it wrong for good
  (`RepeatedNotificationMiscounts`). Disabling the webservice of an offline board announces three
  children and issues none, so its main request stays pending for ever
  (`OfflineDisableNeverCompletes`).
* Ports are conserved through a run if and only if the cache is never rebuilt while a port is in
  flight (`RunConservesIff`). `enable_webservice` draws twice before recording a port; it is safe
  if and only if the list its first draw picks from, after the rebuild of an empty cache, does not
  hold exactly one port (`DoubleDrawConservesIff`). With one port left it uses that port for both
  http and https instead of reporting that there are not enough (`LastPortIsDrawnTwice`).
* `ServiceDisable` returns the port before it removes the allow-list entry. If another handler
  exposes the port for the same board in between, the new row ends up without an entry
  (`RedrawDuringRemovalUncovers`). A run keeps every exposed row allowed throughout if and only if no
  removal in it meets an exposed row using its entry and no row in it is created after its entry is
  gone (`RunCoversIff`). This holds of every run in which no rebuild of the cache meets a port in
  flight and no port is drawn again for a board while its entry is still to be removed
  (`ExposedRowsStayAllowed`), and also when such a draw is given up, or listed after the removal.
* Two creations of one webservice name can both pass the check, and the table takes both rows when
  their ports differ (`OverlappingCreationsCollide`). Names stay distinct through a run if and only
  if no creation is recorded while its name, but not its port, is in the table (`RunDistinctIff` of
  `WebserviceDns`), and through every way the handlers under way can end if and only if creations
  that share a name share the port and no row bears a creation's name under another port
  (`FinishingStaysDistinctIff`). The list a creation sends goes stale when another handler changes
  the names before its row is there (`AnnouncementCurrentIff`), and a destroyed name that another
  row bears as well is missing from the list sent (`RemovalAnnouncedIff`).
* A plain dictionary with the marker key of a dehydrated object does not survive the round trip,
  and nothing else breaks it (`RoundTripIffUnmarked`).
* A setter marks its field as changed before the coercion that may fail, so an object can be dirty
  in a field that is not set; saving it then fails (`Board.Set`, `Board.Save`). A refresh marks the
  fields it overwrites as changed (`Board.Refresh`).
* A redirect inserted after an unterminated fourth line is glued to it (`FirstAddReadsBackIff`).
* After a hit the tunnel-port scan resumes at the second entry and may pick the newest live port
  again. A creation puts a port into the list twice if and only if its first draw is live and the
  first later draw that is not in the tail is the head (`StepDistinctIff` of `TunnelPorts`), and some
  draws do whenever a port is live: the newest one twice (`AllDrawsSafeIff`, `SomeDrawsDuplicate`).

## Model

| member | source | states |
|---|---|---|
| HashRings.HashRing.constructor | iotronic/common/hash_ring.py:69-98 | the nested loops build exactly the ring that `Build` specifies, with the sorted list of its points |
| HashRings.HashRing.GetPartition | iotronic/common/hash_ring.py:107-117 | rotating the points at the returned index gives them clockwise from the first one strictly above the key, with wraparound; missing data is an error |
| HashRings.HashRing.Probe | iotronic/common/hash_ring.py:143-149 | linear probing ends, at the next owner of the walk that is neither chosen nor ignored |
| HashRings.HashRing.Serve | iotronic/common/hash_ring.py:138-150 | the loops return the first meetings of the walk, as many as wanted |
| HashRings.HashRing.GetHosts | iotronic/common/hash_ring.py:119-151 | whenever enough live hosts own points the answer is the reference lookup that skips the given hosts (none when there is no list): distinct hosts of the ring, none of them given; missing data is an error |
| HashRings.PlaceOwners | iotronic/common/hash_ring.py:88-95 | every point of a listed host is on the ring and every entry is a point of its owner |
| HashRings.RingPoints | iotronic/common/hash_ring.py:88-95 | the points are exactly the digests of the texts that repeat a listed host at least twice and at most one time more than two to the exponent |
| HashRings.PowersMultiply | iotronic/common/hash_ring.py:88-95 | the number of points a host gets is the power of two |
| HashRings.LookupServesLiveHosts | iotronic/common/hash_ring.py:122-151 | if every host owns a point, a lookup ends and returns min(replicas, live hosts) pairwise distinct hosts, none ignored |
| HashRings.LookupCount | iotronic/common/hash_ring.py:83-151 | whenever a lookup ends it returns as many hosts as the ring was asked for, up to the hosts that are not ignored |
| HashRings.DisjointLookupCount | iotronic/common/hash_ring.py:83-151 | with disjoint points that is the number for every key and every set of ignored hosts |
| HashRings.LookupIsNearestLiveOwners | iotronic/common/hash_ring.py:138-151 | the hosts stand at increasing positions of the clockwise walk, and everything walked before each is ignored or already chosen |
| HashRings.NearestFirst | iotronic/common/hash_ring.py:107-117 | the first host owns the nearest live point above the key |
| HashRings.ProbeNeverEnds | iotronic/common/hash_ring.py:139-149 | with too few live owners the request is unmet while every partition is skipped |
| HashRings.CrowdedRingNeverServes | iotronic/common/hash_ring.py:88-98 | for every digest there are host lists on whose ring a lookup for all hosts never ends |
| HashRings.IgnoringEqualsRebuilding | iotronic/common/hash_ring.py:122-151 | consistent hashing: ignoring hosts equals rebuilding the ring, in any order, without them |
| HashRings.RemovalMovesOnlyServedKeys | iotronic/common/hash_ring.py:57-67 | rebuilding without some hosts changes the answer of no key they did not serve |
| HashRings.OrderIrrelevantIffDisjoint | iotronic/common/hash_ring.py:88-98 | the table is the same for every host order iff no two hosts share a point |
| HashRings.RebuildingTakesOutPointsIffDisjoint | iotronic/common/hash_ring.py:57-67 | rebuilding without some hosts takes out exactly their points, for every choice of hosts and order of the rest, iff no two hosts share a point |
| HashRings.IgnoringEqualsRebuildingIff | iotronic/common/hash_ring.py:88-151 | with the hosts left in list order, ignoring equals rebuilding for every key (a text) and number of replicas iff each point the rebuilt ring regains belongs to the next live owner clockwise |
| HashRings.FittingInServesAlike | iotronic/common/hash_ring.py:138-150 | then a lookup on the rebuilt ring ends iff the lookup that ignores does |
| HashRings.CollisionBreaksConsistency | iotronic/common/hash_ring.py:92-97 | if the next point after a shared one belongs to a third host, ignoring the owner and rebuilding without it, in any order, answer some key differently |
| HashRings.DisjointRingOwnsAll | iotronic/common/hash_ring.py:88-98 | with disjoint points every host owns one, so every lookup ends |
| HashRings.AliasedNamesCollide | iotronic/common/hash_ring.py:90-95 | whatever the digest, a name that repeats another `m` times shares a point with it once hosts have more than `2m - 2` points |
| HashRings.DisjointIffNoCommonRepetition | iotronic/common/hash_ring.py:90-95 | with a collision-free digest, points are disjoint iff no two names have a common repetition |
| Sessions.Tables.Connection | iotronic/wamp/functions.py:125-169 | a known board's former session is invalidated, the new one added, the board online, with what it reported about itself; an unknown board changes nothing |
| Sessions.Tables.Registration | iotronic/conductor/endpoints.py:203-257 | the session changes hands; a first registration draws an online agent, a later one keeps the agent; with no agent online or no location the session stays but the board does not change |
| Sessions.Tables.BoardOnLeave | iotronic/wamp/functions.py:105-122 | only the leave of a valid session changes the tables |
| Sessions.Tables.UpdateSessions | iotronic/wamp/functions.py:62-90 | the loop drops exactly the agent's valid sessions that the router does not list |
| Sessions.Tables.AddressedSession | iotronic/conductor/endpoints.py:327-336 | a session is addressed iff the board exists, is online and has exactly one valid session, and then it is that one |
| Sessions.StepRefines | iotronic/wamp/functions.py:62-169 | every handler keeps the invariant and moves each board exactly as its own machine would move alone |
| Sessions.RunRefines | iotronic/wamp/functions.py:62-169 | over every run the shared tables show each board as its own machine would be |
| Sessions.LiveSessionIsLatest | iotronic/wamp/functions.py:134-153 | a live session is that of the latest announcement, and the board is online iff that was a connection |
| Sessions.InfoIsLastReported | iotronic/wamp/functions.py:156-165 | over every run a board shows the version it reported last and the MAC address, or failing that the connectivity, it reported last |
| Sessions.SessionsAreHistory | iotronic/wamp/functions.py:134-153 | over every run a board's session rows are all the sessions announced since its creation |
| Sessions.CommandsReachLatestConnection | iotronic/conductor/endpoints.py:327-336 | over every run a command is addressed iff the board is online, and then to its one valid session, that of its latest connection |
| Sessions.LateLeaveIsHarmless | iotronic/wamp/functions.py:105-122 | the late leave of a superseded session changes nothing |
| Sessions.AgentIsFixed | iotronic/conductor/endpoints.py:230-252 | an assigned agent is never reassigned, and a board that left `registered` without one never gets one |
| Sessions.AgentIffRegisteredOut | iotronic/conductor/endpoints.py:230-252 | over every run a board that left `registered` has an agent iff a registration took it out, and then the one drawn there; it has none iff a connection or a leave did |
| Sessions.OtherwiseStranded | iotronic/conductor/endpoints.py:230-238 | a board taken out of `registered` by a connection or a leave has no agent in every continuation |
| Sessions.FailedRegistrationStrands | iotronic/conductor/endpoints.py:226-252 | from any state in which the board waits, a registration that is not completed followed by the leave of its session leaves it without an agent in every continuation |
| Sessions.EarlyConnectionStrands | iotronic/wamp/functions.py:125-169 | from any state in which the board waits, a connection leaves it without an agent in every continuation |
| Sessions.ReconcileIsExact | iotronic/wamp/functions.py:62-90 | reconciling keeps the intersection, takes exactly the dropped boards offline, touches no other agent and is idempotent |
| Requests.RequestTables.ProcessReply | iotronic/conductor/endpoints.py:359-375 | a terminal reply completes the request and counts its main request down once; a RUNNING reply changes nothing |
| Requests.RequestTables.CountMainDown | iotronic/conductor/endpoints.py:368-373 | the counter drops by one and the main request completes at exactly zero |
| Requests.RequestTables.NotifyResult | iotronic/wamp/functions.py:180-206 | a notification completes the request iff no selected result is still running; an unknown result is an error |
| Requests.AnswerEffect | iotronic/db/sqlalchemy/api.py:239-259 | replies and notifications complete a request exactly when they deliver a terminal outcome to it |
| Requests.StepKeepsInv | iotronic/conductor/endpoints.py:338-342 | every step keeps one result per request and children under open main requests |
| Requests.RunAccounted | iotronic/conductor/endpoints.py:359-373 | over every run the counter is the announced number minus completed children minus repeated deliveries, and completion means they add up to it |
| Requests.CompletedIffDelivered | iotronic/wamp/functions.py:185-202 | a child is completed iff a terminal outcome was delivered to it |
| Requests.NoRepeatsIffAtMostOnce | iotronic/wamp/functions.py:195-204 | no repeated delivery was counted iff every child had at most one |
| Requests.StoredIsLatest | iotronic/conductor/endpoints.py:359-364 | over every run a result row holds the outcome of the latest notification or terminal reply delivered to it |
| Requests.RunningAfterCompletion | iotronic/wamp/functions.py:185-197 | a completed request has a RUNNING result only if a RUNNING notification came after it was completed |
| Requests.RefusalIsRecorded | iotronic/conductor/endpoints.py:1089-1110 | a refusal leaves a completed main request and a warning |
| Requests.ReturnsOnce | iotronic/conductor/endpoints.py:338-359 | over every run the call of a request returns or times out at most once |
| Requests.RequestAccounting | iotronic/conductor/endpoints.py:79-92 | the counter is exact iff each terminal result came at most once, and then completion, zero and all children completed coincide |
| Requests.AnnouncedIffCalled | iotronic/conductor/endpoints.py:981-1235 | a handler announces as many children as it calls iff it does not disable an offline board |
| Requests.FinishedHandlerCompletes | iotronic/conductor/endpoints.py:981-1235 | once all calls are made and answered once, the main request is completed iff it was not to disable an offline board |
| Requests.RepeatedNotificationMiscounts | iotronic/wamp/functions.py:180-206 | after any run, a terminal notification for a completed child makes the counter differ from announced minus completed children, whatever follows |
| Requests.OfflineDisableNeverCompletes | iotronic/conductor/endpoints.py:1128-1181 | disabling the webservice of an offline board leaves its main request pending in every run |
| PortPool.PortCache.RandomPublicPort | iotronic/conductor/endpoints.py:116-133 | a listed port is returned and removed, the list rebuilt first when empty; nothing when there is none |
| PortPool.PortCache.DrawWebservicePorts | iotronic/conductor/endpoints.py:1001-1004 | the two draws of enable_webservice with the possible rebuild between them |
| PortPool.RefillConserves | iotronic/conductor/endpoints.py:118-125 | a rebuild keeps ports conserved iff nothing is in flight |
| PortPool.StepConservesIff | iotronic/conductor/endpoints.py:532-580 | each step keeps free, exposed, in-flight and lost ports a partition of the range iff a rebuild in it meets nothing in flight |
| PortPool.WhatComesBack | iotronic/conductor/endpoints.py:116-133 | a released port can be drawn at once; a dropped or abandoned one only by a rebuild |
| PortPool.RunConservesIff | iotronic/conductor/endpoints.py:116-133 | a run conserves ports throughout iff no rebuild in it meets a port in flight |
| PortPool.ExposedPortsAreDistinct | iotronic/conductor/endpoints.py:552-558 | in such runs no two exposed services share a port and the four places account for every port |
| PortPool.DoubleDrawConservesIff | iotronic/conductor/endpoints.py:1001-1018 | drawing twice before recording is safe iff the list the first draw picks from does not hold one port |
| PortPool.LastPortIsDrawnTwice | iotronic/conductor/endpoints.py:1001-1004 | with one port left, http and https get the same port |
| AllowLists.AgentEndpoint.AddinAllowlist | iotronic/wamp/agent.py:166-188 | a missing entry is appended, a present one left alone, an unreadable file untouched |
| AllowLists.AgentEndpoint.RemoveFromAllowlist | iotronic/wamp/agent.py:191-209 | the first matching entry goes; nothing happens without one or without the file |
| AllowLists.StepKeepsInv | iotronic/conductor/endpoints.py:532-590 | every guarded step keeps ports conserved, listed ports of tasks allowed, lists duplicate-free and due removals unused |
| AllowLists.StepCoversIff | iotronic/conductor/endpoints.py:532-590 | a step keeps every exposed row allowed iff it does not remove an entry in use and does not create a row whose entry is gone |
| AllowLists.RunCoversIff | iotronic/conductor/endpoints.py:532-590 | any run whatever keeps every exposed row allowed throughout iff all its removals and row creations are of that kind |
| AllowLists.ExposedRowsStayAllowed | iotronic/conductor/endpoints.py:1023-1065 | at every point of every guarded run each exposed row of a board not being destroyed is in its agent's allow list, lists are duplicate-free and ports distinct |
| AllowLists.DisallowCoversIff | iotronic/conductor/endpoints.py:586-590 | removing an entry keeps the cover iff no exposed row uses it |
| AllowLists.EntriesAccounted | iotronic/conductor/endpoints.py:284-290 | over every guarded run each entry is in its board's agent's list and belongs to an exposed row, a task or a removal still to come, unless a listed task was given up or a board went while listed |
| AllowLists.DestroyedEntryGone | iotronic/conductor/endpoints.py:284-288 | removing a row's entry when its board is destroyed takes it out of the list |
| AllowLists.CleanDestroyLeavesNothing | iotronic/conductor/endpoints.py:284-290 | a board all of whose entries were removed leaves none behind |
| AllowLists.WebPortsReturned | iotronic/conductor/endpoints.py:1146-1171 | disabling a webservice returns its https port to the list and loses its http port |
| AllowLists.TasksEnd | iotronic/conductor/endpoints.py:532-562 | a recorded task becomes a row; one given up loses its port and keeps its entry |
| AllowLists.BoardsEnd | iotronic/conductor/endpoints.py:259-290 | a destroyed board takes its own rows with it and no others |
| AllowLists.GoneForGood | iotronic/conductor/endpoints.py:290 | no row of a destroyed board appears again |
| AllowLists.RedrawDuringRemovalUncovers | iotronic/conductor/endpoints.py:575-590 | exposing a released port for the same board before its entry is removed leaves the new row uncovered |
| ObjectModel.CoerceIdempotent | iotronic/objects/utils.py:28-75 | a stored value is left alone by its own setter |
| ObjectModel.CoercedIsTyped | iotronic/objects/utils.py:28-75 | a setter stores only values of its field's type and leaves exactly those alone |
| ObjectModel.CoercedTexts | iotronic/objects/utils.py:28-75 | what becomes of texts, naive times, truth values and nulls that are not of the field's type |
| ObjectModel.RefusedValues | iotronic/objects/utils.py:28-75 | exactly which other values a field refuses |
| ObjectModel.PrimitiveLayout | iotronic/objects/base.py:327-342 | a dehydrated object has exactly these keys, with times as ISO text and other values as they are |
| ObjectModel.HydratesIff | iotronic/objects/base.py:263-291 | exactly which dictionaries hydrate |
| ObjectModel.HydrationRoundTrip | iotronic/objects/base.py:263-342 | hydrating a dehydrated object gives back class, version, set fields, values and changed fields |
| ObjectModel.RoundTripIffUnmarked | iotronic/objects/base.py:549-581 | any nesting of objects, lists, tuples, sets and plain values survives the serialiser, sets as tuples, iff no plain dictionary carries the marker key |
| ObjectModel.Board.Set | iotronic/objects/base.py:65-73 | the name becomes dirty even when the coercion fails; a value of the field's type is stored as it is |
| ObjectModel.Board.FromDbObject | iotronic/objects/board.py:69-75 | loading stores every coerced column and leaves nothing dirty |
| ObjectModel.Board.Save | iotronic/objects/board.py:251-253 | exactly the dirty columns of the row change and the dirty set empties; on any error neither changes |
| ObjectModel.Board.Refresh | iotronic/objects/board.py:266-271 | set fields take the database's values and exactly the differing ones become dirty as well |
| ObjectModel.BoardTable.UpdateBoard | iotronic/db/sqlalchemy/api.py:401-408 | a row takes the given columns; overwriting the uuid or updating a missing row is an error |
| ObjectModel.AssignKeepsInStep | iotronic/objects/base.py:65-73 | assignments keep an object equal to its row outside its dirty fields |
| ObjectModel.SaveThenLoad | iotronic/objects/board.py:236-253 | a row saved from an object loads as the values of that object |
| ObjectModel.LoadAssignSaveLoad | iotronic/objects/board.py:236-253 | load, assign any list of fields, save, load: the second object has the values the first ended with |
| ObjectModel.AssignedIsLoaded | iotronic/objects/board.py:236-253 | with values of the fields' types, the second object has the very values last assigned and its former ones elsewhere |
| ObjectModel.TypedRowLoads | iotronic/objects/board.py:69-75 | a row of typed columns is loaded as it stands |
| ObjectModel.SavesCommuteIff | iotronic/db/sqlalchemy/api.py:261-272 | saving two objects of one row leaves the same table in either order iff they agree on every field both assigned, or the table refuses one of them |
| ObjectModel.DisjointSavesMerge | iotronic/objects/base.py:362-367 | two objects of one row with disjoint dirty sets leave the same table in either order, and the row then loads with what each assigned and its former values elsewhere |
| ObjectModel.SaveAfterRefreshChangesNothing | iotronic/objects/board.py:266-271 | saving right after a refresh leaves the row loading as before |
| PeriodicTasks.BoundaryAdvances | iotronic/openstack/common/periodic_task.py:164-182 | the new last run is the latest whole multiple of the spacing after the old one, at least one, plus the random twentieth of the spacing rounded down to whole seconds |
| PeriodicTasks.RateBound | iotronic/openstack/common/periodic_task.py:203-234 | run number k, from 0, comes no earlier than (k + 1) * spacing after the initial last run, whatever the delays and jitter |
| PeriodicTasks.RateBoundImmediate | iotronic/openstack/common/periodic_task.py:84-88 | a task that runs immediately does so on its first visit and is then bound from that run |
| PeriodicTasks.Scheduler.RunPeriodicTasks | iotronic/openstack/common/periodic_task.py:203-234 | a pass runs exactly the due tasks, each once, up to a reported failure, and the wait it returns is the least of 60 s, the spacings visited and the times left of the tasks skipped |
| ProcessLaunching.ServiceWrapper.AwaitTurn | iotronic/openstack/common/service.py:305-317 | fork times are the last workers + 1 forks, and every later fork is 1 s after the previous one or `workers` s after the one workers + 1 places back |
| ProcessLaunching.PacedIff | iotronic/openstack/common/service.py:305-317 | the forks are paced iff each one took its turn after those before it |
| ProcessLaunching.ProcessLauncher.StartChild | iotronic/openstack/common/service.py:305-336 | a fork adds its pid to both indexes and keeps them in agreement |
| ProcessLaunching.ProcessLauncher.Refill | iotronic/openstack/common/service.py:342-343 | the forking loop ends with all workers present unless stopped, never with more |
| ProcessLaunching.ProcessLauncher.LaunchService | iotronic/openstack/common/service.py:338-343 | a new service gets its workers; others keep theirs |
| ProcessLaunching.ProcessLauncher.WaitChild | iotronic/openstack/common/service.py:345-371 | a reaped pid leaves both indexes; an unknown or absent one changes nothing |
| ProcessLaunching.ProcessLauncher.Respawn | iotronic/openstack/common/service.py:373-383 | after a round the reaped child's service has all its workers again, unless stopped |
| Pagination.PageIsSlice | iotronic/db/sqlalchemy/api.py:94-109 | a page is the stretch of the whole ordered listing right after its marker |
| Pagination.FollowLinks | iotronic/api/controllers/v1/collection.py:32-48 | following next links yields the whole ordered listing in floor(N / limit) + 1 pages of min(requested, maximum) rows; a limit that is not positive is an error |
| Pagination.ListingIsComplete | iotronic/db/sqlalchemy/api.py:94-109 | the listing holds every row once, by the sort column and within one value by id, both in the direction asked for |
| Pagination.FlattenPosition | iotronic/api/controllers/v1/collection.py:36-48 | row k of page p is row p * limit + k of the listing |
| NginxRedirect.ServerFile.AddRedirect | iotronic/wamp/proxies/nginx.py:131-140 | the file is rewritten with the host's line inserted as the fifth unless present |
| NginxRedirect.ServerFile.RemoveRedirect | iotronic/wamp/proxies/nginx.py:142-151 | the file is rewritten without the first such line |
| NginxRedirect.RedirectInjective | iotronic/wamp/proxies/nginx.py:77-84 | two hosts of a board have the same line iff they are the same host, an empty dns counting as none |
| NginxRedirect.RedirectText | iotronic/wamp/proxies/nginx.py:77-84 | the text of the line, part by part |
| NginxRedirect.JoinConcatenates | iotronic/wamp/proxies/nginx.py:103-107 | lines are written one after another |
| NginxRedirect.EditKeepsBlock | iotronic/wamp/proxies/nginx.py:87-100 | an edit keeps the block to exactly the live hosts, without duplicates |
| NginxRedirect.FileHoldsLiveRedirects | iotronic/wamp/proxies/nginx.py:131-151 | after any operations the file is the base with, after its fourth line, one line per host added and not removed since |
| NginxRedirect.RemoveUndoesAdd | iotronic/wamp/proxies/nginx.py:87-100 | adding is idempotent and removing undoes adding |
| NginxRedirect.WriteReadIff | iotronic/wamp/proxies/nginx.py:103-107 | written lines read back iff they are lines of a file |
| NginxRedirect.FirstAddReadsBackIff | iotronic/wamp/proxies/nginx.py:87-107 | the edited file reads back as edited iff the fourth line was terminated |
| WebserviceDns.Webservices.BeginCreate | iotronic/conductor/endpoints.py:770-825 | an offline board is an error; a taken name answers with its row and sends nothing; a new one is an error without an enabled webservice and otherwise sends the comma join of the domain, the names read and itself |
| WebserviceDns.Webservices.FinishCreate | iotronic/conductor/endpoints.py:831-836 | the row is added unless the table holds its port by then, which is an error |
| WebserviceDns.Webservices.BeginDestroy | iotronic/conductor/endpoints.py:870-905 | an unknown webservice or a board without an enabled one is an error; an online board is sent the join of the names other than the webservice's own, an offline one nothing |
| WebserviceDns.Webservices.FinishDestroy | iotronic/conductor/endpoints.py:910-919 | the webservice's row goes and no other; an online board without an agent and a missing row are errors |
| WebserviceDns.ListWithout | iotronic/conductor/endpoints.py:894-899 | the loop and the final cut build the comma join of the other names |
| WebserviceDns.RunKeepsSound | iotronic/db/sqlalchemy/models.py:290-295 | over every run in which new webservices get new uuids, uuids and ports stay unique |
| WebserviceDns.CreationsEnd | iotronic/conductor/endpoints.py:821-836 | a creation ends with its row, with its refusal or with a failed call, and leaves the rows alone in the last two cases |
| WebserviceDns.StepDistinctIff | iotronic/conductor/endpoints.py:779-836 | a step keeps the names distinct iff it does not record a name that is in the table under a port that is not |
| WebserviceDns.RunDistinctIff | iotronic/conductor/endpoints.py:779-836 | over every run the names stay distinct iff no creation is recorded while its name, but not its port, is in the table |
| WebserviceDns.OverlappingCreationsCollide | iotronic/conductor/endpoints.py:779-836 | two creations of one name with different ports, each checked before the other is recorded, both get a row |
| WebserviceDns.AgreeingCreationsStayDistinct | iotronic/conductor/endpoints.py:779-836 | if overlapping creations of one name always share the port, in particular if none share a name, the names stay distinct |
| WebserviceDns.FinishingStaysDistinctIff | iotronic/db/sqlalchemy/models.py:290-295 | whatever the handlers under way do, the names stay distinct iff creations that share a name share the port and no row bears a creation's name under another port |
| WebserviceDns.AnnouncementCurrentIff | iotronic/conductor/endpoints.py:779-836 | whatever runs between a creation's check and its row, the text it sent is the table's own once the row is there iff the names are as it read them |
| WebserviceDns.RemovalAnnouncedIff | iotronic/conductor/endpoints.py:889-919 | the text sent on a destruction is the table's own once the row is gone iff no other row bears the name |
| WebserviceDns.AnnouncementIsReadable | iotronic/conductor/endpoints.py:813-818 | splitting at commas recovers the list |
| WebserviceDns.AnnouncedSnoc | iotronic/conductor/endpoints.py:813-818 | the text is the domain and then, for each name, a comma and the name under the domain |
| WebserviceDns.AnnouncementsDiffer | iotronic/conductor/endpoints.py:813-818 | different name lists are never announced alike |
| WebserviceDns.DestroyUndoesCreate | iotronic/conductor/endpoints.py:889-899 | destroying right after creating sends the list that stood before and restores the rows |
| TunnelPorts.LivePorts.Scan | iotronic/conductor/endpoints.py:660-667 | the scan takes the first draw if it is not live, and otherwise the first later draw that is none of the entries after the head |
| TunnelPorts.LivePorts.Allocate | iotronic/conductor/endpoints.py:660-669 | the port found is put at the front of the list |
| TunnelPorts.LivePorts.RemoveVif | iotronic/conductor/endpoints.py:730-733 | the port read from the interface name is removed; an unknown one is an error |
| TunnelPorts.PortRecovered | iotronic/conductor/endpoints.py:686-687 | the port is recovered from the interface name |
| TunnelPorts.VifNameText | iotronic/conductor/endpoints.py:686-687 | the name is `iotronic` and the five digits of the port |
| TunnelPorts.RunInRange | iotronic/conductor/endpoints.py:660-667 | live ports are between 10000 and 20000 |
| TunnelPorts.StepDistinctIff | iotronic/conductor/endpoints.py:662-669 | a creation keeps live ports distinct iff its draws do not hit a live port first and then lead to the head; a removal deletes exactly its port |
| TunnelPorts.RunDistinctIff | iotronic/conductor/endpoints.py:660-670 | live ports stay distinct through a run iff no creation's draws are of that kind |
| TunnelPorts.AllDrawsSafeIff | iotronic/conductor/endpoints.py:660-669 | for a list of distinct ports every stream of draws is safe iff the list is empty |
| TunnelPorts.SomeDrawsDuplicate | iotronic/conductor/endpoints.py:660-670 | after any run without a duplicate that leaves a port live, drawing the newest port twice makes one |
| Migrations.SpendLaw | iotronic/cmd/dbsync.py:128-147 | a batch migrates exactly its budget or everything, and touches a function only when those before it are finished |
| Migrations.Command.Migrate | iotronic/cmd/dbsync.py:150-157 | a function is called with a positive limit and migrates min(remaining, limit) |
| Migrations.Command.RunMigrationFunctions | iotronic/cmd/dbsync.py:148-182 | one batch spends its budget in order and answers True iff fewer rows than the budget were left, all then migrated |
| Migrations.Command.RunOnlineDataMigrations | iotronic/cmd/dbsync.py:217-241 | without a count the loop ends after floor(rows / 50) + 1 batches with everything migrated; with one, the exit status says whether rows may remain; a count below 1 is refused |

## Left out

- REST controllers, hooks, policy, Keystone, Neutron, Designate and plugin handlers: request plumbing and foreign services.
- Database sessions, messaging, files, subprocesses and sockets: replaced by maps, sequences and nondeterministic replies.
- `HashRingManager`: the database method it calls is not in the repository.
- The `TypeError` of the ring's constructor for hosts that are not iterable: excluded by the types.
- The configuration a registration stores and returns: it is assembled from other tables.
- Administrative writes of a board's status, and two threads interleaving inside one step: assumed away.
- The name server's record of a webservice, made and deleted beside its row.
- In `AllowLists`, two concurrent `enable_webservice` calls for one board, and the two webservice services driven by `ServiceEnable` or `ServiceDisable`: assumed away. The exposed-service handlers appear there as their steps, not as methods.
- ProcessLaunching: the child's side of a fork, signal handlers and `stop`; a signal appears as the `running` flag turning false between two forks.
- The `updated_at` stamp that the database library writes on every update, and its uniqueness errors on save.
- The copy operations of the object model and `ObjectListBase`, which no class of the repository uses.
- Null values in a sort column and filters that next links do not carry.
- Parsing of migration options and exceptions raised by a migration function.
- The map, upstream and server templates written when a webservice is enabled: constant text.
