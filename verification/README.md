# Verification of the game server and its clients

This project models the parts of the repository that carry its logic and proves what they
promise: the monsters' path search, the room and the views its clients keep of it, the send
protocol of a session, packet framing, and the tile map format.  `dafny verify
dfyconfig.toml` checks everything.

## How the model is laid out

| part | specification and theorems | imperative code |
|---|---|---|
| Path search (`GameRoom::FindPath`, and its copy in the client's `DevScene`) | `Geometry.dfy`, `PathSearch.dfy` | `PathSearch.FindPath`, `Explore`, `Visit`, `Fallback`, `Rebuild` |
| Room | `RoomSpec.dfy` (the machine), `RoomBehaviour.dfy` (what each step does), `RoomInvariant.dfy`, `RoomSafety.dfy`, `RoomLedger.dfy`, `RoomRate.dfy` | `GameRoom.dfy` |
| Client view | `Replica.dfy`, `ReplicaAgreement.dfy`, `OwnPose.dfy` | `DevScene.dfy` |
| Session, send side | `SendProtocol.dfy` | `SessionSend.dfy` |
| Session, receive side; framing | `Framing.dfy` | `Framing.MakeSendBuffer`, `Framing.OnRecv`, `RecvBuffer.dfy` |
| Everything between Send and the view | `EndToEnd.dfy`, `ClientDelivery.dfy` | |
| Tile maps | `TilemapModel.dfy`, `TilemapText.dfy` | `TilemapText.TilemapObject` |

Where the C++ changes state step by step, so does the Dafny code; each such method is proved to
do what a function or a step of a machine says, and the theorems are about those.

**Path search.**  `PathSearch.Query` holds the source, the destination, the depth limit and the
set of cells that can be entered; `IsAnswer` says what a successful search returns: a walk of legal
steps without repetition that ends at the one reachable cell preferred to all others
(nearer to the destination, then nearer to the source, then first in the order of a cell map).
The queue may hand out any node of least cost, so the theorem holds for every tie order of
`std::priority_queue`.  Shortest paths are not claimed: the code does not compute them.

**Room.**  The server alternates between dispatching one completion and one `Update`, so each
handler is an atomic step of the machine `RoomSpec.Next`.  A room state holds the two maps of
objects, the map, the id generator, the last tick read, a list of everything queued to each
player's session, and a history of moves and hits.  `Handle` takes any message whatsoever, since
the server does not validate it.  Which answer of the search a monster follows is left
open: a `Tick` label carries a path, and any answer is allowed.  `RoomBehaviour.dfy` tells what every step does
without the machine's own vocabulary: in records, tiles, distances and messages.

**Replica.**  `Replica.Fold` is the view of a client that has handled a list of messages.
`ReplicaAgreement.Agrees` says that a view shows exactly the objects of the room, once each, with
their values; for the client's own player only health and combat stats are compared, and a monster
that has come to rest may still be shown moving, because `Monster::UpdateMove` does not announce it.

**Session.**  `SendProtocol` cuts `Send`, `RegisterSend` and `ProcessSend` into atomic steps: a block under
the lock, one access to an atomic flag, one system call, or a stretch that touches only the send event.
Any number of threads and the kernel interleave freely.  `SessionSend.Session` is the code, whose
blocks are proved to take exactly these steps.

**Receive buffer.**  `Receiving.RecvBuffer` follows `Server/ServerCore/RecvBuffer.cpp` (lines 18-54 for `Clean`, `OnRead` and
`OnWrite`), whose comments are not in UTF-8; the table cites the header that declares it.

## What is false, and exactly when

- A wake-up can be lost.  `SendProtocol.WakeupIsLostIff` names the only steps after which a buffer waits with nobody to send
  it: the release after a failed WSASend, an empty completion, `RegisterSend` on a disconnected session, and a `Send` that
  finds the flag set although nobody owns the event.  `FailedSendCanStrand` and `EmptyCompletionCanStrand` run the protocol into the
  first and the last of them, and `WakeupReturnsIff` says when the protocol recovers.
- A client does not always find the object to remove: its id passes through a 32-bit variable.
  `ReplicaAgreement.RemoveAgreesIff` gives the exact ids for one removal (`Replica.NarrowKeepsIff` describes them), and
  `RunsAgreeIff` lifts this to runs: all views agree with the room all along if and only if every departure survives the
  lookup or leaves no client behind.  `RemovalMisses` and `RemovalHitsAnother` are concrete removals that go wrong.
- A move message may name a monster, and the server obeys it.  `RoomRate.RunsArePacedIff` says exactly when the pace of monsters
  is kept: a message may not put a monster to rest whose last move is not a PACE old yet, and may not make it swing at a
  player of the room so that the swing ends before its last blow is a PACE old.  `ProvokedSwingStrikesEarly` and
  `ProvokedRestMovesEarly` turn such messages into blows and moves that come too early, and `MonsterMessagesBreakPace` shows a
  run from the start, on every map.
- A tile map whose values are not single digits does not survive saving and loading (`TilemapText.RoundTripIff`).  Such a value
  takes a caller that writes through the `Tile*` it was given: SetMapSize, LoadFile and the editor's click write digits only,
  and every map they make survives (`EditedMapsSurvive`).
- A player's record that a client refreshes is not always kept: `Replica.RefreshKeepsInfoIff`.  In the room's runs it is.
- The size field of a packet holds the true size exactly for payloads of at most 65531 bytes:
  `Framing.PacketSizeIsExactIff`.

## Model

| member | source | states |
|---|---|---|
| PathSearch.FindPath | Server/Server/GameRoom.cpp:356-471 | Succeeds iff the destination is nearer than the depth limit; then the path is a real walk without repetition to the canonical best reachable cell, for every tie order, with at most 2m(m-1)+1 pushes; otherwise the caller's path is untouched |
| PathSearch.BestEndIsUnique | Server/Server/GameRoom.cpp:430-453 | Two answers of the same search end at the same cell, whatever the tie order |
| PathSearch.AnswerReachesDestination | Server/Server/GameRoom.cpp:388-453 | The path ends at the destination iff the destination can be reached within the limit; otherwise no reachable cell is nearer |
| PathSearch.AnswerIsTrivialIff | Server/Server/GameRoom.cpp:430-470 | The path is the source alone iff no reachable cell is strictly nearer to the destination |
| PathSearch.AnswerCellsAreFree | Server/Server/GameRoom.cpp:402-420 | Every cell after the first is one step from the one before, can be entered and lies within the depth limit |
| PathSearch.AnswerBeatsRoute | Server/Server/GameRoom.cpp:375-453 | Whatever route of single steps over free cells within the limit one takes, in whichever direction, its end is no nearer to the destination than the answer's; at equal distance no nearer to the source; and then not first in the order by x and y |
| PathSearch.WalkStaysInClosedSet | Server/Server/GameRoom.cpp:385-428 | A set of cells closed under legal steps holds the end of every walk: completeness of the exploration |
| PathSearch.DestinationComesFirst | Server/Server/GameRoom.cpp:385-398 | Once the destination is discovered, every node of least cost is the destination |
| PathSearch.DiscoveredAreFew | Server/Server/GameRoom.cpp:366-428 | The discovered cells lie in a diamond of at most 2m(m-1)+1 cells |
| PathSearch.Explore | Server/Server/GameRoom.cpp:385-428 | The loop ends with exact costs and a tree of steps from the source; it finds the destination, or has visited every discovered cell and discovered every legal step from one; no cell is pushed twice |
| PathSearch.Visit | Server/Server/GameRoom.cpp:402-427 | Visiting a cell discovers exactly its legal neighbours, keeps `best` exact, the parents a tree and every open cell queued once |
| PathSearch.Fallback | Server/Server/GameRoom.cpp:430-453 | The scan of `best` in map order picks the cell that is preferred to every other discovered cell |
| PathSearch.Rebuild | Server/Server/GameRoom.cpp:455-470 | The loop over parents ends, and its reversal is a walk without repetition from the source to the end cell |
| PathSearch.EndIsBest | Server/Server/GameRoom.cpp:385-453 | The chosen end is preferred to every cell reachable by any walk, not just to the discovered ones |
| Geometry.NeighboursAreAdjacent | Server/Server/GameRoom.cpp:376-384 | The four offsets reach exactly the cells at distance one |
| Geometry.LookThenFront | Server/Server/GameObject.cpp:59-99 | After turning towards a cell, the cell in front is that cell iff it is adjacent |
| Geometry.DirectionsPoint | Server/Server/GameObject.cpp:82-99 | Which cell lies ahead in each direction; y grows downwards |
| Geometry.TurningPointsNearer | Server/Server/GameObject.cpp:59-70 | After turning towards another cell the cell ahead is one step nearer to it, sideways first |
| Geometry.DistancesFitInt32 | Server/Server/GameRoom.cpp:358-370 | For coordinates below 2^29 no 32-bit step distance wraps |
| Geometry.SquaresFit | Server/Server/pch.h:104-107 | Squared distances fit 32 bits for offsets up to 32767 and a float exactly for offsets up to 2896, and for no larger bounds |
| Geometry.BallSize | Server/Server/GameRoom.cpp:358-428 | Fewer than m steps from a cell lie at most 2m(m-1)+1 cells |
| RoomInvariant.RunsKeepInv | Server/Server/GameRoom.cpp:103-323 | In every state of every run: keys are ids, kinds match maps, player and monster ids are disjoint and below the generator, 1 <= hp <= maxHp, and attack and defence are (5,0) or a weapon template |
| RoomInvariant.NextKeepsInv | Server/Server/Server.cpp:30-34 | Every handler and every monster update keeps the room invariant |
| RoomInvariant.DamageIsBounded | Server/Server/GameRoom.cpp:299-313 | Between any two objects of the room one hit costs 1 to 18 points and the subtraction stays in -5..18 |
| RoomInvariant.ApplyDamageEffect | Server/Server/GameRoom.cpp:291-323 | A surviving victim is stored with its new points and announced; one without points is erased and its removal announced |
| RoomInvariant.SyncedIsGood | Server/Server/GameRoom.cpp:193-214 | Whatever a move message says, the object stays alive, gets the stats of a template, keeps id and kind and gains no points |
| RoomInvariant.HandleMoveKeepsInv | Server/Server/GameRoom.cpp:186-227 | No move message, however malformed, breaks the room invariant |
| RoomInvariant.ProcessSkillEffect | Server/Server/Player.cpp:15-36 | A skill is nothing, or one hit on a monster that stands in the cell ahead |
| RoomInvariant.ObjectAtIsThere | Server/Server/GameRoom.cpp:504-519 | The scan finds an object at the cell iff one stands there |
| RoomInvariant.EnterKeepsInv | Server/Server/GameRoom.cpp:116-157 | Entering keeps the room invariant |
| RoomInvariant.RemoveKeepsInv | Server/Server/GameRoom.cpp:261-289 | Removal keeps the invariant and the id is gone |
| RoomInvariant.UpdateIdleEffect | Server/Server/Monster.cpp:38-79 | An idle monster swings at an adjacent player, steps onto the second cell of the path, or stays: the second CanGo always succeeds and a path of one cell moves nobody |
| RoomInvariant.UpdateSkillKeepsInv | Server/Server/Monster.cpp:91-126 | The end of a swing keeps the room invariant |
| RoomInvariant.TickKeepsInv | Server/Server/Monster.cpp:20-36 | An update of one monster keeps the room invariant |
| RoomSpec.RemoveIsErase | Server/Server/GameRoom.cpp:261-289 | In a room whose maps are typed, removal by kind erases exactly the id and announces it |
| RoomBehaviour.HitOutcome | Server/Server/GameRoom.cpp:291-323 | A hit costs the attacker's attack less the victim's defence, and at least one point; who has no more is gone; everybody is told, nobody else changes |
| RoomBehaviour.SkillHitsIff | Server/Server/Player.cpp:15-36 | A skill hits the first monster in the cell ahead, and does nothing exactly if none is there or a player is |
| RoomBehaviour.SyncedOutcome | Server/Server/GameRoom.cpp:193-214 | The record after a move message: pose as told, stats of bow, staff or else sword, a positive maximum, and no more points than it |
| RoomBehaviour.MoveMessageOutcome | Server/Server/GameRoom.cpp:186-227 | A message that enters no skill changes the named record only and announces it; about nobody it changes nothing |
| RoomBehaviour.SkillMessageStrikes | Server/Server/GameRoom.cpp:216-226 | A player that enters SKILL strikes exactly once, at the monster ahead of its new pose, before its own record is announced |
| RoomBehaviour.SkillMessageMisses | Server/Server/GameRoom.cpp:216-226 | With no such monster the message is a mere move |
| RoomBehaviour.EnterOutcome | Server/Server/GameRoom.cpp:116-157 | The newcomer's id, record and four messages; the others get its arrival, and nothing else changes |
| RoomBehaviour.LeaveOutcome | Server/Server/GameRoom.cpp:159-168 | The player is gone, the others are told and unchanged; nobody else can leave |
| RoomBehaviour.CanGoIff | Server/Server/GameRoom.cpp:473-484 | A cell can be entered iff it is inside the map, its tile is walkable and nobody stands there |
| RoomBehaviour.SearchOutcome | Server/Server/GameRoom.cpp:356-471 | In the room: the answer is a route over such cells, and no such route ends nearer to the destination |
| RoomBehaviour.PreyIsTarget | Server/Server/Monster.cpp:43-47 | The target is the present one while it is in the room, else the nearest player with the smallest id; none iff there is no player |
| RoomBehaviour.IdleOutcome | Server/Server/Monster.cpp:38-79 | Next to its target the monster turns to it and swings for a second; less than ten steps away it turns and takes the first step of the answer, for a second; otherwise it stays |
| RoomBehaviour.ChasesIff | Server/Server/Monster.cpp:58-77 | Less than ten steps away and not adjacent, it moves iff some route over free cells leads nearer |
| RoomBehaviour.MovingOutcome | Server/Server/Monster.cpp:81-89 | A moving monster rests at the first tick at which its timer is over, unannounced, and does nothing before |
| RoomBehaviour.SwingStrikes | Server/Server/Monster.cpp:91-126 | A swing that is over, at a present target exactly one step away, is one hit; the monster rests, says so, and forgets a target that died |
| RoomBehaviour.SwingMisses | Server/Server/Monster.cpp:91-126 | Any other swing hits nobody: before its time nothing happens, after it the monster rests, says so, and forgets a target that is gone |
| RoomSafety.TickIsSafe | Server/Server/Monster.cpp:20-126 | One monster's update changes no other monster and no set of monsters, moves no player, and moves the monster at most one step, onto a walkable tile of the map where nobody stood |
| RoomSafety.TickKeepsSpread | Server/Server/Monster.cpp:58-77 | If no two objects share a cell, none do after a monster's update |
| RoomSafety.UpdateIsSafe | Server/Server/GameRoom.cpp:103-114 | Throughout a full Update the set of monsters stays the same, each monster's record changes only in its own turn and by at most one step, and distinct positions stay distinct |
| RoomLedger.HitPointsAreSpent | Server/Server/GameRoom.cpp:186-323 | Over any stretch of any run hit points never rise, hits that take effect never outnumber the points, and an id that is out stays out and is never hit |
| RoomLedger.RunNoGain | Server/Server/GameRoom.cpp:291-323 | Points left plus hits taken never grow, for every id already given out |
| RoomLedger.NextNoGain | Server/Server/GameRoom.cpp:186-323 | No single step lets an id gain points, and each hit that takes effect costs at least one |
| RoomRate.RunsArePacedIff | Server/Server/GameRoom.cpp:186-227 | Up to any point of any run: moves and blows of each monster stay 1000 ms apart and its timer guarantees this on, iff every message that named a monster was harmless where it arrived |
| RoomRate.RunsArePaced | Server/Server/Monster.cpp:52-122 | In particular, when clients name players only, two cell moves and two blows of one monster are at least 1000 ms apart in every run |
| RoomRate.NextPacedIff | Server/Server/Monster.cpp:81-122 | A step keeps the pace iff it is no message that provokes a monster |
| RoomRate.HandleMonsterPacedIff | Server/Server/GameRoom.cpp:186-227 | A message that names a monster keeps the pace iff it neither puts it to rest before its last move is 1000 ms old nor makes it swing at a present player before its last blow is |
| RoomRate.SameStateIsHarmless | Server/Server/GameRoom.cpp:194-198 | A message that gives a monster the state it has keeps the pace |
| RoomRate.ProvokedSwingStrikesEarly | Server/Server/Monster.cpp:91-122 | After every provoking swing one more message and one tick make two blows come too close |
| RoomRate.ProvokedRestMovesEarly | Server/Server/Monster.cpp:58-72 | After every provoking rest the next tick makes two moves come too close, if the search gives the monster a way |
| RoomRate.MonsterMessagesBreakPace | Server/Server/GameRoom.cpp:186-227 | On every map there is a run in which a message naming the first monster makes it strike twice at one tick |
| Replica.RefreshKeepsInfoIff | Server/Client/GameCoding/Player.cpp:246-283 | A refreshed record equals the received one iff its points are within a positive maximum and its combat stats are not zero |
| Replica.RefreshOutcome | Server/Client/GameCoding/Player.cpp:30-283 | Every field of a refreshed record, and the weapon, from the received one |
| Replica.MoveOutcome | Server/Client/GameCoding/ClientPacketHandler.cpp:126-180 | Everybody takes over health and stats; the own player keeps its position, direction and state, and everybody else takes them from the message |
| Replica.MyPlayerOutcome | Server/Client/GameCoding/ClientPacketHandler.cpp:74-94 | The client remembers its id and shows its player, besides whatever it showed before |
| Replica.AddOutcome | Server/Client/GameCoding/DevScene.cpp:363-405 | The own player and objects of no kind are ignored; others join as the message says |
| Replica.RemoveOutcome | Server/Client/GameCoding/DevScene.cpp:407-430 | The first object with the id goes, the others stay in order |
| OwnPose.OwnPoseIsKept | Server/Client/GameCoding/ClientPacketHandler.cpp:126-180 | No message but S_MyPlayer changes where the client's own player stands, looks and what it does |
| OwnPose.OwnPlayerIsNeverDragged | Server/Client/GameCoding/ClientPacketHandler.cpp:174-179 | In every run, by messages alone, a client's own player stays where it was born |
| Replica.NarrowKeepsIff | Server/Client/GameCoding/DevScene.cpp:407-418 | Which 64-bit ids survive the 32-bit variable on the way to the lookup |
| ReplicaAgreement.RunsAgreeIff | Server/Server/GameRoom.cpp:116-331 | Up to any point of any run: every session's view shows exactly the room's objects, once each, as they are, except that a resting monster may be shown moving, and no move or removal named an object the view lacked; iff every departure survives the clients' lookup or leaves no client behind |
| ReplicaAgreement.RunsAgree | Server/Server/GameRoom.cpp:116-331 | In particular, all views agree in every run that has given out ids below 2^31 only |
| ReplicaAgreement.NextAgreesIff | Server/Server/GameRoom.cpp:116-331 | A server step keeps every view in agreement iff its departure, if any, is well told; everything else it changes it announces |
| ReplicaAgreement.MoveAgrees | Server/Client/GameCoding/ClientPacketHandler.cpp:126-180 | Handling S_Move brings one outdated object up to date and disturbs no other |
| ReplicaAgreement.RemoveAgreesIff | Server/Client/GameCoding/DevScene.cpp:407-430 | Handling S_RemoveObject takes out exactly the named object iff its id survives the 32-bit variable |
| ReplicaAgreement.RemovalMisses | Server/Client/GameCoding/DevScene.cpp:407-418 | At id 2^31 the object stays on the screen |
| ReplicaAgreement.RemovalHitsAnother | Server/Client/GameCoding/DevScene.cpp:407-418 | The removal of id 2^32+5 takes out object 5 |
| ReplicaAgreement.AddAgrees | Server/Client/GameCoding/DevScene.cpp:363-405 | Handling one added object adds exactly it, with its values, to a view that lacks it |
| ReplicaAgreement.NewcomerAgrees | Server/Server/GameRoom.cpp:130-157 | The three first messages and its own announcement give a newcomer the whole room |
| ReplicaAgreement.ApplyDamageOutcome | Server/Server/GameRoom.cpp:291-323 | A hit leaves no view outdated; a victim that dies is gone from every view iff the lookup finds it, and else haunts every view |
| ReplicaAgreement.HandleMoveOutcome | Server/Server/GameRoom.cpp:186-227 | The same for a move message, with or without a skill |
| ReplicaAgreement.TickOutcome | Server/Server/Monster.cpp:20-126 | The same for a monster's update, but for a rest that need not be announced |
| SendProtocol.RunsKeepInv | Server/ServerCore/Session.cpp:20-294 | In every interleaving: at most one owner of the send event, an unset flag means no owner, a drain starts from an empty event, no empty batch is submitted, and all batches drained followed by the queue are exactly what was enqueued |
| SendProtocol.NextKeepsInv | Server/ServerCore/Session.cpp:20-294 | Each atomic step keeps ownership, the event, conservation and the token |
| SendProtocol.NextKeepsOneOwner | Server/ServerCore/Session.cpp:24-37 | The flag admits one owner at a time |
| SendProtocol.NextKeepsEventOk | Server/ServerCore/Session.cpp:160-208 | What the owner's place says about the event stays true |
| SendProtocol.NextKeepsConserved | Server/ServerCore/Session.cpp:169-206 | No step loses, duplicates or reorders a buffer |
| SendProtocol.NoLostWakeup | Server/ServerCore/Session.cpp:24-37 | Connected and without a failed WSASend, a non-empty queue has an owner, and the flag is set iff there is one |
| SendProtocol.ConnectionEndsIff | Server/ServerCore/Session.cpp:45-57 | A session stays connected but for a Disconnect, a failed WSASend reported as a lost connection, and an empty completion; and never comes back |
| SendProtocol.WakeupIsLostIff | Server/ServerCore/Session.cpp:20-294 | A buffer comes to wait without an owner exactly after: a release following a failure, an empty completion or RegisterSend on a disconnected session, with a buffer queued; or a Send that finds the flag set with nobody owning the event |
| SendProtocol.WakeupReturnsIff | Server/ServerCore/Session.cpp:24-37 | A stranded queue gets an owner again exactly by a Send that finds the flag clear; a flag left set stays set |
| SendProtocol.FailedSendCanStrand | Server/ServerCore/Session.cpp:196-207 | A concrete run in which a failed WSASend leaves a buffer queued on a connected session with nobody to send it |
| SendProtocol.EmptyCompletionCanStrand | Server/ServerCore/Session.cpp:267-271 | A concrete run without a failed WSASend: after an empty completion the next Send strands its own buffer |
| SendProtocol.WaitingBuffersAreDrained | Server/ServerCore/Session.cpp:20-294 | In every run, on a stretch without faults of a connected session, at most eight owner steps drain everything enqueued before it, whatever comes in between |
| SendProtocol.DrainApproaches | Server/ServerCore/Session.cpp:160-294 | Every owner step of such a stretch brings the drain at least one step nearer |
| SendProtocol.QueueAdvances | Server/ServerCore/Session.cpp:160-294 | While nothing fails, each step of the owner drains the queue or comes closer to it, and other callers never put it off |
| SendProtocol.OwnerCanMove | Server/ServerCore/Session.cpp:160-294 | The owner of the event always has a next step |
| SessionSend.Session.Send | Server/ServerCore/Session.cpp:20-38 | Takes the Send step and, iff the flag was clear, exactly the steps of a registration; with the flag set it only queues, otherwise a connected session hands the whole queue over |
| SessionSend.Session.RegisterSend | Server/ServerCore/Session.cpp:160-208 | Takes exactly the listed steps for each outcome; success hands over the whole queue in order, failure drops it and clears the flag |
| SessionSend.Session.Transmit | Server/ServerCore/Session.cpp:165-207 | The part behind the connection test: three steps when WSASend succeeds, six when it fails |
| SessionSend.Session.ProcessSend | Server/ServerCore/Session.cpp:262-294 | Takes exactly the listed steps for each outcome; the flag is given up iff the queue is empty, else the next batch is everything queued meanwhile |
| SessionSend.Session.GoOn | Server/ServerCore/Session.cpp:280-293 | The part behind the byte count: decide under the lock, then register what was queued |
| SessionSend.Session.Enqueue | Server/ServerCore/Session.cpp:24-34 | Appends under the lock; registers iff the flag was not set |
| SessionSend.Session.MoveQueue | Server/ServerCore/Session.cpp:169-183 | The loop moves the whole queue behind the event's buffers, in order |
| SessionSend.Session.TestQueue | Server/ServerCore/Session.cpp:284-290 | Gives the flag up or goes on, decided in one step |
| SessionSend.Session.Abandon | Server/ServerCore/Session.cpp:196-206 | After a failure the event is empty and the flag clear |
| Framing.MakeSendBuffer | Server/Server/ServerPacketHandler.h:39-53 | The array holds the frame: size and id in little-endian order, then the payload |
| Framing.PacketSizeIsExactIff | Server/Server/ServerPacketHandler.h:42-47 | The 16-bit size is the true size iff the payload has at most 65531 bytes |
| Framing.OnRecv | Server/ServerCore/Session.cpp:325-348 | Hands out the packets of the window, claims exactly the bytes before the residue, and ends |
| Framing.PacketsTileStream | Server/ServerCore/Session.cpp:325-348 | Packets and residue put together are the stream; the residue lacks part of a header or of its packet, unless a header of size 0 stops everything |
| Framing.ChunksAreIndependent | Server/ServerCore/Session.cpp:231-260 | Wherever the stream is cut, carrying the residue over gives the packets of one call on the whole |
| Framing.FrameRoundTrip | Server/Server/ServerPacketHandler.h:39-53 | Id and payload come back from a frame |
| Framing.FrameLayout | Server/Server/ServerPacketHandler.h:42-50 | Whole length and id, low byte first, and then the payload |
| Framing.FirstPacket | Server/ServerCore/Session.cpp:333-345 | The first packet has as many bytes as the first two say, low byte first; until they are there nothing is handed out |
| Framing.FramesRoundTrip | Server/ServerCore/Session.cpp:325-348 | Parsing a concatenation of frames gives the frames, with nothing left over |
| Framing.MessagesRoundTrip | Server/ServerCore/Session.cpp:325-348 | Every list of (id, payload) comes back in order from the stream of its frames |
| Framing.PrefixYieldsPrefix | Server/ServerCore/Session.cpp:325-348 | A prefix of a framed stream yields a prefix of the frames |
| Receiving.RecvBuffer.Clean | Server/ServerCore/RecvBuffer.h:15-29 | Keeps the unread bytes, needs no overlapping copy, and leaves room for a whole buffer unless nine buffers are unread |
| Receiving.RecvBuffer.OnRead | Server/ServerCore/RecvBuffer.h:16-28 | Drops bytes from the front of the window, or fails on more than it holds and changes nothing |
| Receiving.RecvBuffer.OnWrite | Server/ServerCore/RecvBuffer.h:17-28 | Extends the window by what was written, or fails on more than the free room and changes nothing |
| Receiving.ResidueIsShort | Server/ServerCore/Session.cpp:325-348 | OnRecv leaves fewer bytes than the largest packet |
| Receiving.PacketSession.ProcessRecv | Server/ServerCore/Session.cpp:231-260 | Delivers what one OnRecv on the whole stream would; only an empty completion disconnects, so both overflow branches are dead; the next receive always has 64 KB of room |
| Receiving.PacketSession.Accept | Server/ServerCore/Session.cpp:241-245 | Received bytes join the window; OnWrite cannot fail |
| Receiving.PacketSession.Advance | Server/ServerCore/Session.cpp:249-256 | What was handed out is dropped, OnRead cannot fail, and Clean restores 64 KB of room |
| Receiving.PacketSession.HandOut | Server/ServerCore/Session.cpp:247-256 | Packets handed out and bytes kept are what parsing the window gives |
| EndToEnd.DeliveredInOrder | Server/ServerCore/Session.cpp:20-348 | For every interleaving and every chunking: delivered packets are a prefix of those handed to the kernel and, with no failed WSASend, of those enqueued; all of them once nothing is under way |
| EndToEnd.RunsKeepInv | Server/ServerCore/Session.cpp:20-348 | The receiver always stands where one call on everything received would stand |
| EndToEnd.NextChunk | Server/ServerCore/Session.cpp:231-260 | One more chunk of any length keeps the receiver in step with the stream |
| ClientDelivery.ClientSeesRoom | Server/Server/GameSession.cpp:7-23 | Room, link and view together: the client has handled a prefix of what the room sent it, and when all has arrived its view agrees with the room |
| TilemapText.SavedMapLoads | Server/Client/GameCoding/Tilemap.cpp:138-170 | Loading a saved map of digits gives size, values and walkable bits back |
| TilemapText.RoundTripIff | Server/Client/GameCoding/Tilemap.cpp:55-170 | A saved map loads as itself iff every value is a single digit |
| TilemapText.EditedMapsSurvive | Server/Client/GameCoding/TilemapActor.cpp:110-132 | Every map that resizing, loading and picking tiles can make is given back by saving and loading |
| TilemapText.ValueGridLoads | Server/Server/Tilemap.cpp:55-104 | A file with the value grid only loads with walkable iff the value is 0 |
| TilemapText.LoadedValuesAreDigits | Server/Server/Tilemap.cpp:55-104 | Whatever the file holds, loaded values are single digits |
| TilemapText.SizeRoundTrip | Server/Client/GameCoding/Tilemap.cpp:142-145 | A printed size is read back, up to the line break |
| TilemapText.NumberIsRead | Server/Client/GameCoding/Tilemap.cpp:63-63 | Every number is read back from its text, negative ones too; one that does not fit 32 bits as the nearest bound, with the stream failed |
| TilemapText.LoadedTiles | Server/Server/Tilemap.cpp:55-104 | Value and walkable bit of every tile from the digits of a file, with the defaults where they are missing |
| TilemapText.SavedText | Server/Client/GameCoding/Tilemap.cpp:138-170 | A file letter by letter |
| TilemapText.EditOutcome | Server/Client/GameCoding/TilemapActor.cpp:125-130 | Resizing gives blank walkable tiles; a click puts one wall |
| TilemapText.TilemapObject.SetMapSize | Server/Client/GameCoding/Tilemap.cpp:181-194 | All tiles become (0, walkable); a negative size throws |
| TilemapText.TilemapObject.LoadFile | Server/Client/GameCoding/Tilemap.cpp:55-105 | Leaves the map that the text describes, also when the header is malformed or ends early, where a size that was not reached keeps its old value; a missing file changes nothing |
| TilemapText.TilemapObject.ReadRaw | Server/Client/GameCoding/Tilemap.cpp:71-76 | Collects the digits of the rest of the file, whatever separates them |
| TilemapText.TilemapObject.Fill | Server/Client/GameCoding/Tilemap.cpp:78-102 | Fills values and walkable bits, with the defaults where the file is too short |
| TilemapText.TilemapObject.SaveFile | Server/Client/GameCoding/Tilemap.cpp:138-170 | Prints exactly the text format |
| GameServer.GameRoom.constructor | Server/Server/GameRoom.cpp:60-101 | The room after Init: one monster at (8, 8) |
| GameServer.GameRoom.Update | Server/Server/GameRoom.cpp:103-114 | The walk over the monsters is one tick for each monster that was there, in id order: a run of the room machine |
| GameServer.GameRoom.EnterRoom | Server/Server/GameRoom.cpp:116-157 | Takes the Enter step: stats, welcome messages, storing, announcement |
| GameServer.GameRoom.LeaveRoom | Server/Server/GameRoom.cpp:159-168 | Takes the Leave step, and does nothing for a player that is gone |
| GameServer.GameRoom.FindObject | Server/Server/GameRoom.cpp:170-184 | The record stored under an id, if any |
| GameServer.GameRoom.Handle_C_Move | Server/Server/GameRoom.cpp:186-227 | The field-by-field update, the skill and the broadcast are the Handle step |
| GameServer.GameRoom.AddObject | Server/Server/GameRoom.cpp:229-259 | Stores a player or a monster by kind and announces it to everybody, itself included; an unknown kind changes nothing |
| GameServer.GameRoom.RemoveObject | Server/Server/GameRoom.cpp:261-289 | Removal by kind, announced to those who stay |
| GameServer.GameRoom.ApplyDamage | Server/Server/GameRoom.cpp:291-323 | Clamping, subtraction, removal or announcement are the machine's hit |
| GameServer.GameRoom.Broadcast | Server/Server/GameRoom.cpp:325-331 | Appends the message to every session and to nothing else |
| GameServer.GameRoom.FindClosestPlayer | Server/Server/GameRoom.cpp:333-354 | The nearest player, the smallest id among equals |
| GameServer.GameRoom.FindPath | Server/Server/GameRoom.cpp:356-471 | The search over the cells that can be entered right now |
| GameServer.GameRoom.CanGo | Server/Server/GameRoom.cpp:473-484 | Inside the map, walkable, and nobody there |
| GameServer.GameRoom.GetGameObjectAt | Server/Server/GameRoom.cpp:504-519 | The first player, else the first monster, that stands at the cell |
| GameServer.GameRoom.ProcessSkill | Server/Server/Player.cpp:15-36 | Hits the monster ahead, if there is one |
| GameServer.GameRoom.UpdateMonster | Server/Server/Monster.cpp:20-36 | Takes an enabled Tick step, keeps the invariant and the set of monsters |
| GameServer.GameRoom.UpdateIdle | Server/Server/Monster.cpp:38-79 | Targeting, turning, swinging or following a path are the machine's idle step, with an answer of the search |
| GameServer.GameRoom.UpdateSkill | Server/Server/Monster.cpp:91-126 | The blow at the end of a swing and the final announcement |
| GameServer.GameRoom.Strike | Server/Server/Monster.cpp:100-123 | Hits a live target one step away, and forgets a target that is gone |
| ClientScene.DevScene.Handle_S_AddObject | Server/Client/GameCoding/DevScene.cpp:363-405 | The loop over the objects is the view's step |
| ClientScene.DevScene.Handle_S_RemoveObject | Server/Client/GameCoding/DevScene.cpp:407-418 | The loop over the ids is the view's step, narrowing included |
| ClientScene.DevScene.GetObject | Server/Client/GameCoding/DevScene.cpp:420-430 | The first object with the id, iff there is one |
| ClientScene.DevScene.Handle_S_Move | Server/Client/GameCoding/ClientPacketHandler.cpp:126-180 | Health and stats for everybody, pose for everybody but the own player |
| ClientScene.DevScene.RefreshStatFromInfo | Server/Client/GameCoding/Player.cpp:246-283 | The field-by-field derivation is the view's refresh |
| ClientScene.DevScene.HandleAll | Server/Client/GameCoding/ClientPacketHandler.cpp:9-34 | Handling a list of messages is the fold over which agreement is proved |

## Left out

- Winsock, IOCP, Listener, Service, SocketUtils, NetAddress, ThreadManager: WSASend is a step that succeeds or fails, a completion is a step, the kernel takes batches in the order submitted and delivers their bytes in order.
- Connect, Disconnect and the owner references of the connect, disconnect and receive events; Send before the session is connected.
- Partial send completions: the server does not look at how many bytes were sent, only whether none were.
- Send failures inside a room step: there, sending is an append to the session's list, so the re-entry of LeaveRoom during a broadcast is not modelled.
- Framing.OnRecv: requires that no header of size 0 comes up, on which the receive loop would never end; `Framing.Parse` reports such a stream as stuck.
- Receiving.PacketSession.ProcessRecv: requires the same, and at most as many bytes as were posted for; one receive is outstanding at a time.
- Headers of size 1 to 3, shorter than a header: they are handed out like any packet, as in the code; what a handler does with them is not modelled.
- Framing.MakeSendBuffer: requires payloads of at most 65531 bytes; beyond that the 16-bit size wraps and the allocated buffer is smaller than what is written.
- Protocol buffers: a payload is a byte string, and `ClientSeesRoom` assumes of the serialiser only that it frames the messages in question and that parsing undoes it.
- The identity of objects: the records of players and monsters are values in the room's maps, so `room` is membership in a map, a weak target is an id that locks while that player is in the room, and sharing of one object between maps cannot be expressed. The `_actors` of a scene are values in a list likewise.
- Object names, and the `_stat` of monsters on the client, which no message handler reads back.
- GameServer.GameRoom.FindClosestPlayer: compares squared distances as unbounded integers; the code computes them in 32 bits and compares them as floats, which agrees for offsets of at most 2896 cells and does not wrap for offsets of at most 32767 (`Geometry.SquaresFit`).
- 32-bit overflow of positions: C_Move positions are not validated by the server, and coordinates are unbounded integers here; the step distance of the path search agrees with 32-bit arithmetic for coordinates below 2^29 (`Geometry.DistancesFitInt32`).
- 64-bit overflow of ticks and of the id generator.
- ClientDelivery.ClientSeesRoom: assumes that every departure was well told, the exact condition of `RunsAgreeIff`, and no failed WSASend.
- Exclusive cells as an invariant of the room: a move message may put a player anywhere, so only monsters' updates are shown to keep positions distinct.
- Which of several answers a path search returns: `path[1]` depends on the tie order of the queue, so a monster may take any of them.
- GetRandomEmptyCellPos, the disabled binary branches of the tile map, tile size, and the directory search in Init.
- The time between ticks of one Update: each monster reads a clock of its own that never goes back.
- The clock inside one monster's update is read once, although the code reads it again when it sets the timer.
- Rendering, animation, input, sound, resources, projectiles, effects, local movement and local damage prediction on the client; the view changes by messages only.
- The client's copies of FindPath, FindClosestPlayer and CanGo, which repeat the server's on the client's own objects.
