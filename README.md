# Odds room state machine

A model of the single shared room of the two-player "Odds" game. Players join the room,
the first two take the player seats, and everyone after them waits in a FIFO spectator
queue. Each seated player submits a number. When both seats hold a number the game is
completed: the odds are met when the two numbers are equal and lost otherwise. A seated
player who leaves is replaced by the head of the spectator queue, and the room goes back
to `waiting` without a result once no player is left.

The repository holds this logic twice, and the model has both copies:

- `room_route.dfy`, module `RoomRoute`: the module-level `gameRoom` of
  `src/app/api/room/route.ts`, a class `GameRoom` whose fields the POST (join), DELETE
  (leave) and PATCH (submit) handlers update in place.
- `pusher.dfy`, module `Pusher`: the `rooms` store of `src/lib/pusher.ts`, a class
  `RoomStore` holding `rooms: map<string, Room>`, with `findOrCreateRoom`,
  `getRoomState`, `addPlayerToRoom`, `removePlayerFromRoom` and `submitPlayerNumber`.

Both are proved against one value-level description of the room, `room_model.dfy`
(module `RoomModel`): the `Room` datatype, the transitions `Join`, `Leave`, `Submit` and
`Settle`, the invariant `Valid`, and the lemmas about them. The invariant says that at
most `ROOM_CAPACITY` (2) seats are taken, that nobody queues while a seat is free, that
ids are unique across players and spectators, that spectators hold no number, that a
result exists exactly when the status is `completed`, and that an empty table is
`waiting`. The route copy also keeps every recorded number at 1 or more. The central
lemmas say that `players ++ spectators` behaves as an arrival-order queue. A join
appends to it. A leave removes exactly the leaver's entry from it, wherever that entry
is, because promotion moves the head spectator to the end of `players`. The seats are
always the first two entries. `scenarios.dfy` runs concrete games through the
transitions. `wrappers.dfy` holds `Option`, `Result` and `Outcome`.

Handler inputs are modelled as follows. A request field that is absent or has the wrong
JavaScript type arrives as `None`. The empty string is falsy in JavaScript, so the
handlers reject it as they reject a missing field. The random id that a join draws is a
parameter, `freshId`, and must not be held by anyone in the room.

The model follows the code in two places where a reader might expect otherwise:

- "A completed room has a number in both seats" does not hold. After a promotion,
  `status` and `result` stay as they were unless `players` is empty. `Scenarios.AliceBobCarl`
  shows this: Alice and Bob both submit 5, and once Alice leaves, Carl sits with no
  number while the room is still `completed` with `odds-met`. The status is not reset
  there.
- A submit from an id with no seat, a spectator's included, is answered 404 by the PATCH
  handler. The store helpers in `pusher.ts` check neither the name nor the number.

Some helpers carry no row of their own. `GameRoom.State` is the room as the GET handler
(`src/app/api/room/route.ts:28-30`) serialises it, and every method states its effect
through it. `RoomRoute.Truthy` holds exactly when a field passes the handlers' `!field || typeof field !== 'string'`
test (`route.ts:37`, `84`, `129`). `RoomModel.AllSubmitted` is the `every(p => p.number !==
null)` check of `route.ts:147`, used by `Settle`.

## Model

| member | source | states |
|---|---|---|
| RoomModel.FindIndex | src/app/api/room/route.ts:89 | `findIndex` on ids: -1 exactly when no entry holds the id; otherwise the first entry that holds it |
| RoomModel.Join | src/app/api/room/route.ts:45-62 | admission leaves id, status and result alone and adds exactly one entry, the newcomer with no number |
| RoomModel.Vacate | src/app/api/room/route.ts:91-105 | a seated player's leave resets status/result to waiting/none exactly when no player remains and otherwise leaves them alone; the queue shrinks by the one promoted spectator, if any |
| RoomModel.Unqueue | src/app/api/room/route.ts:111-115 | a spectator's leave shortens the queue by one and leaves players, status and result alone |
| RoomModel.Leave | src/app/api/room/route.ts:88-117 | a leave fails (404) exactly when the id is neither a player nor a spectator; the room id is kept |
| RoomModel.Settle | src/app/api/room/route.ts:146-154 | with two seated players both holding numbers, status becomes completed and the result is odds-met if and only if the numbers are equal (odds-lost if and only if they differ); otherwise nothing changes |
| RoomModel.Submit | src/app/api/room/route.ts:137-154 | a submit fails exactly when the id holds no seat, spectators included; it never touches the spectator queue |
| RoomModel.HasIdAppend | src/app/api/room/route.ts:89-111 | an id is in `players ++ spectators` exactly when it is in one of the two lists, so looking in players and then spectators finds every member |
| RoomModel.SeatsAreQueueHead | src/app/api/room/route.ts:45-99 | under the invariant, the seats are the first min(n, 2) members in arrival order and the spectators are the rest |
| RoomModel.JoinKeepsValid | src/app/api/room/route.ts:45-62 | a join with a fresh id keeps the invariant (so `players` never exceeds 2) and appends the newcomer to the arrival queue |
| RoomModel.RemoveAtUnique | src/app/api/room/route.ts:91 | `splice(k, 1)` on a list with unique ids keeps them unique, loses exactly the entry at k, and that id is gone |
| RoomModel.VacateQueue | src/app/api/room/route.ts:91-99 | vacating seat k removes position k from the arrival queue; the promoted spectator keeps its place in line |
| RoomModel.VacateKeepsValid | src/app/api/room/route.ts:91-105 | vacating a seat keeps the room invariant |
| RoomModel.UnqueueQueue | src/app/api/room/route.ts:111-113 | a spectator leaving removes exactly its position from the arrival queue |
| RoomModel.UnqueueKeepsValid | src/app/api/room/route.ts:111-113 | a spectator leaving keeps the room invariant |
| RoomModel.LeavePlayer | src/app/api/room/route.ts:89-105 | a seated player's entry is removed and the head spectator (same id, name, number) is appended to players; status/result reset to waiting/none if and only if players is then empty, otherwise unchanged |
| RoomModel.LeaveSpectator | src/app/api/room/route.ts:111-115 | a spectator's leave removes only that queue entry; players, status and result are unchanged |
| RoomModel.LeaveQueue | src/app/api/room/route.ts:89-115 | every leave removes exactly the leaver's position from the arrival queue; the rest keep their order |
| RoomModel.LeaveLosesOnlyLeaver | src/app/api/room/route.ts:89-115 | the multiset of members loses exactly the leaver's entry, the leaver's id is gone, and ids stay unique |
| RoomModel.LeaveKeepsValid | src/app/api/room/route.ts:89-115 | every successful leave keeps the room invariant |
| RoomModel.JoinThenLeave | src/app/api/room/route.ts:45-115 | round trip: a newcomer who leaves at once restores the room exactly, whether seated or queued |
| RoomModel.SubmitRecordsNumber | src/app/api/room/route.ts:138-144 | a successful submit changes the submitter's number and nothing else about any player |
| RoomModel.SubmitKeepsValid | src/app/api/room/route.ts:138-154 | a successful submit keeps the room invariant |
| RoomModel.SubmitLastWins | src/app/api/room/route.ts:138-154 | resubmission overwrites: submitting n then m equals submitting m alone, result re-evaluated (idempotent when m == n) |
| RoomModel.JoinAllQueues | src/app/api/room/route.ts:45-62 | any run of joins with fresh ids keeps the invariant and appends the joiners to the arrival queue in order |
| RoomModel.SeatsFillFirst | src/app/api/room/route.ts:45-62 | from an empty room the first two joiners are seated and the third and later ones queue as spectators, in arrival order |
| RoomRoute.JoinKeepsPositive | src/app/api/room/route.ts:45-62 | a join keeps the invariant and every recorded number at 1 or more (the joiner has none) |
| RoomRoute.LeaveKeepsPositive | src/app/api/room/route.ts:89-115 | a leave keeps the invariant and every seated number at 1 or more; the only newly seated player is a spectator with no number |
| RoomRoute.SubmitKeepsPositive | src/app/api/room/route.ts:133-154 | a submit that passed the `number < 1` check keeps the invariant and every recorded number at 1 or more |
| RoomRoute.GameRoom.constructor | src/app/api/room/route.ts:19-25 | the room starts as `main-room`, empty, waiting, with no result |
| RoomRoute.GameRoom.Join | src/app/api/room/route.ts:37-62 | a missing, non-string or empty name is a 400 with no change; otherwise the reply carries the room id, the new id and `isSpectator` = 2 seats were taken, and the room becomes `RoomModel.Join` of the old room; the invariant is kept |
| RoomRoute.GameRoom.Leave | src/app/api/room/route.ts:84-117 | a missing id is a 400 and an unknown id a 404, both with no change; otherwise the room becomes `RoomModel.Leave` of the old room; the invariant is kept |
| RoomRoute.GameRoom.SubmitNumber | src/app/api/room/route.ts:129-156 | a missing id or a number missing or below 1 is a 400, an id with no seat a 404, all with no change; otherwise the room becomes `RoomModel.Submit` of the old room; the invariant and positive numbers are kept |
| Pusher.WithMainRoom | src/lib/pusher.ts:40-47 | the main room is added empty and waiting only when absent; rooms already present are kept as they are |
| Pusher.WithMainRoomIdempotent | src/lib/pusher.ts:38-50 | creating the main room twice is the same as once |
| Pusher.RoomStore.constructor | src/lib/pusher.ts:27 | the store starts empty |
| Pusher.RoomStore.FindOrCreateRoom | src/lib/pusher.ts:38-50 | always returns `main-room`, which is then in the store; the store becomes `WithMainRoom` of the old store |
| Pusher.RoomStore.GetRoomState | src/lib/pusher.ts:53-55 | none exactly for an id not in the store, otherwise that stored room, filed under its own id and valid; a read that changes nothing |
| Pusher.RoomStore.AddPlayerToRoom | src/lib/pusher.ts:58-76 | an absent room gives none with no change; otherwise the new player, with no number, is returned and the room becomes `RoomModel.Join` of it |
| Pusher.RoomStore.RemovePlayerFromRoom | src/lib/pusher.ts:79-113 | true exactly when the room exists and holds the id; false changes nothing; true replaces only that room with `RoomModel.Leave` of it |
| Pusher.RoomStore.SubmitPlayerNumber | src/lib/pusher.ts:116-137 | true exactly when the room exists and the id holds a seat (so spectators cannot submit); false changes nothing; true replaces only that room with `RoomModel.Submit` of it |
| Scenarios.ThreeJoin | src/app/api/room/route.ts:45-62 | joins by Alice, Bob and Carl seat Alice and Bob and queue Carl |
| Scenarios.BothSubmitFive | src/app/api/room/route.ts:138-154 | Alice then Bob submitting 5 completes the game with odds-met |
| Scenarios.AliceLeavesCompletedRoom | src/app/api/room/route.ts:89-105 | Alice leaving the completed room seats Carl and keeps completed/odds-met |
| Scenarios.AliceBobCarl | src/app/api/room/route.ts:45-105 | Alice and Bob seated, Carl queued; 5 and 5 give completed/odds-met; Alice leaving seats Carl with no number while status and result stay completed/odds-met |
| Scenarios.DifferentNumbersLose | src/app/api/room/route.ts:146-154 | 3 and 9 give completed/odds-lost |
| Scenarios.LastPlayerLeaves | src/app/api/room/route.ts:101-105 | the only player leaving gives back the empty waiting room |

## Left out

- Random ids (`Math.random().toString(36)`): the id is a parameter with a freshness precondition.
- HTTP plumbing: status codes become a two-value error type (400, 404). A field that is absent or of the wrong type becomes a `None` input. A body that is not JSON is a 500 reply in POST and PATCH (`route.ts:63-66`, `157-159`), and these 500 replies are left out. DELETE answers 400 for such a body (`route.ts:76-82`), which is the same as its `None` input.
- The `roomState` in the join, leave and submit replies and in the GET reply is the room serialised by `NextResponse.json` just after the change. It equals `GameRoom.State()` when the method returns, so it is not a separate output.
- `getRoomState` (`pusher.ts:53-55`) returns the stored room object itself, and later mutations show through it. The model stores and returns room values, so this aliasing is not captured.
- `rooms` is a plain JavaScript object. Keys inherited from its prototype (such as `toString`) are not modelled.
- JavaScript numbers become `int`. Fractions and `NaN` are not modelled. `NaN` passes the `number < 1` check.
- `generateRoomId` is modelled as the constant function `Pusher.GenerateRoomId`. It has no row of its own; `FindOrCreateRoom` states that it returns this id.
- `pusherClient` and `pusherServer.trigger` are left out. The first is a websocket client from a library. The second is a logging stub. `TIMER_DURATION` and the delayed result broadcast, which live in the callers, are left out too.
- Concurrency between requests: every operation is modelled as atomic.
- The React pages are left out. They are presentation and browser I/O.
