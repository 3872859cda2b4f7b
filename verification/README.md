# A two-player battle server, modelled and verified in Dafny

A cluster of game servers pairs waiting players through Redis, runs each pair in a 20 Hz battle room
and broadcasts either the operations of every tick (mode 0, frame sync) or a snapshot (every other
mode). Clients in mode 0 rebuild the battle from the operations. Gateways cut the clients' TCP streams
into frames and keep one session per player; passwords are hashed with a seeded FNV-1a. This project
models that logic and proves what the parts promise one another. `dafny verify dfyconfig.toml` checks
all of it.

## How it is laid out

The battle, at two granularities:

- `Battle.dfy` is the room as functions on values, cut where the source releases the room's mutex.
- `Room.dfy` is the room as objects with fields that methods update. The parts that run under the mutex
  are methods of their own (`LockedTick`, `LockedQuit`, `MarkFinished`), each proved to do what its
  function says; `Tick`, `OnPlayerQuit` and `Finish` put them together for a lone caller.
- `Batches.dfy`: what a batch of operations does to health and cooldowns, read off the list.
- `OrderIndependence.dfy`: operations of different players commute, so any reordering of a batch that
  keeps each player's own order gives the same state. The comment at `internal/game/room.go:395-401`
  says that operations do not commute and that the frame order is what makes both ends agree. Only half
  of that is so: what matters is each player's own order.
- `BattleLaws.dfy`: health and score accounting, rates of damage, the map boundary, termination and
  absorption, over every run of atomic calls.
- `BattleOutcome.dfy`: when a hit lands, where a battle starts, and that its result is deserved.
- `TickOutcome.dfy`: what a tick decides, read off the operations that wait for it. `Departures.dfy`: a
  departure ends the battle. `Broadcasts.dfy`: what each player is sent while the battle lasts, in either
  mode. `Results.dfy`: what each player is told at the end.
- `Walk.dfy`: the walk in steps of 3, clamped on the way, against one jump.
- `OpLog.dfy`: which operations are applied and listed in which frame.
- `Settlement.dfy`: any number of threads, one step per locked section or message sent; the settlement
  of a room happens once, its verdict was right when it was found, and the winner is alive exactly when
  no other verdict was on its way. `UndisturbedCall` ties these steps to the atomic calls used elsewhere.

The client and the agreement with it:

- `Replica.dfy` is the client's dictionary of players, as functions and as the class that mutates it.
- `Lockstep.dfy` is about one frame: what it does to a client that was in step, or that only misses a
  departure.
- `LockstepRuns.dfy` has the lockstep theorem, over every interleaving of locked sections, and derives
  from it the case of atomic calls.
- `LockstepPremises.dfy` shows what the premises are for, each time for a whole family of rooms: a move
  at the opening, a departure between its locked section and its settlement.
- `FrameOrder.dfy`: which orders of a frame's operations keep a client in step, exactly. `AnySort.dfy`:
  which queues are safe whatever an unstable sort returns, exactly.
- `IgnoredFrames.dfy`: which frames a client may ignore while it waits for the answer to its match
  request, exactly.

The rest of the cluster:

- `Matchmaking.dfy` has the pools, counter, result and route keys in Redis and the match loops of any
  number of instances, one step per Redis command. `MatchLaws.dfy` and `RoutingLaws.dfy` prove
  invariants of every interleaving, `Waiting.dfy` how long a member waits and why a ticket is lost.
  `GameService.dfy` has the methods of one instance, each running its commands in order, however they
  fare, proved against the same steps.
- `MemberCodec.dfy`: the string form of a waiting player, and the keys.
- `Framing.dfy`: the wire format, its printer and parser, and the loop that reassembles frames.
- `Fnv.dfy`: the hash, and what its digits tell.
- `Sessions.dfy`: the gateway's session table, and what becomes of every login.
- `Options.dfy`: a value that may be missing.

## What was found not to hold

- A tick can come between a player's departure and its settlement (`internal/game/room.go:133-149`). The
  frame that goes out then leaves clients with a living player who is dead on the server, unless the
  other player's attack or skill in that frame would have killed a player who stands still
  (`LockstepExactly`, `DepartureInGapBreaksLockstep`, `DepartureMayGoUnnoticed`).
- For the same reason the winner of a battle need not be alive (`WinnerIsAliveExactly`).
- A frame's operations are sorted by player alone, and `sort.Slice` need not be stable
  (`internal/game/room.go:404`). Two different moves of one player in one tick, or two attacks of which
  only one would hit, are enough for clients to be put out of step by some such sort; `AnySortExactly`
  says which queues are safe, `FrameOrderExactly` which orders.
- A move sent before the first tick is kept by the server and lost on the client.
- A client ignores frames while it waits for the answer to its match request
  (`scripts/client_demo.py:218-225`); `IgnoredFrame` says which it can afford to.
- Room ids start at 1001 only if the counter is initialised before the first INCR. Every instance tries
  that before its match loop starts (`cmd/game/main.go:59-60`), so missing it takes a script call that
  fails, which is only logged.
- A room's two players may be one and the same, who joined through two gateways (`RoomIdsCoincide`). The
  premise `id1 != id2` below is therefore not guaranteed by matchmaking.
- A connection that logs in twice under different ids leaves a session behind, unless something else has
  ended the earlier login (`NoGhostSession`, `NoGhostByFate`).

## Premises

- The two players of a room have different ids wherever a lemma says so (`id1 != id2`). Accounting,
  settlement and termination do not need it.
- The square root is a parameter `root`. The lemmas about distances walked, about the reach of attacks
  and skills, and about an unstable frame order assume that it is a non-negative square root
  (`IsSqrt`). Everything else holds for any function, as long as server and client use the same one.
- Coordinates are real numbers. Integers are unbounded where their size is bounded by what is proved
  (ticks, scores, health); the 64-bit hash, the 32-bit frame length, the 32-bit duration and the
  64-bit player ids are written out.
- The clock is passed in. `Tick` reads it once and `finish` once more, so both values are parameters.
- The model sorts a frame's operations by player id and keeps each player's own order. What other
  results of `sort.Slice` (`internal/game/room.go:404`) come to is in `FrameOrder` and `AnySort`.
- One thread ticks a room, as `tickLoop` does (`internal/game/service.go:226-246`); departures and
  operations come from any number of others (`OneTicker`).
- Calls are atomic in the modules `BattleLaws`, `BattleOutcome`, `TickOutcome`, `Broadcasts`, `Walk` and
  `OpLog`, in `Departures.DepartureEndsBattle`, in `LockstepRuns.AtomicLockstep` and in the second half of
  `IgnoredFrames`. The theorems of `Settlement` and `Results`, the others of `Departures`,
  `TickOutcome.SectionDecides` and `LockstepRuns.LockstepExactly` hold for all interleavings of locked sections.
- Frames reach a client completely and in the order in which they were sent; that they are sent in the
  order in which they were made is `FramesAreSentInOrder`.
- Different game instances have different addresses. The room counter does not expire.
- `CurrentIsMostRecent` assumes that a connection logs in for one player id only;
  `SecondLoginLeavesGhost` shows what happens otherwise.

## Model

| member | source | states |
|---|---|---|
| RoomObjects.Room.FindPlayer | internal/game/room.go:102-110 | finds the object with the given id, the first player winning a tie, and null exactly when neither has it |
| RoomObjects.Room.SubmitOp | internal/game/room.go:120-130 | a finished room and a stranger change nothing; otherwise the record joins the end of the queue, and nothing else changes |
| RoomObjects.Room.LockedQuit | internal/game/room.go:134-147 | the part under the mutex: a living player of an unfinished room is buried and the other one is to win by opponent_left; otherwise nothing changes |
| RoomObjects.Room.OnPlayerQuit | internal/game/room.go:133-149 | the whole call of a lone caller: that section, then the settlement, sent once |
| RoomObjects.Room.Conclude | internal/game/room.go:371-382 | what follows a locked section once the mutex is free: the messages made in it are sent in order, or the room is settled |
| RoomObjects.Room.ApplyOp | internal/game/room.go:152-194 | fields after a move, an attack or a skill: cooldown by frame number spent even on a miss, range, living target, damage and score |
| RoomObjects.Room.MarkFinished | internal/game/room.go:214-227 | the part under the mutex: the first caller writes the verdict and is told so, a later one changes nothing |
| RoomObjects.Room.Finish | internal/game/room.go:213-229 | only the first call settles and sends; a later one changes and sends nothing |
| RoomObjects.Room.PushResult | internal/game/room.go:232-265 | scores +10 and +1 unless nobody won, then the result to each player whose id is not 0 |
| RoomObjects.Room.ConsumeOps | internal/game/room.go:278-287 | the loop applies the queue in arrival order, keeps exactly the records of players who were alive, and empties the queue |
| RoomObjects.Room.MovePlayers | internal/game/room.go:311-334 | both players advance by at most the step length, clamped, the rest carried over |
| RoomObjects.Room.FindDead | internal/game/room.go:336-346 | the first player, in p1, p2 order, who is alive with no hp left; null exactly when there is none |
| RoomObjects.Room.Judge | internal/game/room.go:336-382 | death before the time limit, the time limit before the broadcast, a tie of hp being a draw |
| RoomObjects.Room.LockedTick | internal/game/room.go:269-382 | the part of a tick under the mutex, in place: the room afterwards and what is left to do are those of the section the interleaving theorems reason about |
| RoomObjects.Room.Tick | internal/game/room.go:269-383 | the whole tick of a lone caller: room fields and messages sent are those of the atomic tick |
| OrderIndependence.OpsCommute | internal/game/room.go:152-194 | operations of the two sides commute on every room state, whatever they are and whoever they aim at |
| OrderIndependence.RecordsCommute | internal/game/room.go:279-287 | records of different players commute, also when a player is unknown or dead |
| OrderIndependence.OrderDoesNotMatter | internal/game/room.go:278-287 | any reordering of a batch of any length that keeps each player's own order gives the same room state |
| OrderIndependence.SortOpsLaws | internal/game/room.go:402-407 | the frame's order is sorted by player, a permutation, and keeps each player's own order |
| OrderIndependence.SortedInterleavingIsUnique | internal/game/room.go:402-407 | there is only one such order, so any sort that is stable gives the model's frame |
| OrderIndependence.KeptIsEnough | internal/game/room.go:279-287 | applying just the records that were kept gives the state that applying the whole queue gave |
| BattleLaws.RunIsSound | internal/game/room.go:120-369 | the invariant of rooms in every run: accounting, cooldown frames in the past, positions on the map, everybody alive until the end |
| BattleLaws.RunningRoom | internal/game/room.go:152-352 | until a room finishes both players are alive with 1 to 100 hp, on the map, and no cooldown frame lies in the future |
| BattleLaws.AdvanceIsShort | internal/game/room.go:311-334 | nobody moves further than 3 in a tick, clamping included |
| BattleLaws.TickMovesAtMostStep | internal/game/room.go:269-383 | the same for a whole tick of a running room, whatever operations it consumes and however it ends |
| BattleLaws.DamageIsConserved | internal/game/room.go:171-188 | in every unfinished room the health lost by both is five times the score made by both, self-hits included |
| BattleLaws.DamageRate | internal/game/room.go:159-189 | at tick T a score is at most 2 * (T / 10) + 5 * (T / 40), and no kill happens before tick 40 |
| BattleLaws.NoKillBeforeTick80 | internal/game/room.go:159-189 | nor before tick 80 if nobody targets itself |
| BattleLaws.FinishedIsFinal | internal/game/room.go:120-149 | once finished, no sequence of calls changes any field or sends anything |
| BattleLaws.EndsInTime | internal/game/room.go:354-369 | with the clock advancing at least delta per tick the tick count never exceeds 60000 / delta + 2, and after so many ticks the room is finished, under any inputs |
| BattleOutcome.WithinRange | internal/game/room.go:168-170 | the distance test may be made on squares |
| BattleOutcome.AttackLands | internal/game/room.go:159-172 | the whole arena after an attack: unchanged within 10 ticks of the last one; otherwise the cooldown is spent, and exactly if a living target stands within 8 it loses 10 hp and the attacker gains 2 points |
| BattleOutcome.SkillLands | internal/game/room.go:175-188 | the same for a skill: 40 ticks, within 15, 25 hp, 5 points |
| BattleOutcome.BattleStartsAtSpawn | internal/game/room.go:289-309 | in every run, whatever was submitted before, after the opening tick the players stand at (20, 20) and (80, 80) with full health and no score |
| BattleOutcome.ResultIsDeserved | internal/game/room.go:133-369 | in every run of atomic calls: the winner is alive, a killed or departed loser is dead at 0 hp, on time the winner has strictly more hp, a draw is a tie, and when both fall in one tick the second player wins |
| BattleOutcome.NoEarlyTimeout | internal/game/room.go:354-369 | no battle ends by the clock while no tick reads more than 60 s past creation |
| TickOutcome.SectionDecides | internal/game/room.go:269-382 | the locked part of a tick, for any room in which the battle is on: a living player without hp left after the waiting operations is killed, the first one first; otherwise after 60 s the higher hp wins and a tie is a draw; otherwise something is broadcast; hp, motion and cooldowns of both sides afterwards, and nothing else changes |
| TickOutcome.TickDecides | internal/game/room.go:269-383 | the same for a whole tick in every run, in either mode, from what the two players have submitted since the last tick: exactly when the tick ends the battle, with which winner, loser, reason and time, and every fighter afterwards |
| TickOutcome.OpeningDecides | internal/game/room.go:289-309 | the first tick of every run, in either mode: it never ends the battle, and leaves both players at their spawn points, unhurt, with their last order to move in force |
| TickOutcome.QueueIsWhatWaits | internal/game/room.go:120-130 | in either mode the queue of an unfinished room is what its two players have submitted since the last tick, in order |
| Departures.DepartureEndsBattle | internal/game/room.go:133-149 | in every run of atomic calls, whatever is queued: a player who leaves an unfinished room is dead at 0 hp and has lost to the other one by opponent_left, with nothing else changed; any other departure changes and sends nothing |
| Departures.DepartureIsNoticed | internal/game/room.go:134-148 | at any moment of any interleaving: a departure buries the player at once and puts its thread on the way to settle the room against it, exactly if the room is unfinished and the player alive in it |
| Departures.DepartureIsSettled | internal/game/room.go:133-149 | from then on, whatever other threads do, the player stays dead, and the room is finished once that thread has taken one more step |
| Broadcasts.TickAnnounces | internal/game/room.go:289-420 | in every run, in either mode, a tick after which the battle goes on sends exactly one message to each player, the first one first: the room's id, the number of ticks, full exactly at the opening, and both players as they are (a frame of mode 0 only at the opening); any other tick sends neither frame nor snapshot |
| Broadcasts.MessagesRecountTicks | internal/game/room.go:371-382 | the frames and snapshots a player has got are one for each tick in order, each showing the room as that tick left it, and none is missing while the battle lasts |
| Broadcasts.LastSnapshotIsCurrent | internal/game/room.go:411-431 | in a state-sync battle under way the last snapshot each player has got shows both players exactly as they are |
| Walk.WalkTicks | internal/game/room.go:314-334 | max(1, ceil(length / 3)): the least positive number of steps that covers the length |
| Walk.WalkLands | internal/game/room.go:311-334 | from anywhere on the map a walk stops at clamp(start + displacement) after exactly that many ticks, walking until then, although intermediate positions are clamped |
| Walk.WalkRefinesJump | internal/game/room.go:154-157 | the same in a running room: after a move by (dx, dy) and whatever other calls, the player stands at clamp(start + (2 dx, 4 dy)) from tick max(1, ceil(length / 3)) on, and walks before |
| OpLog.FramesListAcceptedOps | internal/game/room.go:371-407 | for each player the operations listed by all frames so far, followed by the unlisted ones (still queued, or consumed by the tick that ended the battle), are exactly the accepted ones in order |
| OpLog.FrameListsTheQueue | internal/game/room.go:371-407 | in every run the frame a tick sends to either player is a permutation of the queue the tick found, sorted by player, each player's own order kept |
| OpLog.NextTickAppliesTheQueue | internal/game/room.go:278-287 | in every reachable unfinished mode-0 room the next tick consumes the whole queue, no accepted operation is skipped |
| Settlement.ActKeeps | internal/game/room.go:133-265 | every locked section and every message of every thread keeps the settlement invariant, with its phases open, owned by one thread, done |
| Settlement.SettledExactlyOnce | internal/game/room.go:213-265 | under every interleaving: nothing is settled before the room finishes, then an initial part of the one settlement has been sent, and all of it once no thread is under way |
| Settlement.SettledByOneStep | internal/game/room.go:213-229 | over a whole run at most one step gets a thread through finish, and exactly one if the room is finished |
| Settlement.OneThreadSettles | internal/game/room.go:213-232 | at any moment at most one thread is past finish and runs pushResult |
| Settlement.SettlementIsFinal | internal/game/room.go:213-227 | a finished room's winner, loser and reason, and every other field, never change under any steps of any threads |
| Settlement.ScoresAreTenAndOne | internal/game/room.go:242-250 | scores sent are nothing for a draw, otherwise +10 for the winner then +1 for the loser, never more, and complete once no thread is under way |
| Settlement.VerdictIsValid | internal/game/room.go:336-369 | winner and loser are the two players, or both 0 for a draw; whoever lost by a kill or by leaving is dead |
| Settlement.VerdictWasJust | internal/game/room.go:336-369 | the result of a finished room is one that some locked section of the run came to, and there the loser was at 0 hp or gone, the winner on time had strictly more hp, or a draw was a tie past the time limit |
| Settlement.DeadIffCondemned | internal/game/room.go:133-149 | in every reachable unfinished room a player is dead exactly when some thread is on its way to settle against it |
| Settlement.WinnerIsAliveExactly | internal/game/room.go:213-227 | the winner of a room that is being settled is alive exactly when no thread is on its way to settle against it by a kill or a departure |
| Settlement.UndisturbedCall | internal/game/room.go:133-149 | a call whose steps nobody interrupts ends where the atomic call of the battle functions ends, with the same messages |
| Settlement.WinnerMayBeDead | internal/game/room.go:147-148 | an instance: two players leave at once and the first to be settled against makes the other, who has left too, win |
| Results.PlayersAreTold | internal/game/room.go:231-265 | under any interleaving the results sent are an initial part of one to the first player and one to the second, none for an id of 0, and all of them once the room is finished and no thread is under way; each has the room's own id, winner, loser and reason, and the full seconds it lasted as a 32-bit number |
| Results.EndIsTimed | internal/game/room.go:218-220 | the time of the end is the clock reading of the one step that got through finish |
| Replica.Bot.ApplyOp | scripts/client_demo.py:421-456 | one listed operation on the client's dictionary: unknown or dead players ignored, cooldowns by frame number, range and damage |
| Replica.Bot.StepEveryone | scripts/client_demo.py:393-409 | the walking loop over the dictionary, in any order of its keys |
| Replica.Bot.OnFrame | scripts/client_demo.py:369-419 | a full frame rebuilds the world, any other applies operations, walks and marks deaths; nothing but the frame number before a world exists |
| Lockstep.FrameOrderIsAsGood | internal/game/room.go:402-407 | applying the broadcast order gives the state that arrival order gave |
| Lockstep.FrameSimulates | scripts/client_demo.py:389-409 | a client in step computes, from a frame's operations and walk, the server's state before its death check |
| Lockstep.DeathCheckNeverFires | scripts/client_demo.py:411-416 | on a frame that goes out every living player has hp left, so the death check of a client in step changes nothing |
| Lockstep.MirrorTick | scripts/client_demo.py:369-419 | a frame takes a client in step to the server's new state in all nine fields of both players |
| Lockstep.GapTick | internal/game/room.go:311-382 | a client whose world differs from the server's by departures only: the next frame brings it back into step exactly if each player who left was standing still and the other one, if still there, has a free cooldown for its first attack or skill waiting, is in reach, and hits for all the hp left |
| Lockstep.OpeningTick | internal/game/room.go:289-309 | the full frame puts any client in step exactly if the opening tick consumed no move |
| LockstepRuns.StepTracks | internal/game/room.go:133-383 | every step of every thread: a frame keeps a client in step exactly under the guard, nothing else disturbs it |
| LockstepRuns.LockstepExactly | internal/game/room.go:269-409 | for every run of a mode-0 room, however locked sections interleave: the client that replayed the frames so far has the server's state after every frame, if and only if before every frame no move was pending at an opening and nobody had left unnoticeably |
| LockstepRuns.LockstepWithoutGaps | internal/game/room.go:269-409 | in particular if at every frame no thread is between noticing a death or departure and settling it, and the opening is quiet |
| LockstepRuns.FramesAreSentInOrder | internal/game/room.go:371-376 | for each player the frames in the log, followed by those the ticking thread has still to send, are the frames made, in order, under any interleaving |
| LockstepRuns.AtomicRun | internal/game/room.go:133-149 | every run of atomic calls is one of the runs of threads, with the same room and messages, and its frames are guarded once its opening is quiet |
| LockstepRuns.AtomicLockstep | internal/game/room.go:269-409 | with atomic calls the client agrees with the server after every call if and only if no move was pending at the opening tick |
| LockstepPremises.OpeningMoveBreaksLockstep | scripts/client_demo.py:372-383 | any move submitted before the first tick puts client and server out of step |
| LockstepPremises.DepartureInGapBreaksLockstep | internal/game/room.go:133-149 | in any run in step so far, a departure whose settlement the next tick overtakes breaks lockstep, as long as no attack or skill is waiting |
| LockstepPremises.DepartureMayGoUnnoticed | internal/game/room.go:133-149 | a departure overtaken by a tick does no harm if the player stood still and the frame brings the attack that would have killed it |
| Batches.BatchHasEffect | internal/game/room.go:152-194 | a batch of any length: each side loses 10 for each living player's first attack and 25 for its first skill if the cooldown is free and the target named is that side, alive and in reach, and nothing else; cooldowns of those firsts are spent |
| Batches.FirstsOfKept | internal/game/room.go:278-287 | the consumed records list the same first attack and skill for each living player, and none for a dead one |
| FrameOrder.FrameOrderExactly | internal/game/room.go:402-407 | a client in step that gets a frame's operations in any order at all is in step afterwards if and only if for each side its last move, if it lives, is the same as in the server's order, and so is the damage the lists do to it |
| AnySort.AnySortExactly | internal/game/room.go:404 | every result of a sort by player keeps clients in step if and only if for each living player all moves waiting are the same, and, if the cooldown is free, all attacks waiting would hit the same side or none, and so with skills |
| AnySort.UnstableOrderBreaksLockstep | internal/game/room.go:404 | with two different moves of one living player anywhere in the queue, some order sorted by player puts a client in step out of step |
| AnySort.SwappedAttacksBreakLockstep | internal/game/room.go:404 | the same with two attacks of a player with a free cooldown of which one would hit a side and the other would not |
| IgnoredFrames.IgnoredFrame | scripts/client_demo.py:218-225 | in any world, ignoring a frame that is not full loses nothing exactly if no living player is due to die or has a free cooldown for an attack or skill it lists, and whoever walks after its moves ends in place with the step that was left over before |
| IgnoredFrames.HarmlessWalker | scripts/client_demo.py:393-409 | a frame is never harmless for a walking player unless it lists a new move for it, exactly 3 longer than the way left, that the edge of the map cuts off on each axis on which it goes anywhere |
| IgnoredFrames.IgnoredFramesExactly | scripts/client_demo.py:218-225 | a client that ignores frame after frame, from any world, agrees after each of them with one that applies them if and only if all are harmless |
| IgnoredFrames.HarmlessFramesMayBeIgnored | scripts/client_demo.py:218-225 | any number of such frames may go unseen: the next frame has the effect it would have had |
| IgnoredFrames.SkippedFrame | scripts/client_demo.py:218-225 | in a run: a client in step that ignores a tick's frame has the server's players afterwards exactly if that frame is harmless |
| IgnoredFrames.DroppedMoveBreaksLockstep | scripts/client_demo.py:218-225 | a battle of two ticks in which the first player moves, anywhere: the client that got the full frame and ignores the second one is out of step, the one that applies it is not |
| MatchLaws.StepKeepsTickets | internal/game/service.go:158-348 | every command of every instance, and every request, keeps the ticket invariant |
| MatchLaws.TicketsAreConserved | internal/game/service.go:292-348 | in every interleaving each ticket is in exactly one place: waiting in a pool, in flight at one instance, in one room, or gone one way (left, expired, superseded, INCR failed, reply of the script lost) |
| MatchLaws.OneRoomPerTicket | internal/game/service.go:303-331 | no ticket enters two rooms, and a room's two tickets differ |
| MatchLaws.PairsAreLongestWaiting | internal/game/service.go:45-51 | each room holds the two members of one pool with the earliest times at the pop, equal times in dictionary order of members, the earlier one first; its mode is 0 or 1 and is what both asked for, every mode but 0 counting as 1; its player ids are theirs |
| MatchLaws.RoomIdsCoincide | internal/game/service.go:301-322 | a room's two ids coincide exactly if its two tickets are joins of one player, and then under another name or gateway address |
| RoutingLaws.StepKeepsRouting | internal/game/service.go:123-331 | every step of every instance keeps the invariant of ids, tables, routes and results |
| RoutingLaws.RoomIdsAreUnique | internal/game/service.go:54-59 | room ids are unique across all instances, whatever the order of initialisation and INCR, also with failed or unanswered INCRs |
| RoutingLaws.CounterExactly | internal/game/service.go:54-59 | the room counter after any interleaving: 1000 plus the INCRs carried out if some initialisation came before the first of them, otherwise absent or just their number |
| RoutingLaws.NumberExactly | internal/game/service.go:304-308 | the number an answered INCR hands out, exactly, in every interleaving |
| RoutingLaws.IdsStartAt1001 | internal/game/service.go:123-127 | if some initialisation came before the first INCR, whatever joined or was paired before, every room id ever is above 1000 |
| RoutingLaws.LateInitIsTooLate | internal/game/service.go:54-59 | otherwise no later initialisation changes anything, and ids stay between 1 and the number of INCRs |
| RoutingLaws.FirstIdMayBeOne | internal/game/service.go:292-331 | a run that gets there: two joins, the script, INCR, and room 1 is created |
| RoutingLaws.PlayerMayMeetItself | internal/game/service.go:292-331 | a run in which a player who joined through two gateways is paired with itself |
| RoutingLaws.RoutesNameTheOwner | internal/gateway/gateway.go:543-562 | what a gateway reads under a room's route key is the one instance that created the room, and it still holds the room unless the room is finished |
| RoutingLaws.AnswersNameRooms | internal/game/service.go:177-188 | every id that a query returned names a room created with the asking player in it |
| Waiting.RangeReadIsExact | internal/game/service.go:337-342 | the range read of a sweep lists exactly the members of the pool with an entry of 10000 ms or more |
| Waiting.SweepsListTheOverdue | internal/game/service.go:337-347 | in every interleaving whoever an instance is about to remove as timed out had waited 10000 ms or more in that pool when the instance read it |
| Waiting.LossesHaveCauses | internal/game/service.go:158-348 | in every interleaving each ticket that got no room was lost by a step of its kind: a leave, a sweep, a join, a failed INCR or a script without an answer |
| GameService.GameInstance.JoinMatch | internal/game/service.go:158-175 | says ok exactly if ZADD answered; if it was carried out the player's old entry of that pool is replaced, no other entry is touched, and the pool stays in order |
| GameService.GameInstance.LeaveMatch | internal/game/service.go:190-200 | each pool whose ZREM is carried out loses exactly the entries of that member, the other one nothing |
| GameService.GameInstance.QueryMatchResult | internal/game/service.go:177-188 | answers the stored id, which names a room with that player, and 0 without any effect if there is none or GET fails; whatever others do between GET and DEL, DEL leaves the player without a stored result, unless it fails; with nobody in between, that and the answer are the only changes |
| GameService.GameInstance.PairUp | internal/game/service.go:295-331 | however script, INCR and SETEX fare: the first two leave the pool and become a room with the next id in this instance's table, with the keys whose SETEX was carried out; or they are lost, accounted for, and the tick ends; or nothing was taken |
| GameService.GameInstance.Sweep | internal/game/service.go:333-347 | undisturbed, the sweep leaves exactly the entries of less than 10000 ms and those whose ZREM fails, and touches no room, route or result |
| GameService.GameInstance.MatchTick | internal/game/service.go:292-348 | a whole undisturbed round: pool, room, keys, counter and lost tickets afterwards, however its commands fare |
| GameService.SweepStage | internal/game/service.go:343-347 | one removal takes the entries of that member and no other, or none if it fails |
| MemberCodec.ParseFormatInt | internal/game/service.go:78-90 | every 64-bit integer, negative ones included, survives formatting and parsing |
| MemberCodec.MemberRoundTrip | internal/game/service.go:68-90 | parsing an encoded waiter gives it back exactly when the name contains no bar, for every id and every address |
| MemberCodec.ParseOfBarredName | internal/game/service.go:68-90 | what comes back otherwise: the name up to its first bar, the rest of it in front of the address |
| MemberCodec.PlayerIdSurvives | internal/game/service.go:68-90 | the player id survives every name |
| MemberCodec.SameMember | internal/game/service.go:88-90 | two waiters share a member string only if they are the same player, and the same waiter if no name has a bar |
| MemberCodec.KeysAreDistinct | internal/game/service.go:35-41 | result and route keys never collide, within a kind or between the two |
| MemberCodec.Spelling | internal/game/service.go:88-90 | how a member is spelled: decimal id with its sign, name and address, with bars between them |
| Framing.EncodeFrame | internal/net/protocol.go:47-57 | fills a buffer with header and body; a length field that wraps below the header size is a panic |
| Framing.TryDecodeFrame | internal/net/protocol.go:62-85 | tells need-more, malformed and a frame apart, and leaves the out-parameters alone unless there is a frame |
| Framing.RoundTrip | internal/net/protocol.go:47-85 | decoding what was encoded, with anything behind it, gives the frame back exactly when header and body are at most 1048576 bytes |
| Framing.DecodedIsPrefix | internal/net/protocol.go:62-85 | a decoded frame encodes to the bytes it was decoded from |
| Framing.WireLayout | internal/net/protocol.go:44-57 | the bytes of a frame: four for the whole length, two for the message id, two for the flags, most significant first, then the body |
| Framing.LengthDecides | internal/net/protocol.go:62-79 | for every buffer: fewer than 8 bytes are awaited, a length below 8 or above 1048576 is an error, and otherwise a frame is there exactly when that many bytes are |
| Framing.ParsePrinted | internal/net/protocol.go:47-85 | a concatenation of encoded frames and an incomplete rest parses to exactly these frames and the rest |
| Framing.PrintParsed | internal/net/protocol.go:47-85 | for every byte string, printing the frames parsed and the rest gives it back, and the rest is incomplete or malformed as reported |
| Framing.ParseConcat | cmd/gateway/main.go:116-162 | parsing can stop anywhere and go on with the rest and more bytes; more bytes never change what was parsed |
| Framing.DispatchFrames | cmd/gateway/main.go:135-161 | the inner loop dispatches the frames of the greedy parse, in order, and leaves its rest |
| Framing.HandleClientConnection | cmd/gateway/main.go:103-163 | for every sequence of reads: the effects are those of the greedy parse of all bytes received, and a frame error ends the connection exactly when that parse is malformed |
| Framing.StreamArrives | cmd/gateway/main.go:116-162 | a stream of encoded frames, cut into reads anywhere: the connection handles exactly these frames, in order, and then waits |
| Framing.PacketsAreDispatched | cmd/gateway/main.go:149-194 | for any packets: each counts as a sign of life, then a heartbeat flag (bit 8) is answered, and otherwise the body goes to login, register, match, operation or rank query for message id 1, 10, 3, 5 or 8, and is unknown for any other |
| Framing.StreamIsDispatched | cmd/gateway/main.go:116-194 | the same for a stream of encoded frames, cut into reads anywhere |
| Framing.FailureEnds | cmd/gateway/main.go:117-124 | a failing read ends the connection: what came before is handled, neither the bytes that came with the failure nor anything later |
| Fnv.StepIsBijection | internal/common/hash.go:26-27 | for a fixed byte one step is a bijection on 64-bit states, with its inverse given |
| Fnv.StepSeparatesBytes | internal/common/hash.go:26-27 | for a fixed state different bytes give different states |
| Fnv.Fnv1a | internal/common/hash.go:23-30 | the loop absorbs the bytes one after another into 64 bits, from the offset basis XOR the seed |
| Fnv.AbsorbIsInjective | internal/common/hash.go:23-30 | for any input, different starting states end in different states |
| Fnv.OneByteMatters | internal/common/hash.go:23-30 | inputs that differ in exactly one byte end in different states |
| Fnv.BlocksDiffer | internal/common/hash.go:16-30 | the four 64-bit values of any input are pairwise different |
| Fnv.UnhexHex | internal/common/hash.go:39-45 | hex digits of a value can be read back |
| Fnv.WriteHex | internal/common/hash.go:38-45 | the shift loop writes the sixteen digits of the value, most significant first |
| Fnv.HashHex | internal/common/hash.go:33-47 | 64 digits, sixteen for each seed in order |
| Fnv.VerifyHash | internal/common/hash.go:55-57 | accepts exactly the hash of the input |
| Fnv.HashIsReadable | internal/common/hash.go:33-47 | each group of sixteen lower-case hex digits reads back as one of the four 64-bit values |
| Fnv.OneByteChangesEveryGroup | internal/common/hash.go:33-47 | inputs that differ in exactly one byte differ in each of the four groups, so never share a hash |
| Fnv.GroupsDiffer | internal/common/hash.go:33-47 | the four groups of any hash are pairwise different |
| Fnv.KnownValues | internal/common/hash.go:23-30 | with seed 0 the loop gives the published FNV-1a values of "" and "a" |
| Fnv.SeedsOfEmptyHash | internal/common/hash.go:16-24 | the four seeds can be taken out of the hash of no bytes by XOR with the offset basis |
| Sessions.Gateway.BindSession | internal/gateway/gateway.go:192-203 | the session becomes current; a different session that was current is kicked and closed, never the session itself |
| Sessions.Gateway.RemoveSession | internal/gateway/gateway.go:213-219 | removes the entry only if this session is still the current one |
| Sessions.Gateway.OnClientDisconnect | internal/gateway/gateway.go:232-246 | a session that never logged in changes nothing; any other removes at most itself |
| Sessions.TableIsLastLogin | internal/gateway/gateway.go:192-219 | over any logins and disconnects: c is current for a player exactly when c made the player's last login and has not disconnected as that player since |
| Sessions.CurrentIsMostRecent | internal/gateway/gateway.go:192-219 | with one player id per connection: the current session is the one most recently bound, unless it has disconnected since |
| Sessions.EveryLoginHasOneFate | internal/gateway/gateway.go:192-219 | over any logins and disconnects each login has exactly one fate: current, displaced by a later login of another connection, renewed by one of its own, or removed by its own disconnect |
| Sessions.DisplacesAtMostOne | internal/gateway/gateway.go:192-203 | one event displaces one login at most |
| Sessions.KicksAreDisplacements | internal/gateway/gateway.go:198-202 | the kicks a connection receives in a run are as many as the logins of it that were displaced |
| Sessions.NoGhostSession | internal/gateway/gateway.go:232-246 | after a disconnect no entry names the connection exactly when it was current for its own player id only |
| Sessions.NoGhostByFate | internal/gateway/gateway.go:232-246 | the same over the history: no entry names the connection after its disconnect exactly when each of its logins under another id was displaced, renewed or removed before |
| Sessions.SecondLoginLeavesGhost | internal/gateway/gateway.go:366-372 | a second login on one connection under another id leaves an entry behind that its disconnect does not remove |

## Left out

- gRPC, TCP, HTTP, MySQL and Redis transport, connection pools, logging, configuration, process start-up: plumbing. Of each Redis command the matcher uses, the effect on the data is kept.
- float32 on the server against double on the client, NaN and infinities: coordinates are real numbers, so rounding differences between the two ends are not covered.
- RoomObjects.Room.Tick: the mutex is not part of the class, a method runs without interference. Its locked part is LockedTick; interleavings of such parts are in modules Settlement and LockstepRuns.
- RoomObjects.Room.OnPlayerQuit: likewise, with LockedQuit.
- RoomObjects.Room.SubmitOp: an operation that is nil is not modelled.
- RoomObjects.Room.PushResult: an error of the score service is only logged by the source and not modelled.
- LockstepRuns.LockstepExactly: agreement is stated after each frame, of frames in the model's order; other orders are in FrameOrder and AnySort, one frame at a time. A client is told of the end by the result, not by a frame. Lost and reordered frames are excluded.
- IgnoredFrames.IgnoredFramesExactly: is about the frames up to the first one that is not harmless; whether a client that has lost step gets back into step by chance is not stated.
- OpLog.FramesListAcceptedOps: which operations a frame lists is stated for mode 0; snapshots of the other modes list none.
- GameService.GameInstance.MatchTick: says what an undisturbed round achieves. Steps of others in between are in modules MatchLaws and RoutingLaws, which cover them all.
- GameService.GameInstance.QueryMatchResult: a stored result is always the decimal form of a room id, which parses (ParseFormatInt); no other writer of that key is modelled.
- TickAll: its loops appear only as the steps by which a battle ends and a finished room leaves the table; that a room stays two seconds after its end is not stated.
- The score of a pool entry is an integer number of milliseconds; Redis keeps it as a double, exactly at this size.
- That a player is in one room only: the code does not enforce it, a player may join both pools.
- That the sweep spares a member who joins again between the range read and the removal: it does not, the two are separate commands.
- HandleOpInput and the room part of OnClientDisconnect beyond what they read from a route key, the player routes of gateways, and the ordinary login checks.
- The limit of the Python client on incoming frames (65535 bytes, smaller than the server's).
- Salts and tokens drawn at random, time-based ids, the bots' choice of moves, terminal output, the second client.
- internal/api, internal/login, internal/rank and internal/center: thin wrappers that would only add easy members.
- Real-time behaviour of tickers.
