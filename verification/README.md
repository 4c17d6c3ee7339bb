# Verified models of the team client and its servers

The repository drives a team of game characters and runs the licence and configuration server they talk to. This project models the parts of it that are protocols or algorithms, and proves what they keep.

* **Team-gather barrier** (`TeamGather*.dfy`, `GatherBoard.dfy`). Every character owns a slot of a shared array. It publishes its stage, scans for the largest stage, and compares all slots with that slot through a live pointer, reading one word at a time. The model interleaves these reads and writes for up to ten members, with members that join, die, see others disconnected or time out at any moment. Members outside the call zero the slots one by one as a team formation ends. `TeamGatherSafety` holds the run invariant, `TeamGatherResets` the exact conditions on zeroing slots and on registering, `TeamGatherStall`, `TeamGatherPassed` and `TeamGatherEscape` who can still leave, `TeamGatherHistory` what an agreement covers. `GatherBoard` is the array itself, updated in place and proved to follow the step system.
* **Invite throttle** (`InviteThrottle.dfy`). The captain's map of recently invited players.
* **Hazard-avoiding search** (`Geometry.dfy`, `SafePath.dfy`, `SafePathCompleteness.dfy`, `SafeMove.dfy`). A greedy walk on a 50-unit lattice with a visited list, a bounding disc and hazard circles; the choice of a safe point; and the melee move that combines them. Coordinates are integers, distances are squared, one metre is 50 units.
* **Card sessions** (`CardSession.dfy`, `CardSessionProperties.dfy`, `CardServer.dfy`). Login, heartbeat, liveness check, activation and reload of the card list, on values and as the class that updates the list in place.
* **Inventory** (`SlotAllocator.dfy`, `Transfer.dfy`, `Pigeonhole.dfy`). The first free slot and its packed id, and the two loops that pull stacks into the bag.
* **Leaderless assignment** (`Assignment.dfy`) and **patrols** (`Patrol.dfy`).
* **Configuration cache** (`ConfigCache.dfy`, and `ConfigWriters.dfy` for concurrent writers), **server areas** (`ServerArea.dfy`), **time counter** (`TotpCounter.dfy`).

## What the proofs found

* The barrier is safe in every interleaving exactly if slots are zeroed only while every member is outside the call, waiting for registrations, about to publish, or deciding to wait (`SafeIffResetsAreQuiet`). Team formation zeroes all slots without asking. For each of the ten other program points `ResetInMidGatherIsUnsafe` gives a run in which formations, passing over the slots in order, zero them only while members stand there or outside, and somebody leaves stage 2 by agreement with a covered, connected member at stage 1: through a pointer left on a zeroed slot, through an entry that slips past its test, or after the decision. In the runs for the two points of the scan a third member is seen disconnected, and in the run for the point right after publishing the member sees itself disconnected.
* A check covers the characters registered when it ends. One that registers later is not waited for: `LateRegistrationIsMissed` is a calm run in which a member leaves stage 1 while another, registered and connected, has published nothing. Nobody at all is left behind in any run if and only if, besides, nobody registers while a member that has agreed has yet to leave (`NobodyMissedIff`).
* A character that dies while it waits for registrations skips the wait; revived, it can leave with fewer registered than it asked for (`RevivedMemberLeavesShort`). Nobody else goes on with too few (`RushedWasDown`). From its publication on it can leave short if and only if no slot is above its stage and too few are registered then (`CanLeaveShortIff`).
* The barrier can stall for good without any failure: a member that leaves stage k may publish its next stage before a slower peer has scanned. `StallIsReachable` gives the run. `StallIsForEver` shows that the slower member never leaves by agreement while it stays in its call, and that whoever is beyond leaves only if it sees that member disconnected.
* Being passed is final for a member up to and including the point after its publication, and when it decides to wait. A member that has begun to scan or check, or has agreed, can be passed and leave by agreement all the same: `PassedIsFinalIff` is the exact condition on program points, `PassedGetsAway` a calm run for each of the six others. A waiter about to publish can still leave if and only if no slot is above its stage (`CanLeaveIffUnpassed`).
* When all hazards are at the player or at the target the path search succeeds exactly when some lattice point lies within 2 m of the target and the first step falls inside the 30 m disc (`FindsPathIffReachable`). A target on other ground than the start, or a start outside the disc, can make it fail even so.
* A heartbeat skips the expiry test when the card's token is 0, so after a restart an expired card is claimed once (`ExpiredHeartbeat`). A reload keeps the record in memory, so it does not refresh the hours of a card; and after a reload and a new activation another client is let in on a held card exactly if the reload did not list the card (`DroppedRecordForgetsHolder`). A login records the new card number before it is checked, so a refused login costs the client the card it held, unless it was turned away earlier or named a number with the same checksum (`FailedLoginLosesCard`).
* The joined configuration key is right exactly for sets of names without colliding keys; a dash in an account or player name can make two names collide (`DashFreeNamesAgree`). Statements are queued after the lock is released, so two overlapping writes to one name can leave cache and database apart for good; with concurrent writers they agree in all runs if and only if, besides, no two writes to one name overlap (`AgreesAtRestIff`).
* Before its start time the password counter is one too low at the edges of a time step, two too low if the step is one second (`CounterBeforeStart`, `CounterIsLow`).
* An allocator that never tries the last slot refuses a container with one free slot exactly when that slot is the last (`RefusedIffOnlyLastIsFree`).

Where comments and code disagree the model follows the code: `DailyTask_HukryongPrison_Boss_BuKa.cpp:2857` speaks of widening the hazard radius from 4 to 5 and of a circle around the boss, the code uses 4 and the target; `FarmBossFish.cpp:115` announces a descending sort, the code sorts ascending.

## Assumptions

* Registration and re-attachment to the shared array are single steps, and one process at a time runs a character. A team formation is run by a registered character outside the barrier, several may run at once, and its loop over the slots interleaves with everything else, one slot a step. A read or write of one slot's stage is atomic. The two operands of a comparison may be read in either order. A character found dead in the loop of the barrier leaves the call; one found dead in the wait before it goes on to the scan, as in the original.
* Clock readings never run backwards. Drawn tokens are not 0 and differ from those other clients hold where a property says so; checksums of different card numbers differ where a property says so (`NoCollision`).
* What the environment answers is a parameter: who is seen disconnected, team sizes, rings of points, job results, whether the game still runs, database rows. In `Inventory` a requested move succeeds and puts the items where asked; `PullRequests` needs no such assumption.
* The player's position and the list of hazards do not change during one decision; a player id does not change during one look of the captain. The captain's map of invited players lives in one call of its script, so the spacing of invitations is a property of one call.

## Model

| member | source | states |
|---|---|---|
| TeamGatherSafety.AgreementIsSafe | BnsProjects/BnsScript.cpp:3348-3432 | in every interleaving that zeroes slots at safe points only, a member that leaves stage k by agreement leaves nobody its check covered behind: each slot below the count at the end of its check, its own included, that it did not see disconnected shows at least k; and the check covered as many characters as it asked for, unless it was found dead while waiting for them |
| TeamGatherSafety.NextKeepsInv | BnsProjects/BnsScript.cpp:3335-3428 | every event (a single read, write or decision of any member, registering, entering, dying, forming a team, zeroing a slot at safe points) keeps each member's local view true and every slot at or above the stages passed over it |
| TeamGatherSafety.AdvanceIsSound | BnsProjects/BnsScript.cpp:3368-3428 | one step of a member keeps its local view true, and its slot is never lowered, although the scan that guards the entry is not atomic |
| TeamGatherSafety.PassedStagesStayReached | BnsProjects/BnsScript.cpp:3368-3428 | over whole runs, a stage passed by agreement since the last reset of a slot is never above what the leaver or any member its check covered shows afterwards |
| TeamGatherSafety.PointerIsSet | BnsProjects/BnsScript.cpp:3356-3435 | in every run, with resets at any time, the pointer to the furthest member is on a registered slot whenever it is read; the message for the null case is unreachable |
| TeamGatherHistory.CheckEndedAt | BnsProjects/BnsScript.cpp:3386-3414 | an agreement covers exactly the characters registered at the step in which the member's check ended, a step of the run that is found |
| TeamGatherResets.NobodyMissedIff | BnsProjects/BnsScript.cpp:1718-1722 | for every two sets of program points, at which zeroing and registering are tolerated: in all runs every departure by agreement finds each registered character, covered or not, at the stage or seen disconnected, if and only if slots are zeroed at safe points only and nobody registers while a member has agreed and not left |
| TeamGatherHistory.RushedWasDown | BnsProjects/BnsScript.cpp:3348-3353 | a member goes past the wait with too few registered only at a step that found it dead there |
| TeamGatherWitness.LateRegistrationIsMissed | BnsProjects/BnsScript.cpp:3386-3428 | a concrete calm run in which a member leaves stage 1 by agreement while a member that registered after its check has published nothing |
| TeamGatherWitness.RevivedMemberLeavesShort | BnsProjects/BnsScript.cpp:3348-3368 | a concrete run in which a member that died in the wait and was revived leaves by agreement with one character registered of the two it asked for |
| TeamGatherEscape.CanLeaveShortIff | BnsProjects/BnsScript.cpp:3348-3432 | a waiter about to publish a stage above 0 can come to leave by agreement with fewer characters covered than it asked for if and only if no slot shows a later stage and fewer than that are registered now |
| TeamGatherResets.ResetInMidGatherIsUnsafe | BnsProjects/BnsScript.cpp:1718-1722 | for every program point but the three safe ones, a run in which members outside the call zero the slots in order, only while members stand at that point or outside, and a member leaves stage 2 by agreement while another slot, covered and not seen disconnected, shows stage 1 |
| TeamGatherResets.SafeIffResetsAreQuiet | BnsProjects/BnsScript.cpp:1718-1722 | for every set of program points at which zeroing is tolerated, and however characters register: departures are safe in all runs if and only if the set holds no point but waiting for registrations, about to publish and deciding to wait; also when only harm to members other than the leaver counts |
| TeamGatherProgress.WalkScan | BnsProjects/BnsScript.cpp:3335-3346 | an undisturbed scan, whose compare and assignment read the slot twice, ends with the pointer on a slot with the largest stage |
| TeamGatherProgress.WalkEntry | BnsProjects/BnsScript.cpp:3348-3364 | an undisturbed entry turns back if and only if some member already shows a later stage, and otherwise goes on to publish |
| TeamGatherProgress.WalkCheck | BnsProjects/BnsScript.cpp:3385-3414 | an undisturbed check stops at the first connected slot that is unset or behind the pointed one, having counted exactly the lost slots before it, and agrees if and only if there is none |
| TeamGatherProgress.QuorumIsUnsigned | BnsProjects/BnsScript.cpp:3416-3421 | the unsigned quorum test leaves exactly when the members left are too few, and never once more are lost than the team has |
| TeamGatherProgress.UndisturbedIterationDecides | BnsProjects/BnsScript.cpp:3368-3432 | an undisturbed iteration of the step system publishes the stage and ends in the verdict: outside without a pass if the quorum is missed, outside with a pass if agreed, about to publish again otherwise; nothing else on the board changes |
| TeamGatherProgress.VerdictMeans | BnsProjects/BnsScript.cpp:3385-3428 | the verdict leaves short if and only if the team without the slots seen lost before the first connected slot that is unset or behind, taken unsigned, is below the number asked for; and by agreement if and only if the connected slots are level and the quorum is met |
| TeamGatherHistory.OverdueNeverLeaves | BnsProjects/BnsScript.cpp:3376-3380 | a waiter that finds its five minutes over at every pass publishes again and again and never leaves by itself, in any interleaving |
| TeamGatherProgress.EveryoneArrivedLeaves | BnsProjects/BnsScript.cpp:3424-3428 | if all registered members show stage k and none is lost, an undisturbed iteration leaves by agreement |
| TeamGatherStall.OvertakenNeverAgrees | BnsProjects/BnsScript.cpp:3399-3413 | a waiter whose peer shows a later stage, and which has not yet read past what that shows, never leaves by agreement in any continuation in which it stays in its call and does not see itself disconnected, and no slot is zeroed; the peer and everybody else may do anything |
| TeamGatherPassed.PassedIsFinalIff | BnsProjects/BnsScript.cpp:3348-3432 | for every set of program points, over all runs with safe resets: a member that stands at one of them when another slot shows a later stage never leaves by agreement in such a continuation, if and only if none of the points is in the scan after publishing, in the check, or after agreeing |
| TeamGatherPassed.PassedGetsAway | BnsProjects/BnsScript.cpp:3383-3432 | for each of those six points a calm run in which a member at stage 1 stands there when its peer shows stage 2, and leaves by agreement all the same |
| TeamGatherStall.StallIsForEver | BnsProjects/BnsScript.cpp:3368-3432 | in every such continuation of a stalled board, where moreover all agreed checks cover the waiter, the waiter never leaves by agreement and a member at a later stage leaves by agreement only if it has seen the waiter disconnected |
| TeamGatherStall.StallHoldsEveryone | BnsProjects/BnsScript.cpp:3368-3432 | if besides nobody sees the waiter disconnected, nobody at a later stage ever leaves by agreement |
| TeamGatherEscape.CanLeaveIffUnpassed | BnsProjects/BnsScript.cpp:3368-3432 | a waiter about to publish a stage above 0, with a quorum in the range of a DWORD, has a continuation in which it leaves by agreement if and only if no slot shows a later stage; and then also one in which nobody is seen disconnected |
| TeamGatherWitness.StallIsReachable | BnsProjects/BnsScript.cpp:3368-3432 | a concrete calm run, in which nobody dies, is interrupted, times out or is seen disconnected and no formation begins, that reaches a stalled board with the overtaker waiting at a later stage |
| GatherBoard.SharedBoard.Attach | BnsProjects/BnsScript.cpp:1998-2016 | a known name gets its old slot with its stage kept, a new name the next free slot with stage 0; no two names share a slot |
| GatherBoard.SharedBoard.Act | BnsProjects/BnsScript.cpp:3348-3432 | one atomic action, written out case by case on the arrays, equals the step of the step system; inside the call it writes at most the member's own slot and local state |
| GatherBoard.SharedBoard.Replay | BnsProjects/BnsScript.cpp:3334-3432 | any schedule of events on the array, registrations of new names included, ends in the state the step system gives |
| GatherBoard.SharedBoard.FindByMaxScheduleIndex | BnsProjects/BnsScript.cpp:3335-3346 | the scan returns the last slot with the largest stage |
| GatherBoard.SharedBoard.CheckSlots | BnsProjects/BnsScript.cpp:3385-3414 | the check agrees if and only if all connected slots are set and at the largest stage, and counts exactly the lost slots before it stops |
| GatherBoard.SharedBoard.GatherIteration | BnsProjects/BnsScript.cpp:3368-3432 | the loop body on the arrays writes only the caller's slot, and ends in the verdict in which the step system, moving that member alone, ends as well |
| GatherBoard.SharedBoard.ResetAll | BnsProjects/BnsScript.cpp:1718-1722 | team formation zeroes the registered slots and no others, and undisturbed equals the pass of the step system |
| InviteThrottle.InvitationsAreSpaced | BnsProjects/BnsScript.cpp:1662-1686 | in every run of one call any two invitations to one player are at least 15000 ms apart, also when entries are erased and inserted again |
| InviteThrottle.InvitesIffDue | BnsProjects/BnsScript.cpp:1667-1683 | after any run a visit invites the player if and only if the team does not show it and each earlier invitation to it was noted 15000 ms ago or more |
| InviteThrottle.Captain.LookAt | BnsProjects/BnsScript.cpp:1667-1683 | one visit updates the map and the invitations as the throttle prescribes |
| InviteThrottle.Captain.Sweep | BnsProjects/BnsScript.cpp:1663-1686 | any number of passes over the players is the throttle's run over the visits |
| SafePath.FindSafePath | BnsProjects/DailyTask_HukryongPrison_Boss_BuKa.cpp:2841-2892 | ends on every input; returns a greedy walk followed by the target, or nothing if a greedy walk gets stuck; a point is clear if it is 4 m or more from each listed hazard that is more than 4 m from both player and target; every step is an open neighbour no other open neighbour beats, and the walk stops near the target or where the game is found stopped |
| SafePath.WalkToTarget | BnsProjects/DailyTask_HukryongPrison_Boss_BuKa.cpp:2858-2891 | the loop on the hazards that remain: a greedy walk that stops near the target, stuck, or interrupted |
| SafePath.WalkIsBounded | BnsProjects/DailyTask_HukryongPrison_Boss_BuKa.cpp:2862-2887 | a greedy walk never repeats an (x, y), stays in the open disc and on one lattice, and has at most 60 * 60 points |
| SafePath.PathIsBounded | BnsProjects/DailyTask_HukryongPrison_Boss_BuKa.cpp:2841-2892 | every returned path has at most 60 * 60 + 1 points; all but the last are distinct, on one lattice and less than 30 m from the target |
| SafePathCompleteness.FindsPathIffReachable | BnsProjects/DailyTask_HukryongPrison_Boss_BuKa.cpp:2844-2890 | when every listed hazard is within 4 m of the player or the target and nothing interrupts, a path is found if and only if the target is near or the lattice comes within 2 m of it and the best first step lies in the disc; the number of steps is bounded by the steps needed on the two axes |
| SafePathCompleteness.LevelStartSucceeds | BnsProjects/DailyTask_HukryongPrison_Boss_BuKa.cpp:2844-2890 | with such hazards, from within 30 m with at most 50 units difference in height the walk succeeds, the distance falls at every step, and there are at most (dx + dy) / 50 steps |
| SafePathCompleteness.HazardsOnlyRemovePaths | BnsProjects/DailyTask_HukryongPrison_Boss_BuKa.cpp:2869-2879 | with any hazards, success implies the reachability condition of the bare ground |
| SafeMove.ContainTurbidGround | BnsProjects/DailyTask_HukryongPrison_Boss_BuKa.cpp:2735-2741 | finds the first hazard nearer than 4 m, and none if and only if the point is clear |
| SafeMove.FindAtLevel | BnsProjects/DailyTask_HukryongPrison_Boss_BuKa.cpp:2745-2776 | the answer is inside the arena, clear by the level, on the innermost ring with such a point and the first of that ring; a refusal means there is none up to the ring where the search was stopped |
| SafeMove.FindSafePoint | BnsProjects/DailyTask_HukryongPrison_Boss_BuKa.cpp:2743-2785 | the answer's clearance level, 14 down to 10, is the best any ring candidate reaches; a refusal means no candidate reaches 10 |
| SafeMove.TargetKeepsHazards | BnsProjects/DailyTask_HukryongPrison_Boss_BuKa.cpp:2853-2854 | with 10 m clearance the removal of hazards around the target removes none |
| SafeMove.PathToSafePointIsSafe | BnsProjects/DailyTask_HukryongPrison_Boss_BuKa.cpp:2607-2612 | every point of the path to a safe point, the target included, is at least 4 m from every hazard not within 4 m of the start, and consecutive points before the target are one step apart on one axis |
| SafeMove.MeleeMove | BnsProjects/DailyTask_HukryongPrison_Boss_BuKa.cpp:2597-2630 | escapes from the first hazard at the player's or else the boss's feet to a ring candidate of the best clearance level, along what the search returns for that candidate, which is a safe route; closes in or stays otherwise, and with a hazard hit only if no candidate is clear by 10 m |
| CardServer.CardManage.SetToken | BnsKorServer/VerManage.cpp:434-490 | a login on the list and the client record does what the login function says |
| CardServer.CardManage.KeepALive | BnsKorServer/VerManage.cpp:301-361 | always answers TRUE; updates list and tick as the heartbeat function says |
| CardServer.CardManage.IsALive | BnsKorServer/VerManage.cpp:582-618 | the answer and the claim are those of the check function |
| CardServer.CardManage.TryActiveCard | BnsKorServer/VerManage.cpp:282-298 | appends a fetched card if and only if it has a number and hours left, as the activation event of the runs does |
| CardServer.CardManage.RefreshCard | BnsKorServer/main.cpp:206-225 | the in-place merge of the fetched list equals the merge function |
| CardSessionProperties.RefreshKeepsRecords | BnsKorServer/main.cpp:206-225 | a card the database still lists keeps its token, hours and ticks through a reload, wherever it moves in the list |
| CardSessionProperties.MergedRow | BnsKorServer/main.cpp:206-225 | each row of a reload becomes the first record in memory with its number, or stays the database's row if there is none |
| CardSessionProperties.IssuedIffEligible | BnsKorServer/VerManage.cpp:434-490 | a token is issued if and only if the client exists, the number is neither empty nor "Empty", the version is the configured one, and the first record with the number's checksum has hours left, whoever holds it |
| CardSessionProperties.GrantedLogin | BnsKorServer/VerManage.cpp:440-490 | a granted login sets token and tick of its card and the client's own record, and nothing else |
| CardSessionProperties.HolderIsDisplaced | BnsKorServer/VerManage.cpp:301-490 | an eligible login of another client takes a held card over: the holder, let in before, is refused afterwards, and the newcomer is let in |
| CardSessionProperties.EligibleLoginTakesOver | BnsKorServer/VerManage.cpp:301-490 | over any run after it that keeps the record and grants no other login on the card, it carries the new token and every other client is refused |
| CardSessionProperties.BeatAcceptedIff | BnsKorServer/VerManage.cpp:303-351 | a heartbeat is accepted if and only if the client has a checksum, its card exists, and the card is unclaimed or carries the client's token with hours left |
| CardSessionProperties.CheckAcceptedIff | BnsKorServer/VerManage.cpp:582-618 | a check succeeds if and only if the card exists, has hours left, and is unclaimed or carries the client's token |
| CardSessionProperties.AcceptedClaims | BnsKorServer/VerManage.cpp:325-351 | an accepted request gives its card the client's token, a heartbeat also sets the tick, and no other card and no client changes |
| CardSessionProperties.RefusedChangesNothing | BnsKorServer/VerManage.cpp:301-361 | a refused heartbeat or check leaves the whole server unchanged |
| CardSessionProperties.RunKeepsRecord | BnsKorServer/VerManage.cpp:301-490 | over any run that keeps a card's record, its hours and ticks never change and its token is exactly the fold of logins and first claims |
| CardSessionProperties.TakeoverRefusesOthers | BnsKorServer/VerManage.cpp:434-490 | after a login with a fresh token every other client's heartbeat changes nothing and its check fails, until another login on that card |
| CardSessionProperties.HolderIsServed | BnsKorServer/VerManage.cpp:301-361 | the client that logged in last is accepted as long as hours are left |
| CardSessionProperties.TickMeansAccepted | BnsKorServer/VerManage.cpp:301-361 | a refused heartbeat, also for an absent card or a checksum 0, leaves the whole server unchanged; an accepted one sets the tick of the client's card, and one in a later clock tick than the last is accepted if and only if it does |
| CardSessionProperties.FailedLoginLosesCard | BnsKorServer/VerManage.cpp:449-476 | after a refused login a client that had access keeps it if and only if the number was empty, the version wrong, or the number has the same checksum; no card changes |
| CardSessionProperties.LostUntilNextLogin | BnsKorServer/VerManage.cpp:449-476 | after a refused login that recorded its number, in every run without another login of that client, it is refused on every card whose checksum is not that number's |
| CardSessionProperties.AcceptedTokensAgree | BnsKorServer/VerManage.cpp:301-361 | any two clients accepted on a card with no login between them carry the same token, if the first one's is not 0 |
| CardSessionProperties.ClaimAfterRestart | BnsKorServer/VerManage.cpp:325-339 | from token 0 and without logins, the first accepted client with a token owns the card and everyone with another token is refused, through reloads as well |
| CardSessionProperties.DroppedRecordForgetsHolder | BnsKorServer/main.cpp:206-225 | with a held card, a reload and a new activation of it, a client with another token passes its check if and only if the reload did not list the card's number |
| CardSessionProperties.SurplusOnlyFalls | BnsKorServer_IOCP/ServerCommon.h:253-257 | remaining hours are the initial hours minus the whole hours passed, at least 0, and never rise |
| CardSessionProperties.ExpiryIsPermanent | BnsKorServer/VerManage.cpp:469-484 | once the hours are used up, no later login issues a token and no later check succeeds in any run that keeps the record; a heartbeat passes only while the token is 0 |
| CardSessionProperties.ExpiredHeartbeat | BnsKorServer/VerManage.cpp:325-347 | on an expired card a heartbeat is accepted if and only if the token is 0 |
| SlotAllocator.GetEmptyItemObj | BnsProjects/BagFunction.cpp:40-92 | succeeds if and only if some slot from 1 to max-1 is free, and then encodes the lowest; otherwise leaves the id alone |
| SlotAllocator.RefusedIffOnlyLastIsFree | BnsProjects/BagFunction.cpp:45-91 | a container that is not full is refused if and only if its last slot is the only free one |
| SlotAllocator.EncodeRoundTrip | BnsProjects/BagBase.cpp:37-41 | an encoded id decodes to its slot and to 2, 3 or 6 for bag, warehouse and wardrobe, and passes the byte mask unchanged if and only if the slot is below 256 |
| SlotAllocator.IdsDoNotClash | BnsProjects/BagFunction.cpp:54-92 | two slots of these containers have the same id only if they are the same slot of the same container |
| Transfer.GetCount | BnsProjects/BagBase.cpp:43-47 | a count from 1 to 10000 reads as it is, any other as 1 |
| Transfer.PullRequests | BnsProjects/BagAction.cpp:322-340 | in any environment the pull ends within uCount moves; each asks for the whole stack found or for what is still missing, whichever is less; it stops early only for want of stacks or room |
| Transfer.Inventory.PullItemByWardrobe | BnsProjects/BagAction.cpp:307-342 | nothing is created or lost of any name, other names are untouched, min(requested, available) is moved unless the bag refuses, and at most one stack of readable counts is split |
| Transfer.Inventory.PullItemByWarehouse | BnsProjects/BagAction.cpp:284-304 | ends, conserves every name, leaves unlisted names alone, empties the shelf of the listed names unless the bag refuses, and splits no stack of readable count |
| Transfer.Inventory.FindRoom | BnsProjects/BagFunction.cpp:54-92 | the position behind the returned id is empty and the first such, and none is found exactly when the bag refuses |
| Assignment.SortIsUnique | BnsProjects/FarmBossFish.cpp:407 | two sorted lists of the same objects with distinct ids are equal, whatever order the objects were seen in |
| Assignment.FlowersAreNotShared | BnsProjects/FarmBossFish.cpp:387-412 | members with different indices never choose the same flower, even from differently ordered views |
| Assignment.FewFlowersAreCovered | BnsProjects/FarmBossFish.cpp:394-408 | with n < 6 flowers the captain takes none and each flower is taken by exactly one of the members 1 to n |
| Assignment.ManyFlowersForEveryone | BnsProjects/FarmBossFish.cpp:404-408 | with six or more flowers each of the six members has one, the one at its index in id order |
| Assignment.GoesForFlowerIff | BnsProjects/FarmBossFish.cpp:387-412 | told from the unsorted view: a member goes for a flower if and only if as many flowers have smaller ids as its team index, less one if there are fewer than six |
| Assignment.GoesForShadowIff | BnsProjects/FarmBossFish.cpp:181-219 | members 2k and 2k + 1 of six go for the shadow that exactly k others have smaller ids than, if there are three or more |
| Assignment.TakesShieldIff | BnsProjects/FarmBossFish.cpp:110-134 | member i takes the shield that exactly i others have smaller ids than, if as many as needed are there, and no other |
| Assignment.EachShadowGetsTwo | BnsProjects/FarmBossFish.cpp:181-219 | with three shadows each is chosen by exactly two of the six members, whatever order each sees |
| Assignment.ShieldsAreNotShared | BnsProjects/FarmBossFish.cpp:349-356 | different members take different shields, and with six shields each of six members has one |
| Assignment.StepOnFlower | BnsProjects/FarmBossFish.cpp:387-411 | one round of the flower loop, with its shifted index, chooses what the flower rule says |
| Assignment.ChooseShadow | BnsProjects/FarmBossFish.cpp:185-219 | the switch over team indices chooses what the shadow rule says |
| Assignment.TakeShield | BnsProjects/FarmBossFish.cpp:110-134 | chooses the shield at the member's index in id order, or none |
| Patrol.WalkOut | BnsProjects/Farm.cpp:93-101 | the way out calls the job once at each point in order until it succeeds, after two moves for each point before |
| Patrol.WalkBack | BnsProjects/Farm.cpp:103-112 | the way back calls the job once at each point from the last down until it succeeds, and goes straight to point 0 |
| Patrol.FarmAround | BnsProjects/Farm.cpp:85-115 | call q of the patrol is made at point q mod 2n on the way out and 2n - 1 - (q mod 2n) on the way back, after as many moves as such a walk makes; a patrol without success makes 2n calls and 3n moves a round; it succeeds if and only if one of the calls it may make does, never calls again, and returns to point 0 by the shortest walk |
| ConfigCache.AgreesIffInjective | BnsKorServer_IOCP/CloudConfigExtend.cpp:38-53 | over all runs of writes one after the other the cache answers what the database holds after replaying the pending statements, if and only if no two names used share a key |
| ConfigWriters.AgreesAtRestIff | BnsKorServer_IOCP/CloudConfigExtend.cpp:38-53 | with concurrent writers that store under the lock and queue afterwards: whenever all writes are queued, cache and replayed database agree in all runs, if and only if no two names share a key and no name tolerates overlapping writes |
| ConfigCache.WritesKeepAgreement | BnsKorServer_IOCP/CloudConfigExtend.cpp:38-53 | from any start in agreement, writes to names without colliding keys keep cache and replayed database in agreement |
| ConfigCache.DashFreeKeysAreInjective | BnsKorServer_IOCP/CloudConfigExtend.cpp:8-11 | names whose account and player contain no dash have different keys |
| ConfigCache.DashFreeNamesAgree | BnsKorServer_IOCP/CloudConfigExtend.cpp:8-53 | the cache is right for dash-free names, and two concrete names with dashes make it wrong |
| ConfigCache.CloudConfig.WriteConfigValue | BnsKorServer_IOCP/CloudConfigExtend.cpp:38-53 | stores the value under its key whether it was absent, different or equal, and queues exactly one statement |
| ConfigCache.LastWriteWins | BnsKorServer_IOCP/CloudConfigExtend.cpp:38-48 | a key answers with the last value written under it |
| ConfigCache.NeverWritten | BnsKorServer_IOCP/CloudConfigExtend.cpp:23-36 | a key no write used answers as before the writes: with nothing, from an empty cache |
| ConfigCache.CloudConfig.FindConfigValue | BnsKorServer_IOCP/CloudConfigExtend.cpp:23-36 | returns the stored value of the key, or nothing |
| ServerArea.EquivalenceIffConsistent | BnsKorServer_IOCP/BnsArea.cpp:4-19 | the relation is an equivalence over all ids if and only if every id in an answering group is answered for by a group with the same ids |
| ServerArea.DisjointIsConsistent | BnsKorServer_IOCP/BnsArea.cpp:4-19 | a table without an id in two groups meets that condition |
| ServerArea.ShippedIsEquivalence | BnsKorServer_IOCP/BnsArea.cpp:21-35 | the shipped table gives an equivalence relation over all server ids |
| ServerArea.BnsArea.IsSameArea | BnsKorServer_IOCP/BnsArea.cpp:4-19 | the search through the groups decides the relation |
| ServerArea.BnsArea.Initialize | BnsKorServer_IOCP/BnsArea.cpp:21-35 | builds the shipped table |
| TotpCounter.CounterIsMonotone | BnsKorServer/TotpCounter.cpp:18-22 | the counter never runs backwards, before the start time either |
| TotpCounter.CounterInvertsFromStart | BnsKorServer/TotpCounter.cpp:18-27 | from the start time on, the value's time step contains the time, as in section 4.2 of RFC 6238 |
| TotpCounter.StartTimeRoundTrip | BnsKorServer/TotpCounter.cpp:18-27 | the value at a value's start time is that value |
| TotpCounter.CounterBeforeStart | BnsKorServer/TotpCounter.cpp:18-27 | before the start time the counter inverts if and only if neither the distance to the start nor that distance plus one is a multiple of the step |
| TotpCounter.CounterIsLow | BnsKorServer/TotpCounter.cpp:18-27 | and where it does not, it is one too low, or two if the step is one second |

## Left out

- GatherBoard.SharedBoard.Attach: an eleventh character is refused here; the original writes past the array, which the model does not follow.
- TeamGatherSafety.AgreementIsSafe: elapsed time is not modelled; the five-minute limit, after which a waiter only republishes, may strike at any iteration.
- TeamGatherSafety.PassedStagesStayReached: the history starts anew at each reset of a slot, because a reset takes back what the slots showed.
- CardSessionProperties.SurplusOnlyFalls: the conversion of elapsed hours to a 32-bit integer is exact only for the first 245,000 years of uptime, and later wrap-around is not modelled.
- Patrol.FarmAround: interruptions of a patrol (death, game closed) are not modelled, nor the empty point list, for which the original loops without moving.
- Transfer.Inventory.PullItemByWarehouse: if moves fail the original repeats the request until it is interrupted; only successful moves are modelled.
- Assignment.TakeShield: an index beyond the shields, which throws in one of the two callers, is a refusal in both.
- TotpCounter.CounterInvertsFromStart: overflow of the 32-bit start time of a value is not modelled.
- InviteThrottle.InvitationsAreSpaced: the player id is read from the shared slot once per look; the original reads it several times, so a character that re-attaches in between could be invited unchecked.
- The server-side variant of the barrier, the wait for invitations on the members' side, and the moves and key presses around the barrier: no shared state of their own.
- Floating-point rounding in positions and distances, and the trigonometry of the rings: integer points and arbitrary rings instead.
- Reply buffers, the return value of the lock wrapper, logging, SQL text, sockets and the packet format: the library code and the peer are not part of this model.
- `CheckCard`, `QueryClientCard` and `IsExistCardList`: lookups that do not change the list, beyond the activation modelled here.
- `Script_SetTimeoutByInstanceCount`, `SaveItem` and the other finders by name or type: easy members.
- Boss rotations, hooks, process memory, drawing, detection and the console programs: no algorithm to state.
