# Arena60 server: model and properties

A model in Dafny of the game server's in-memory logic and of what that logic promises over whole runs. Sources are cited
by path and line. `dafny verify dfyconfig.toml` checks everything.

## What is modelled

* **Combat** (`Combat`, `Projectiles`, `SessionModel`, `GameSession`, `SessionInvariants`, `SessionRuns`,
  `Trajectories`, `Collisions`, `Controls`, `InputRuns`, `LiveBound`). `SessionModel` says as functions on one `Session`
  value what each operation does. `GameSession` is the class with the program's fields and loops; each method is proved
  to change the session as the function does. A run is any mix of joins, leaves, inputs, ticks and reads of the death
  queue, for any deltas that are not negative, any player ids that are not empty and any iteration order of the hash map
  in each tick. A `History` that no step reads records what happened, so that invariants can speak about the past.
* **Match statistics** (`MatchStats`, `ReportLines`, `ExactStats`, `ExactReports`, `Driver`, `Duels`). The collector's
  loops against a description of the one report they may produce; the potential argument for the bounded log; exactly
  when a report is true; the broadcast handler that ties tick, deaths and reports together; and runs in which reports
  are wrong.
* **Matchmaking** (`MatchRequests`, `Greedy`, `MatchQueue`, `PrunedScan`, `NotificationChannel`, `Matchmaker`,
  `MatchingGuarantees`, `MatchTerms`, `Stability`). The bucketed queue with its index refines a map; the pruned scan
  with removals and counters refines naive first-fit pairing on the ordered list, which is the only stable pairing of
  that list; what first-fit guarantees is proved there and carried over.
* **Ranking** (`Elo`, `Leaderboard`, `ProfileService`, `RatingRuns`, `CareerTotals`, `Standings`). The rounded rating
  update, the two-index leaderboard, the profile service, and what any sequence of recorded matches leaves behind, up to
  sequences collected from reachable sessions.
* **Tick scheduler** (`GameLoop`, `LoopTiming`). The loop thread and one controlling thread as interleaved atomic steps
  on shared flags, a mutex and a clock that never goes back. The controller joins a finished loop before starting
  another.

`Seqs`, `MapSums`, `Sorting` and `Reals` hold the general definitions.

Idealisations: `double` is `real` and integers are unbounded; time points are integer nanoseconds in matchmaking and
reals elsewhere. A square root is a parameter `r >= 0` with `r * r = v` (`Reals.IsRoot`). The Elo expectation is any
function with values strictly between 0 and 1 and `E(d) + E(-d) = 1` (`Elo.Logistic`). The lowest `double` as last fire
time is `None`, never fired. Hash-map iteration is a parameter listing the keys in any order, and the results hold for
all of them. Each public method under a mutex is one atomic step.

Four findings about the code, each with its exact condition.

* Joining resets the cooldown, also for a player who is present. The spacing of shots, from which the bound of 15 live
  projectiles follows, survives a join and whatever input comes at once exactly when every shot of that id in flight is
  at least 0.1 s old (`LiveBound.RestedIsExact`). Joins that are not so rested, repeated, lift the bound altogether
  (`LiveBound.RejoiningLiftsTheBound`).
* The shot credit survives a join exactly when the id is not empty or owns nothing in flight
  (`SessionInvariants.CreditUpsert`, `EmptyIdLosesCredit`). This concerns the public method only: the server's own input
  parsing never yields an empty id.
* A report in driver order is exact exactly when the log is clean (`ExactReports.ExactExactly`): it names present
  players only; since each of them entered it has dropped no hit he landed, and since he last joined no hit he took; it
  holds nothing he did before he entered and no hit he took before he last joined; and it holds no death of his if he
  has had none since he entered. Where each id joins once and nobody leaves this means at most 32 events
  (`ExactReports.CleanIsComplete`). Reports do go wrong: after too many events (`Duels.TooManyEvents`), or after a
  player who was hit has left (`Duels.LeaverSpoilsReport`).
* Reports are snapshots of session counters, and `RecordMatch` adds them up. After the reports of a state a career holds
  the shots really fired since entry exactly when nothing had been recorded before and the player is reported once or
  has not fired, and likewise for hits (`CareerTotals.CareersCountSnapshots`). Two deaths in one session are enough for
  a career to be wrong (`Duels.CareersGoWrong`).

## Model

| member | source | states |
|---|---|---|
| Combat.CombatLog.Add | server/src/game/combat.cpp:30-38 | After any number of additions the log is the last `capacity` events, oldest first; a log of capacity 0 stays empty. |
| SessionModel.Shot | server/src/game/game_session.cpp:179-196 | The projectile of an accepted shot flies along a unit vector (towards the mouse, see `Controls.ShotIsAimed`), belongs to the shooter, is stamped with the session time and carries the next number; the constructor's refusal of a zero direction cannot occur. |
| SessionModel.ScanFindsPlayer | server/src/game/game_session.cpp:214-268 | For every iteration order, the player a projectile hits is alive, is not its owner and touches it (see `Collisions.ScanIsExact` for the distance); no player earlier in the order was; and nobody is hit only if nobody qualifies. |
| Collisions.ScanIsExact | server/src/game/game_session.cpp:214-268 | In metres: the player hit is the first in the order who is alive, not the owner and within 0.7 m (boundary included); without one, everybody alive but the owner is farther; the pairs counted are the living others up to the one hit, or all of them. |
| Collisions.TickFates | server/src/game/game_session.cpp:199-277 | A tick from any reachable state, in any order, decides each projectile: gone at an age of 1.5 s or more; else moved 30 x direction x delta, and there it has struck a player who was alive, within 0.7 m and not its owner, and is gone, or it is still in flight and no such player is near. Nobody moves or comes back to life. |
| Collisions.TickCountsPairs | server/src/game/game_session.cpp:209-271 | A tick adds to `collisions_checked_total` exactly the pairs of its turns, each turn counting as `ScanIsExact` says for the players as it finds them. |
| Collisions.EveryTick | server/src/game/game_session.cpp:199-277 | So in every run, right after every tick no projectile in flight is within 0.7 m of a living player other than its owner. |
| GameSessions.GameSession.UpsertPlayer | server/src/game/game_session.cpp:21-42 | Changes the whole session as the model's join does (`Controls.JoinDoes` says what that is): an existing player keeps place and counters, health and cooldown are reset either way. |
| GameSessions.GameSession.RemovePlayer | server/src/game/game_session.cpp:44-52 | Erases the player and exactly that owner's projectiles, and nothing else. |
| GameSessions.GameSession.ApplyInput | server/src/game/game_session.cpp:54-99 | Changes the whole session as the model's input does; `Controls.InputDoes` says what that is. |
| GameSessions.GameSession.TrySpawnProjectile | server/src/game/game_session.cpp:164-197 | Fires exactly when fire is pressed, the player lives, the aim is long enough and the cooldown is over; a refused shot changes nothing, not even the projectile counter. |
| GameSessions.GameSession.Tick | server/src/game/game_session.cpp:101-104 | A tick with the box test and a counter added at the end leaves the same session, pair count included, as a tick by the circle test alone, for every iteration order. |
| GameSessions.GameSession.UpdateProjectiles | server/src/game/game_session.cpp:199-277 | The nested loop over projectiles and players equals the recursive tick: fly and expire, resolve in storage order, sweep the inactive. |
| GameSessions.GameSession.FindTarget | server/src/game/game_session.cpp:214-268 | The inner loop with box rejection finds the same target after counting the same pairs as the circle-only scan. |
| GameSessions.GameSession.BookHit | server/src/game/game_session.cpp:228-249 | One hit: projectile off, event logged, 20 points taken, shooter credited, and whether this damage killed. |
| GameSessions.GameSession.ConsumeDeathEvents | server/src/game/game_session.cpp:125-130 | Hands over all pending deaths once and leaves none pending. |
| GameSessions.BoxRejectsOnlyMisses | server/src/game/game_session.cpp:222-227 | Whatever the box test rejects is outside the circle too. |
| Controls.JoinDoes | server/src/game/game_session.cpp:21-42 | A join gives 100 health and no cooldown; a player who is there keeps place, last sequence number and counters, another starts at the origin with zeros; everybody else, the projectiles, the log and the totals stay. |
| Controls.MovedWalks | server/src/game/game_session.cpp:71-96 | The way of a living player: opposite keys cancel; right alone is 5 x delta along x and down alone along y, left and up the reverse; two at once are 5 x delta in length, shared evenly. |
| Controls.OnlyOneWay | server/src/game/game_session.cpp:71-96 | That description leaves only one way for each input. |
| Controls.ShotIsAimed | server/src/game/game_session.cpp:179-189 | A shot starts 0.3 m from its player in the direction of the mouse: its direction times the length of the aim is the aim. |
| Controls.InputDoes | server/src/game/game_session.cpp:54-99 | An input of an absent player, or numbered below the last, changes nothing at all; any other moves the player as its keys say and then, exactly when fire is pressed, he is alive, the aim is at least 0.000001 and his last shot is 0.1 s ago or more, adds one projectile aimed from the new place; nothing else changes. |
| InputRuns.EveryRecall | server/src/game/game_session.cpp:54-99 | In every run the last sequence of a player is the highest he has sent since he entered, his last fire time is that of his last shot since he joined, and he is no farther from the entry than 5 m for each second of his inputs that counted. |
| InputRuns.EveryInput | server/src/game/game_session.cpp:54-99 | So after any run an input numbered below an earlier one since entry changes nothing, any other is obeyed, and it launches a projectile if and only if fire is pressed by a living player with the mouse off the centre and 0.1 s have passed since his last shot, if any. |
| SessionInvariants.CreditUpsert | server/src/game/game_session.cpp:21-42 | A join keeps `hits + shots in flight <= shots fired` for everybody if and only if the id is non-empty or owns nothing in flight: with an empty id the re-initialisation would forget shots already in the air. |
| SessionInvariants.EmptyIdLosesCredit | server/src/game/game_session.cpp:24-36 | The condition bites: join under the empty id, fire any shot, join again, and the credit is lost although it held before. |
| SessionInvariants.CreditRemove | server/src/game/game_session.cpp:44-52 | Leaving keeps the shot credit of everybody and leaves none of the leaver's projectiles in the air; a later rejoin under the same id starts from zero shots and zero hits. |
| SessionInvariants.CreditHit | server/src/game/game_session.cpp:228-249 | A hit takes one shot in flight for one hit landed of the same owner, so hits plus shots in flight never outrun shots fired. |
| SessionInvariants.LedgerHit | server/src/game/game_session.cpp:226-268 | A hit takes health from 100 - 20h to 100 - 20(h + 1), never beyond the fifth hit of a life, and announces a death exactly at the fifth. |
| SessionInvariants.ConservationHit | server/src/game/game_session.cpp:226-239 | A hit turns one live projectile into one counted hit; the spawned total stays the sum of live, hit, expired and purged, and ids in the log stay unique. |
| SessionInvariants.BudgetHit | server/src/game/game_session.cpp:226-268 | Every event a hit logs is paid for out of the target's remaining health and life. |
| SessionInvariants.FlyCounts | server/src/game/game_session.cpp:200-207 | Flying loses no projectile: in all and for each owner, what is live afterwards plus what expires is what was live. |
| SessionInvariants.PurgeCounts | server/src/game/game_session.cpp:47-51 | The purge removes exactly the leaver's live projectiles from the live count. |
| SessionRuns.InvStep | server/src/game/game_session.cpp:21-277 | Each of the five session operations keeps all invariants from every state that has them. |
| SessionRuns.EveryRun | server/src/game/game_session.cpp:21-277 | In every state of every run: health is 100 - 20 x hits since the last join, alive iff health > 0 iff no death announced; one death a life; consumed deaths followed by the pending ones are the whole death history, as many as players_dead_total; every live projectile has a present owner and hits + in flight <= shots; spawned = live + hits + expired + purged; ids are never reused and hit once, never their owner; at most six events a join; the log is the last 32 events. |
| Trajectories.CourseExtends | server/src/game/projectile.cpp:29-35 | Advancing by any delta along the unit direction is advancing the age by that delta in closed form. |
| Trajectories.WithinRange | server/src/game/projectile.cpp:12-42 | A unit direction at 30 m/s for less than 1.5 s stays within 45 m. |
| Trajectories.EveryCourse | server/src/game/game_session.cpp:199-247 | In every run every projectile is at spawn point + 30 x direction x age, however the time was cut into ticks, and every hit was at an age under 1.5 s and under 45 m from the spawn point. |
| LiveBound.EveryRestedRun | server/src/game/game_session.cpp:164-207 | In runs whose joins are rested (every shot of the joining id still in flight is at least 0.1 s old, as is always so for an absent id), spawn times of one player's projectiles are at least 0.1 s apart and the next shot will keep to that. |
| LiveBound.AbsentIsRested | server/src/game/game_session.cpp:44-52 | First joins, and joins after leaving, are always rested: nobody absent has a shot in flight. |
| LiveBound.AtMostFifteen | server/src/game/game_session.cpp:164-207 | Spawn times a cooldown apart inside a lifetime allow at most 15 projectiles of one player. |
| LiveBound.LiveProjectileBound | server/src/game/game_session.cpp:164-207 | So in every such run a player has at most 15 projectiles, all together at most 15 n, spaced by the cooldown, ages in [0, 1.5). |
| LiveBound.PairsPerTick | server/src/game/game_session.cpp:209-271 | And one more tick, in any order, examines at most 15 n (n - 1) pairs, and none with nobody present. |
| LiveBound.RestedIsExact | server/src/game/game_session.cpp:37-41 | The condition is exact: after any such run, one more join leaves the shots of every player a cooldown apart, whatever input follows at once, if and only if it is rested. |
| LiveBound.RejoiningLiftsTheBound | server/src/game/game_session.cpp:37-41 | Unrested joins lift the bound altogether: for every n a run with n projectiles of one player in the air at one instant. |
| MatchStats.MatchStatsCollector.Collect | server/src/stats/match_stats.cpp:52-128 | One line for each player in the session or named in a counted event or in the death, in id order, with counters from the session, damage and kills from the events up to the death's tick, and the two fix-ups. |
| ReportLines.ReportIsRead | server/src/stats/match_stats.cpp:52-128 | In counts of the log, for any session and death: winner and loser as in the death; a line for everybody in the session, in a counted event or in the death, ascending by id; shots, hits and deaths from the session; kills and damage from the events up to the death's tick; a winner without a kill is given one, and a death to whoever fell without one. |
| MatchStats.ReportIsUnique | server/src/stats/match_stats.cpp:52-128 | That description leaves only one report: hash order never shows. |
| ExactStats.DamageBalances | server/src/stats/match_stats.cpp:78-95 | Whatever the bounded log has dropped, damage dealt and damage taken of a report sum to the same. |
| ExactStats.AccuracyIsAFraction | server/src/stats/match_stats.cpp:36-41 | In a report on any reachable session nobody has more hits than shots, and accuracies are in [0, 1]. |
| ExactStats.LosslessLog | server/src/game/combat.cpp:30-38 | In every run at most six events a join are logged and the log is the last 32 of them; so with at most five joins the 32 slots have dropped nothing. |
| ExactReports.EveryRunCounts | server/src/game/game_session.cpp:199-276 | In every run, whoever joins, leaves and joins again: a present player's hits landed are the hits he dealt in the events since he entered, and his deaths those in them. |
| ExactReports.TakenSinceJoin | server/src/game/game_session.cpp:37-40 | Health is 100 less the damage in the events since the last join. |
| ExactReports.EveryBroadcast | server/src/network/websocket_server.cpp:282-331 | At the moment a broadcast reports, both players of every pending death are present and the death is among the events since they entered. |
| ExactReports.TrueExactly | server/src/stats/match_stats.cpp:57-95 | For one present player the log's damage, wounds, kills and deaths are those of his session counters if and only if the log is clean for him: nothing since his entry (for wounds, since his last join) has been dropped that counts, nothing from before is still held, and no death of his when he has had none. |
| ExactReports.ExactExactly | server/src/stats/match_stats.cpp:52-128 | In driver order, with any joins, leaves and rejoins and any log length, a report is exact (only present players listed; damage dealt 20 x hits landed, damage taken 100 - health, kills and deaths those since entry, no fix-up fired) if and only if the log is clean: it names present players only and is clean for each. |
| ExactReports.FirstIsHit | server/src/game/game_session.cpp:226-265 | The oldest event of every history is a hit, so what the log drops first is damage. |
| ExactReports.CleanIsComplete | server/src/game/combat.cpp:30-38 | Where each id joins once and nobody leaves, the log is clean if and only if at most 32 events have been logged. |
| Driver.WebSocketServer.BroadcastState | server/src/network/websocket_server.cpp:282-331 | Ticks, takes the deaths, and with a callback returns one collected report for each death in order, stamped in order; nothing without one. |
| Driver.KeyedOfRun | server/src/network/websocket_server.cpp:282-331 | In every reachable session players are filed under their own ids, which is what the handler needs of the session it drives. |
| Driver.BroadcastReportsAreExact | server/src/network/websocket_server.cpp:282-331 | End to end: a broadcast of any driven run reports each death of the tick exactly, winner and loser as in the death and damage balanced, if and only if the log is clean or there is nothing to report. |
| Driver.CalmReportsNeedOnlyCount | server/src/network/websocket_server.cpp:282-331 | Where each id joins once and nobody leaves, that is at most 32 events, as always with at most five joins. |
| Duels.LongRun | server/src/network/websocket_server.cpp:282-331 | For every n a driven run, each id joining once and nobody leaving, whose last death is reported after 6 (n + 1) events. |
| Duels.TooManyEvents | server/src/game/combat.cpp:30-38 | So the 32 slots are exceeded: a driven run with a death to report, of which no report can be exact. |
| Duels.LeaverSpoilsReport | server/src/game/game_session.cpp:44-52 | Nor with seven events, once a player has left who was hit: no report of the next death is exact. |
| MatchRequests.ToleranceFromSeconds | server/src/matchmaking/match_request.cpp:25-29 | The tolerance in whole nanosecond steps is the one the program computes from seconds: 100 plus 25 for each five seconds waited, truncated, never below 100. |
| MatchRequests.ReachesAfter | server/src/matchmaking/match_request.cpp:25-29 | A distance d is within tolerance if and only if ceil(max(0, d - 100) / 25) five-second steps have passed. |
| MatchRequests.AcceptableExactly | server/src/matchmaking/match_request.cpp:21-36 | Two requests can be paired if and only if the regions agree and both have waited those steps. |
| MatchRequests.EarlierIsPreferred | server/src/matchmaking/match_request.cpp:25-36 | Whoever takes y takes x as well, if x has y's rating and region and came no later. |
| MatchRequests.ResolveRegion | server/src/matchmaking/matchmaker.cpp:150-161 | The match's region is one of the two, and of compatible requests never overrides a specific one. |
| Greedy.Partition | server/src/matchmaking/matchmaker.cpp:50-96 | First-fit pairing splits the queue: as multisets, paired players and the rest are the queue. |
| Greedy.PairsAcceptable | server/src/matchmaking/matchmaker.cpp:69-72 | Every pair is acceptable. |
| Greedy.Maximal | server/src/matchmaking/matchmaker.cpp:50-96 | No two players left over are acceptable to each other. |
| Greedy.Idempotent | server/src/matchmaking/matchmaker.cpp:50-96 | A second pass over what is left pairs nobody. |
| Greedy.NoOvertaking | server/src/matchmaking/matchmaker.cpp:50-96 | If whoever takes y takes x and x stands before y, y is not paired while x is left. |
| PrunedScan.FindPartner | server/src/matchmaking/matchmaker.cpp:59-76 | The index scan with the used set and the rating break finds the first acceptable unused partner or tells that there is none at all. |
| PrunedScan.PairUp | server/src/matchmaking/matchmaker.cpp:77-84 | Marking both used is removing both from the list of first-fit. |
| PrunedScan.SetAside | server/src/matchmaking/matchmaker.cpp:77-79 | A candidate without partner is the one first-fit sets aside. |
| PrunedScan.LaterOutOfReach | server/src/matchmaking/matchmaker.cpp:73-75 | Beyond the break nobody is acceptable: the ratings ascend. |
| Matchmakers.Matchmaker.Enqueue | server/src/matchmaking/matchmaker.cpp:17-27 | The player's request is filed under the next order number, replacing an earlier one; order numbers stay distinct, and the accounting and the channel are as before. |
| Matchmakers.Matchmaker.Cancel | server/src/matchmaking/matchmaker.cpp:29-42 | Removes the player if queued, and says whether it was. |
| Matchmakers.Matchmaker.ObserveWait | server/src/matchmaking/matchmaker.cpp:134-148 | The wait is counted in the first bucket that holds it, else as overflow, and in the sum and the count. |
| Matchmakers.Matchmaker.RunMatching | server/src/matchmaking/matchmaker.cpp:44-111 | A pass returns exactly the matches of naive first-fit on the ordered queue, numbered on, leaves exactly the rest queued, observes both waits of each pair, and publishes what it returns; the wait count stays twice the matches, the histogram exact, and delivered followed by queued matches stay all matches ever returned. |
| Matchmakers.Matchmaker.MatchAll | server/src/matchmaking/matchmaker.cpp:50-96 | The scan with in-place removals and counters keeps step with first-fit. |
| Matchmakers.CumulativeBucket | server/src/matchmaking/matchmaker.cpp:121-126 | Each cumulative bucket is the number of waits within its bound. |
| Matchmakers.BucketsCoverWaits | server/src/matchmaking/matchmaker.cpp:121-130 | All buckets and the overflow are all waits. |
| Matchmakers.Matchmaker.Histogram | server/src/matchmaking/matchmaker.cpp:113-132 | So at any time the exported histogram is that of the waits observed, total included. |
| MatchTerms.AcceptableIsWelcome | server/src/matchmaking/match_request.cpp:25-36 | Two requests accept each other exactly when the regions agree or one is any, and the ratings differ by at most 100, and 25 more for every five seconds waited in full, for both. |
| MatchTerms.MatchesAreOnTerms | server/src/matchmaking/matchmaker.cpp:44-111 | Every match of a pass has the next number, two different queued players welcome to each other, their average rating with the half point dropped towards zero, the time of the pass and a region both play in; and exactly the two waits of each match, in seconds and in order, are observed. |
| MatchTerms.HistogramBySeconds | server/src/matchmaking/matchmaker.cpp:113-132 | The exported counts are those of the waits of at most 0, 5, 10, 20, 40 and 80 seconds, and with the overflow of all. |
| Stability.Stable | server/src/matchmaking/matchmaker.cpp:50-96 | Of any two in the ordered list who fit, first-fit pairs one with the other or with somebody ahead of the other. |
| Stability.OnlyStablePairing | server/src/matchmaking/matchmaker.cpp:50-96 | And it is the only pairing with that property: any set of fitting disjoint pairs that leaves no two such players undecided is the one first-fit makes. |
| Stability.NoBlockingPair | server/src/matchmaking/matchmaker.cpp:44-111 | So after a pass, of any two players queued before it who are welcome to each other, one plays the other or somebody ahead of the other, by rating and then order: nobody is passed over for a worse-placed partner. |
| MatchingGuarantees.MatchesAreFair | server/src/matchmaking/matchmaker.cpp:50-96 | Each match of a pass is between two different players queued before it who accept each other at `now`, and no player is in two matches. |
| MatchingGuarantees.NobodyLeftCouldPlay | server/src/matchmaking/matchmaker.cpp:44-99 | After a pass at `now` no two players left queued are acceptable to each other at `now`. |
| MatchingGuarantees.SecondRunChangesNothing | server/src/matchmaking/matchmaker.cpp:44-111 | A second pass at the same time returns nothing, observes no wait and leaves the queue as it is. |
| MatchingGuarantees.NobodyIsOvertaken | server/src/matchmaking/matchmaker.cpp:44-99 | Same rating and region, smaller order, enqueued no later: if x is still queued after a pass, so is y. |
| MatchingGuarantees.NobodyWaitsForever | server/src/matchmaking/matchmaker.cpp:57-85 | Two compatible players still queued after a pass: one of them has not yet waited 5 ceil(max(0, d - 100) / 25) seconds. |
| MatchingGuarantees.MatchedOrQueued | server/src/matchmaking/matchmaker.cpp:44-99 | Everybody queued before a pass is in one of its matches or still queued unchanged, never both. |
| MatchQueues.Erased | server/src/matchmaking/match_queue.cpp:13-23 | Erasing a node, and its bucket if emptied, leaves buckets and index agreeing on the queue without that player. |
| MatchQueues.Placed | server/src/matchmaking/match_queue.cpp:25-35 | Filing a new node leaves them agreeing on the queue with that player. |
| MatchQueues.InsertKeepsOrder | server/src/matchmaking/match_queue.cpp:26-34 | Inserting before the first larger order keeps a bucket in order and adds just that node. |
| MatchQueues.InMemoryMatchQueue.Upsert | server/src/matchmaking/match_queue.cpp:12-36 | Buckets and index go on representing one map from player to request and order, with this player's entry replaced. |
| MatchQueues.InMemoryMatchQueue.Remove | server/src/matchmaking/match_queue.cpp:38-54 | Removes the player's entry, true exactly if there was one; the missing-bucket branch is never reached. |
| MatchQueues.InMemoryMatchQueue.Size | server/src/matchmaking/match_queue.cpp:73-73 | The index size is the number of players queued. |
| MatchQueues.InMemoryMatchQueue.FetchOrdered | server/src/matchmaking/match_queue.cpp:56-71 | Lists each queued player once; with distinct orders the result is the unique list by rating and then order. |
| MatchQueues.InMemoryMatchQueue.Traverse | server/src/matchmaking/match_queue.cpp:58-63 | With distinct orders the bucket traversal is in that order already, before the sort. |
| MatchQueues.SortOfSorted | server/src/matchmaking/match_queue.cpp:64-69 | So the sort returns what it was given. |
| MatchQueues.OrderingUnique | server/src/matchmaking/match_queue.cpp:56-71 | There is only one such list. |
| Notifications.MatchNotificationChannel.Publish | server/src/matchmaking/match_notification_channel.cpp:5-8 | Delivered followed by queued stays all published, with the new match last. |
| Notifications.MatchNotificationChannel.Poll | server/src/matchmaking/match_notification_channel.cpp:10-18 | Delivers the oldest match; nothing exactly when the queue is empty. |
| Notifications.MatchNotificationChannel.Drain | server/src/matchmaking/match_notification_channel.cpp:20-28 | Delivers all that is queued, in order, and empties the queue. |
| Elo.Movement | server/src/stats/player_profile_service.cpp:10-21 | The winner's rating rises by 0 to 25 and the loser's falls by 0 to 25. |
| Elo.RateIsNearest | server/src/stats/player_profile_service.cpp:10-21 | Each new rating is within half a point of the old one plus 25 times the winner's expected shortfall, or minus 25 times the loser's expectation. |
| Elo.SumMoves | server/src/stats/player_profile_service.cpp:10-21 | What rounding does to the sum of the two ratings: +1 exactly when the gain is a half-integer and both unrounded results are non-negative, -1 when both are negative, otherwise nothing. |
| Elo.SelfMatch | server/src/stats/player_profile_service.cpp:50-55 | A player recorded against himself loses 12 points, or 13 below a rating of 13. |
| ProfileServices.PlayerProfileService.RecordMatch | server/src/stats/player_profile_service.cpp:33-63 | Every line is added to its player's aggregate, winner and loser are settled at the new ratings, the leaderboard is told, and the counters move by one match and two ratings; winner and loser may be one player. |
| ProfileServices.PlayerProfileService.TopProfiles | server/src/stats/player_profile_service.cpp:74-104 | Without a leaderboard the first of all profiles by rating and then id, whatever the hash order; with one, the profiles of its first entries. |
| ProfileServices.PlayerProfileService.AllProfiles | server/src/stats/player_profile_service.cpp:77-80 | Lists the profile of every aggregate exactly once, in no order that matters. |
| ProfileServices.SortIsRanking | server/src/stats/player_profile_service.cpp:81-87 | Sorting the profiles is ranking their ratings. |
| ProfileServices.PlayerProfileService.GetProfile | server/src/stats/player_profile_service.cpp:65-72 | The player's profile if known, else none. |
| Standings.OneMatchMoves | server/src/stats/player_profile_service.cpp:47-55 | One match moves the winner's rating to the nearest point of old + 25 (1 - E) and the loser's to that of old - 25 E, up and down by 0 to 25; against himself a player loses 12 or 13; nobody else's rating moves. |
| Standings.EveryStanding | server/src/stats/player_profile_service.cpp:33-63 | After any sequence of matches each player's wins are the results that name him as winner, and his losses those that name him as loser. |
| Standings.EveryRating | server/src/stats/player_profile_service.cpp:33-63 | And his rating is within 1200 - 25 x losses and 1200 + 25 x wins. |
| Standings.EveryTotal | server/src/stats/player_profile_service.cpp:36-45 | His matches are the lines about him, and his kills, deaths, shots, hits and damage both ways are the sums of what they report. |
| Standings.AccuracyIsHitsPerShot | server/src/stats/player_profile_service.cpp:23-28 | Accuracy times shots is hits, and accuracy is zero without shots. |
| RatingRuns.EveryMatchIsWonAndLost | server/src/stats/player_profile_service.cpp:33-63 | After any sequence of matches, wins and losses summed over all players both equal the matches recorded, and rating updates are twice that. |
| RatingRuns.ExcessAfterRecord | server/src/stats/player_profile_service.cpp:47-55 | One match moves the sum of (rating - 1200) over all players by exactly the rounding shift, new players included. |
| RatingRuns.RatingsDriftSlowly | server/src/stats/player_profile_service.cpp:33-63 | After any m matches the ratings sum to 1200 a player give or take one point a match, self-matches counted apart at 12 or 13 points down. |
| RatingRuns.BoardHoldsTheDecided | server/src/stats/player_profile_service.cpp:57-60 | After any sequence of matches the leaderboard holds exactly the players who have won or lost, each at the aggregate's rating. |
| RatingRuns.BoardMatchesSort | server/src/stats/player_profile_service.cpp:74-104 | So both branches of `TopProfiles` agree: the leaderboard's answer is the first of the sorted profiles restricted to those players. |
| RatingRuns.NobodyKillsHimself | server/src/game/game_session.cpp:251-263 | In a history where no projectile hits its owner, no death has the same shooter and target. |
| RatingRuns.CollectedIsSound | server/src/stats/match_stats.cpp:52-128 | A report collected from any reachable session has two different players, no more hits than shots, and balanced damage. |
| RatingRuns.CareersAreSound | server/src/stats/player_profile_service.cpp:33-63 | From simulation to profile: any sequence of reports collected from reachable sessions leaves every career accuracy in [0, 1], career damage dealt and taken summing to the same, and the ratings within one point a match of 1200 a player. |
| CareerTotals.CareerIsTheSum | server/src/stats/player_profile_service.cpp:36-45 | Every counter of a career is the sum of what the recorded lines reported, whatever the results. |
| CareerTotals.EveryCounterIsTrue | server/src/game/game_session.cpp:164-249 | In every run a present player's shots fired and hits landed are the projectiles he launched and the hits he landed since he entered. |
| CareerTotals.CareersCountSnapshots | server/src/stats/player_profile_service.cpp:36-45 | Reports are cumulative, so each adds the session's whole count again: after the reports of any reachable state a career's shots (and likewise its hits) equal those really fired since entry if and only if nothing had been recorded before and the player is reported once or has none. |
| Duels.CareersGoWrong | server/src/stats/player_profile_service.cpp:36-45 | Two broadcasts of one driven run with a death each: whatever they report, the shots recorded from them are not the shots fired. |
| Leaderboards.InMemoryLeaderboardStore.RemoveFromOrdered | server/src/stats/leaderboard_store.cpp:8-17 | Takes out just that id under just that score, and leaves no empty set. |
| Leaderboards.InMemoryLeaderboardStore.Upsert | server/src/stats/leaderboard_store.cpp:19-29 | The two indexes go on holding the same pairs, with this player at the new score. |
| Leaderboards.InMemoryLeaderboardStore.Erase | server/src/stats/leaderboard_store.cpp:31-38 | The same without this player; nothing changes for an unknown one. |
| Leaderboards.InMemoryLeaderboardStore.TopN | server/src/stats/leaderboard_store.cpp:40-57 | The nested traversal with its running limit returns the first n entries of the ranking by score descending and id ascending. |
| Standings.TopIsBest | server/src/stats/leaderboard_store.cpp:40-57 | The first n: as many as there are, each at his score, higher scores first and of equals the smaller id; nobody left out has a higher score than anybody listed, nor an equal one with a smaller id. |
| Leaderboards.ListingStartsRanking | server/src/stats/leaderboard_store.cpp:44-55 | What has been listed after any number of scores is where the ranking starts. |
| Leaderboards.RankingUnique | server/src/stats/leaderboard_store.cpp:40-57 | There is only one ranking of a set of scores. |
| GameLoops.HandshakeStep | server/src/core/game_loop.cpp:17-40 | Every step of either thread keeps the running flag in step with the thread's life, and at most one callback beginning under a set stop flag. |
| LoopTimings.StartBegins | server/src/core/game_loop.cpp:17-29 | `Start` on a stopped loop brings up a fresh thread with the flag down and the metrics cleared; on a running one it does nothing. |
| GameLoops.StopTakesEffect | server/src/core/game_loop.cpp:91-97 | A loop that sees the stop flag is never blocked, and each of its steps brings its end nearer: eight at most. |
| LoopTimings.JoinMakesRoom | server/src/core/game_loop.cpp:42-46 | `Join` returns once the loop has ended and said so, changes nothing else, and then `Start` may make another thread. |
| LoopTimings.StopEndsTheLoop | server/src/core/game_loop.cpp:31-40 | `Stop` on a running loop: whatever happens until it has the mutex and whatever happens afterwards, the flag is set and the loop has ended, and says so, before its eighth step from then on. |
| GameLoops.KeepsNewest | server/src/core/game_loop.cpp:116-122 | Pushing a duration and dropping the oldest beyond the limit keeps the newest of all durations, whatever the limit. |
| GameLoops.DueSettles | server/src/core/game_loop.cpp:125-131 | After a wait or a rebase the deadline is no earlier than the schedule counted from every frame so far, the newest included. |
| GameLoops.PacedStep | server/src/core/game_loop.cpp:88-133 | Every step of either thread and every passage of time keeps the pacing invariant. |
| GameLoops.EverySchedule | server/src/core/game_loop.cpp:17-133 | All of that in every interleaving. |
| GameLoops.SchedulerGuarantee | server/src/core/game_loop.cpp:17-133 | In every interleaving: ticks are numbered from 0; tick k >= 1 starts no earlier than loop start + (k + 1) periods, overruns or not; ticks j < k are at least (k - j - 1) periods apart, so there is no catch-up burst; each duration is the distance from the tick before; at most one callback begins after `Stop` sets the flag, and the flag is never set during one; the kept durations are the last 240. |
| LoopTimings.EveryPromptSchedule | server/src/core/game_loop.cpp:88-133 | In every schedule in which, while the loop lives, time passes only in waits up to their end and in callbacks, tick 0 starts with the loop and each later tick exactly at its deadline, one period after the tick before (two after the first), or as soon as the callback has returned if that is later. |
| LoopTimings.TicksAreOnTime | server/src/core/game_loop.cpp:88-133 | So while no callback overruns, tick k >= 1 starts exactly at loop start + (k + 1) periods: the loop does not drift. |

## Left out

- Facing angle: `facing_radians` and `atan2` influence nothing else in the session and are not modelled.
- Rounding of floating-point arithmetic and overflow of machine integers, counters included.
- The logistic curve itself: no property here depends on more than symmetry and range.
- Values in containers: `HealthComponent`, `Projectile` and the per-player runtime record are stored by value in the
  program's containers and are values here, written back on change; the classes are the objects that own them. The
  references `RecordMatch` holds into its map are modelled as writes by key, the case of one player in both roles
  included.
- GameLoop: modelled as a state machine on values, one step for each atomic section, because its point is interleaving;
  there is no class for it. The callback is always set and returns; `SetUpdateCallback`, `CurrentTickRate` and the
  destructor are not modelled, nor a controller that starts again without joining.
- List iterators in the queue's index are node handles, and the ordered containers' tree shapes are not modelled.
- Projectile and match ids are numbers, or the parts their text is made of, not the text.
- The match-created callback is not modelled, and passes are sequential, so that publication order is pass order.
- Driver.WebSocketServer.BroadcastState: the state and death messages it sends to the connected clients are not modelled.
- `GetPlayer`, `ActiveProjectileCount` and the text of all metrics snapshots, JSON and console output: plumbing.
- Networking: sessions, accept and write pumps, input parsing, and client registration.
- Storage and stubs: Postgres, the Redis queue and leaderboard, configuration, `main` and the Python client.
