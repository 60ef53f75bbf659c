# SahuCodeX: proofs about the judge, the API and the seed catalogue

SahuCodeX is a programming-contest site. This project models, in Dafny 4.11, the parts of it whose correctness is not
visible from reading one function, and proves what they promise for every input and every run.

**Reference solutions of the catalogue.** The hidden expected outputs of the seed problems are produced by running the
reference solutions, so a wrong one would mis-grade every submission. Twelve of them are modelled in the form the source
gives them (loops over mutable lists, queues, heaps, a recursion that fills a shared list) and proved to return what the
problem statement asks for: `CheapestNetwork` (on `UnionFind`), `CheapestRoute` and `SteadyMedian` (on `MinHeap`),
`QueensStandoff` (on `PythonBits`), `SteadyClimb`, `WordMorph`, `PeakWindow`, `LevelSums`, `MaxBookings`, `MazeRunner`,
`ParenForge` and `TicketCounter`. What a statement asks for is always defined on its own (walks, selections, edit
sequences, arrangements, a grammar, a queue of people), never by the recurrence or the greedy choice of the solution.
`PythonSorted` is the stable `sorted` with a tuple key, `SetFacts` holds sums and sizes of finite sets.

**The life of a submission.** `SubmissionStore` has the tables and the committed transactions, as functions and as a
class whose methods write the fields. `SubmissionProtocol` lets workers, redelivered messages, the reaper, a failing queue
and exceptions interleave in every way and proves what holds at every moment of every run. `Upserts` splits the
UPDATE / INSERT / fallback UPDATE of the judge's upserts into single statements of any number of callers and proves that
every interleaving equals the calls made in turn; `ProgressUpserts` and `Streaks` say what that means for progress rows
and streaks.

**From the child process to the verdict.** `Supervisor` is the capture under a cap, the decision when to kill, and the
classification; `Json` a reader of RFC 8259 texts and the compact writer of the header; `Reply` the framing of header and raw
bytes and its parsing; `Checkers` the three output checkers with the Python string methods they use; `Engine` the mapping of
one run, the order of the tests and the loop over them. `Engine.AcceptedIff` and `Engine.VerdictIff` tie all of these together.

**Sessions, rate limits, standings.** `SessionStore` and `SessionFamilies` are refresh-token families with rotation, a grace
period, revocation and the access-token denylist, and `SessionLifetimes` says from when to when a token works; `RateLimiter` is the sliding window whose rejection has two phases;
`Standings` is the grouped pass over a contest's submissions.

Classes stand for the objects and tables the source updates in place; each of their methods is specified by a function on
the old contents, and the theorems are about those functions. Assumptions are written where they are used: `RateLimiter` and
`SessionFamilies` take a clock that does not go back and ids that are new, `Streaks.StreakIsRun` takes days in order.

## Where the documentation and the code differ

The model follows the code. In these places a documented promise is not kept for all inputs; the named lemmas give the
exact condition and an input or a run that shows it.

- `apps/api/app/core/rate_limit.py:34-35` says a blocked client is let in again exactly `window` seconds after its *last*
  allowed request. It is the *oldest* one in the window: `RateLimiter.RetryAdmitted`. The comment is right iff the oldest and
  the newest were made at the same moment: `RateLimiter.DocumentedRetry`, `RateLimiter.DocumentedRetryFails`.
- `apps/judge/sahujudge/pipeline.py:210` says a submission closed by `_fail` does not count as an attempt. It does exactly
  when the exception came after the commit of its job: `SubmissionProtocol.FailCountsIffCommitted`. The row need not be
  COMPLETED by then: `SubmissionProtocol.FailedBeforeFailCounts` is a run in which it is FAILED already.
- A terminal status is not final. When it can still change is `SubmissionProtocol.TerminalMovesIff`; two runs in which it does
  are `SubmissionProtocol.TerminalIsNotFinal`.
- `apps/api/app/modules/contests/service.py:249-254` says someone who solved nothing never outranks a solver. That is true
  iff every problem of the contest is worth points: `Standings.SolversFirstIffPoints`, `Standings.WorthlessSolution`.
- `apps/judge/sahujudge/checkers.py:37-40` says trailing white space on a line is ignored. White space put between `\r` and
  `\n` makes a line of its own; `Checkers.TrailingSpaceIsAccepted` has the exact condition, `Checkers.TornPairIsRejected` two
  texts.
- `apps/judge/sahujudge/engine.py:14-15` says only verdict, runtime and memory of a hidden test are kept. The report's own
  message also depends on how a hidden test ended, exactly if that test is the first failure and a run-time error:
  `Engine.MessageDependsIff`; `Engine.HiddenMessageWitness` has two exit codes.
- `apps/api/app/modules/profiles/service.py:27-30` presents the streak update as safe under concurrency. No call is lost, but
  the row stands for the days written so far at every moment exactly if they are written in order:
  `Streaks.StandsIffInOrder`, and for a single call `Streaks.NextDay`. `Streaks.OrderOfDaysMatters` is a schedule of two workers
  around midnight after which the row has forgotten a run.

## Model

| member | source | states |
|---|---|---|
| UnionFind.Forest.Find | database/seeds/catalog/hard.py:427-431 | `find` ends, returns the representative of the class, and path halving leaves the partition as it was |
| UnionFind.Forest.Link | database/seeds/catalog/hard.py:437 | one assignment to `parent` merges exactly the two classes |
| UnionFind.Forest.Union | database/seeds/catalog/hard.py:435-437 | reports whether the ends were apart, and merges their classes |
| CheapestNetwork.Solve | database/seeds/catalog/hard.py:421-440 | the result is the least total cost of any choice of routes that connects all houses, and -1 exactly when no choice does |
| CheapestNetwork.KruskalOptimal | database/seeds/catalog/hard.py:433-440 | having n-1 routes means exactly that some choice connects all houses, and then no connecting choice is cheaper |
| CheapestNetwork.ConnectingNeedsTail | database/seeds/catalog/hard.py:434-440 | the cut bound: any connecting choice needs as many of the later routes as there are classes left to join |
| CheapestNetwork.TailsDominate | database/seeds/catalog/hard.py:424 | the exchange argument: having more members in every tail of the cost order means costing more |
| CheapestNetwork.TakenReaches | database/seeds/catalog/hard.py:435-439 | houses in one class can be reached from each other over the routes taken |
| CheapestNetwork.WalkStaysInClass | database/seeds/catalog/hard.py:435-437 | no walk over chosen routes leaves a class that keeps their ends together |
| CheapestNetwork.TakenFrom | database/seeds/catalog/hard.py:436-439 | the routes taken from any position on account for the classes lost from there on |
| MinHeap.Heap.Push | database/seeds/catalog/hard.py:173 | `heappush` adds one entry to the bag |
| MinHeap.Heap.Pop | database/seeds/catalog/hard.py:165 | `heappop` removes an entry that is least as a tuple |
| CheapestRoute.Solve | database/seeds/catalog/hard.py:153-174 | the minimum cost over all directed walks from 1 to n, and -1 exactly when there is none; it ends despite stale entries |
| CheapestRoute.BuildGraph | database/seeds/catalog/hard.py:156-160 | the adjacency lists hold exactly the roads of each depot |
| CheapestRoute.Expand | database/seeds/catalog/hard.py:170-173 | expanding a depot relaxes all its roads and keeps the search sound |
| CheapestRoute.RelaxKeeps | database/seeds/catalog/hard.py:171-173 | pushing a better distance keeps every distance the cost of a real walk |
| CheapestRoute.StaleKeeps | database/seeds/catalog/hard.py:168-169 | skipping a stale entry loses nothing |
| CheapestRoute.FreshKeeps | database/seeds/catalog/hard.py:166-170 | a current entry belongs to a depot never expanded before, which bounds the loop |
| CheapestRoute.WalkBound | database/seeds/catalog/hard.py:164-173 | every walk ends in an expanded depot at no less than its distance, or costs at least the floor of the heap |
| CheapestRoute.Exhausted | database/seeds/catalog/hard.py:164-174 | with an empty heap every reachable depot has been expanded |
| QueensStandoff.Solve | database/seeds/catalog/hard.py:235-250 | the number of sets of n squares of an n by n board no two of which share a row, a column or a diagonal |
| QueensStandoff.Place | database/seeds/catalog/hard.py:239-248 | a call returns the number of ways to complete its board; recursion and lowest-bit loop end |
| QueensStandoff.MasksNext | database/seeds/catalog/hard.py:247 | the shifted masks are the attacked squares of the next row |
| QueensStandoff.FreeIsSafe | database/seeds/catalog/hard.py:242 | a column is free in all three masks exactly when a queen there is attacked by none |
| QueensStandoff.FullMask | database/seeds/catalog/hard.py:240-241 | the column mask is full exactly when every row has its queen |
| QueensStandoff.TryColumn | database/seeds/catalog/hard.py:243-248 | each column tried adds the completions of the longer board, without overlap |
| QueensStandoff.BoardsAreArrangements | database/seeds/catalog/hard.py:258-263 | boards by rows and sets of squares are the same arrangements, so counting one counts the other |
| QueensStandoff.ArrangementIsBoard | database/seeds/catalog/hard.py:258-263 | an arrangement of n queens has exactly one in every row |
| SteadyClimb.Solve | database/seeds/catalog/hard.py:501-511 | the length of a longest strictly increasing selection |
| SteadyClimb.BisectLeft | database/seeds/catalog/hard.py:506 | the binary search finds the first place not below the value |
| SteadyClimb.NextTails | database/seeds/catalog/hard.py:505-510 | `tails[j]` stays the least possible last value of an increasing selection of length j+1 |
| SteadyClimb.NextLeast | database/seeds/catalog/hard.py:505-510 | no increasing selection over the prefix ends below its place in `tails` |
| SteadyClimb.TailsAreLongest | database/seeds/catalog/hard.py:511 | the number of tails is attained by a selection and exceeded by none |
| SteadyClimb.ClimbIsSteady | database/seeds/catalog/hard.py:537-541 | a climb told backwards is the statement's strictly increasing selection |
| WordMorph.Solve | database/seeds/catalog/hard.py:85-95 | the rolling two-row table gives the length of a shortest sequence of inserts, deletes and replacements |
| WordMorph.DistanceIsLeast | database/seeds/catalog/hard.py:125-129 | the recurrence is attained by an edit sequence and beaten by none |
| WordMorph.OneEdit | database/seeds/catalog/hard.py:126-129 | any single edit anywhere in the word changes the distance by one at most |
| WordMorph.NoShorter | database/seeds/catalog/hard.py:126-129 | no edit sequence is shorter than the distance |
| WordMorph.AsShort | database/seeds/catalog/hard.py:92-94 | some edit sequence has exactly that length |
| PeakWindow.Solve | database/seeds/catalog/hard.py:15-29 | entry s is a largest reading of the k readings from s on, for all n-k+1 windows |
| PeakWindow.Advance | database/seeds/catalog/hard.py:21-26 | after each reading the deque is decreasing, inside the window, and covers every position of it |
| PeakWindow.FrontIsPeak | database/seeds/catalog/hard.py:27-28 | the front of a covering decreasing deque is a maximum of the window |
| PeakWindow.PopSmaller | database/seeds/catalog/hard.py:22-23 | dropping a candidate that is not larger than the new reading uncovers nothing |
| SteadyMedian.Solve | database/seeds/catalog/hard.py:352-368 | after k readings the output is the ceiling(k/2)-th smallest of them |
| SteadyMedian.Receive | database/seeds/catalog/hard.py:359-366 | one reading and at most one move keep the halves ordered, balanced and complete |
| SteadyMedian.NthIsUnique | database/seeds/catalog/hard.py:396-397 | there is only one j-th smallest reading, so the median asked for is well defined |
| SteadyMedian.MoveUp | database/seeds/catalog/hard.py:363-364 | moving the largest of the lower half over keeps the halves ordered |
| LevelSums.Serialize | database/seeds/catalog/medium.py:182-193 | the queue walk lists the tree level by level with nulls, and the trailing nulls are dropped |
| LevelSums.SerializedIsRows | database/seeds/catalog/medium.py:182-193 | the tokens are the levels from the root down, each from left to right, less the trailing nulls |
| LevelSums.ReadLevel | database/seeds/catalog/medium.py:151-158 | reading two tokens for each node of a level takes exactly its children |
| LevelSums.Solve | database/seeds/catalog/medium.py:142-160 | on the tokens of any tree the result is the list of its per-depth sums |
| LevelSums.RoundTrip | database/seeds/catalog/medium.py:182-193 | serializing any tree and streaming over the tokens gives the sum of every depth |
| LevelSums.ListingByLevel | database/seeds/catalog/medium.py:183-190 | a queue listing is the level's marks followed by the listing of the children |
| LevelSums.StreamIsLevelwise | database/seeds/catalog/medium.py:149-159 | streaming over a listing, with or without its trailing nulls, sums level by level |
| LevelSums.SideBySide | database/seeds/catalog/medium.py:218-219 | level sums of two forests side by side add up depth by depth |
| LevelSums.LevelwiseIsByDepth | database/seeds/catalog/medium.py:218-219 | level-wise sums of a tree are its sums by depth |
| MaxBookings.Solve | database/seeds/catalog/medium.py:587-597 | the largest number of requests that can be accepted without a clash |
| MaxBookings.UsesNext | database/seeds/catalog/medium.py:592-596 | the exchange argument for any selection that uses the next request by end |
| MaxBookings.AheadNext | database/seeds/catalog/medium.py:592-596 | the greedy selection stays ahead of every other one, in number and in the moment it is free |
| MazeRunner.Solve | database/seeds/catalog/medium.py:325-347 | the fewest steps of any wall-free path from S to E, and -1 exactly when there is none |
| MazeRunner.Locate | database/seeds/catalog/medium.py:329-334 | the scan finds S and E |
| MazeRunner.Discover | database/seeds/catalog/medium.py:341-346 | a newly found cell keeps the queue sorted by distance and within two consecutive values |
| MazeRunner.PathBound | database/seeds/catalog/medium.py:337-346 | every path ends in a settled cell at no less than its distance, or is at least as long as the front is away |
| MazeRunner.Exhausted | database/seeds/catalog/medium.py:337-347 | with an empty queue there is no path to E |
| ParenForge.Solve | database/seeds/catalog/medium.py:537-551 | exactly the well-formed chains of n pairs, each once, in alphabetical order |
| ParenForge.Forge.Build | database/seeds/catalog/medium.py:541-548 | a call appends its endings behind what has been built, after everything appended before |
| ParenForge.WellFormedIff | database/seeds/catalog/medium.py:559-563 | never closing more than is open and ending with nothing open is the bracket grammar |
| ParenForge.EndingsAre | database/seeds/catalog/medium.py:542-548 | the two counters lead to every ending that closes what is open, and to no other |
| ParenForge.EndingsSorted | database/seeds/catalog/medium.py:545-548 | trying the opening bracket first lists the endings in alphabetical order, without repetition |
| TicketCounter.Solve | database/seeds/catalog/easy.py:655-663 | the number of sales of the rotating queue up to person k's last ticket |
| TicketCounter.SalesAreClosedForm | database/seeds/catalog/easy.py:689-694 | for every line and every person in it the queue takes as many sales as the closed form says |
| TicketCounter.FrontGoesBehind | database/seeds/catalog/easy.py:691-693 | a sale to somebody in front lowers the closed form by one when they go to the back |
| SubmissionStore.Database.Insert | apps/api/app/modules/submissions/service.py:142-152 | the row is there, QUEUED, before anything is enqueued |
| SubmissionStore.Database.Claim | apps/judge/sahujudge/pipeline.py:104-112 | QUEUED becomes RUNNING and the call succeeds, or nothing changes and it does not |
| SubmissionStore.Database.Fail | apps/judge/sahujudge/pipeline.py:209-217 | FAILED and SYSTEM_ERROR whatever the status was |
| SubmissionStore.Database.SelectStale | apps/judge/sahujudge/reaper.py:26-35 | selects exactly the rows that are QUEUED or RUNNING and older than the horizon; sweeping them at once leaves nothing stale |
| SubmissionStore.Database.Sweep | apps/judge/sahujudge/reaper.py:38-43 | of the selected rows those still open become FAILED |
| SubmissionStore.Database.Persist | apps/judge/sahujudge/pipeline.py:152-204 | row, problem counters, the user's progress and the user's streak move together in one transaction |
| SubmissionStore.Database.RecordStreak | apps/api/app/modules/profiles/service.py:26-49 | the user's streak row after one more accepted submission, whether there was one or not |
| SubmissionStore.SameDayIff | apps/api/app/modules/profiles/service.py:31-32 | two moments have the same day exactly if no midnight (a multiple of 86,400 seconds) lies between them |
| SubmissionStore.Database.RecordProgress | apps/judge/sahujudge/pipeline.py:115-140 | one attempt more, never a downgrade, the first solution's time kept |
| SubmissionProtocol.ReachableInv | apps/judge/sahujudge/pipeline.py:104-217 | the invariant of jobs, commits, verdicts, counters and progress holds at every moment of every interleaving |
| SubmissionProtocol.CountersExact | apps/judge/sahujudge/pipeline.py:185-193 | nothing is claimed or persisted twice; the counters of a problem are the numbers of its persisted and accepted submissions, and all users' attempts add up to the former |
| SubmissionProtocol.StatusExact | apps/judge/sahujudge/pipeline.py:153-161 | a verdict is there iff COMPLETED or FAILED, SYSTEM_ERROR iff FAILED; COMPLETED was counted, open was not; solved iff an accepted commit, at the time of the first |
| SubmissionProtocol.FailCountsIffCommitted | apps/judge/sahujudge/pipeline.py:209-217 | for every call of `_fail` in every run: the submission is counted exactly if the job had committed |
| SubmissionProtocol.FailedBeforeFailCounts | apps/judge/sahujudge/pipeline.py:209-217 | a reachable run in which `_fail` finds the row FAILED and the submission stays counted |
| SubmissionProtocol.TerminalMovesIff | apps/judge/sahujudge/pipeline.py:153-217 | in every run: some step can still change a terminal status exactly if the row is FAILED and its job has not committed, or it is COMPLETED and its job has not ended or its request still waits for the queue |
| SubmissionProtocol.TerminalIsNotFinal | apps/judge/sahujudge/pipeline.py:204-217 | two reachable runs that show it: FAILED becomes COMPLETED, and COMPLETED becomes FAILED and stays counted |
| SubmissionProtocol.SelectedAreClosed | apps/judge/sahujudge/reaper.py:29-43 | whatever happens between the reaper's two statements, no selected row is left open, and no row judged meanwhile or not selected is touched |
| SubmissionProtocol.SweepExact | apps/judge/sahujudge/reaper.py:28-43 | over a whole run between its two statements a sweep changes exactly the rows open and older than the horizon at the first and still open at the second, to FAILED and SYSTEM_ERROR |
| SubmissionProtocol.SweepLeaves | apps/judge/sahujudge/reaper.py:26-43 | after it nothing is open that was open and too old at the first statement, and rows created at the horizon or later are untouched |
| SubmissionProtocol.StreakExact | apps/judge/sahujudge/pipeline.py:194-195 | in every run a user has a streak iff a commit of theirs was ACCEPTED, and if those commits came in order of days it is the run that ends with the last of them, and the longest run ever |
| SubmissionProtocol.RowsMove | apps/judge/sahujudge/reaper.py:25-43 | how any single step can change a row |
| SubmissionProtocol.RowMovesOnly | apps/judge/sahujudge/pipeline.py:104-112 | a row changes only when it is given up (and then it is FAILED and SYSTEM_ERROR), judged, or taken out of the queue |
| SubmissionProtocol.CreatedStays | apps/api/app/modules/submissions/service.py:142-152 | in every run a submission keeps the user, the problem and the moment it was created with |
| SubmissionProtocol.PersistProgress | apps/judge/sahujudge/pipeline.py:193 | one more commit moves a progress row the way the list of commits says |
| SubmissionProtocol.LastAttemptExact | apps/judge/sahujudge/pipeline.py:118 | at every moment of every run `last_attempt_at` is the moment of the last commit of the user on the problem |
| Upserts.EveryRunIsSerial | apps/judge/sahujudge/pipeline.py:124-140 | in every interleaving of the single statements the row is as if the finished calls had been made in turn, and no call finishes without having written |
| Upserts.NoCallIsLost | apps/judge/sahujudge/pipeline.py:116 | when all callers have finished every call has been made exactly once, in some order |
| Upserts.StepAdvances | apps/judge/sahujudge/pipeline.py:124-140 | every statement brings its caller nearer to the end and leaves the others alone |
| Upserts.OrderHasAll | apps/judge/sahujudge/pipeline.py:116 | an order of n different callers leaves nobody out |
| ProgressUpserts.ConcurrentAttempts | apps/judge/sahujudge/pipeline.py:115-140 | for any number of workers: the attempts are counted in full, solved iff one was accepted, and the time is that of the first accepted one |
| ProgressUpserts.NothingIsTakenBack | apps/judge/sahujudge/pipeline.py:119-121 | no statement lowers the attempts, downgrades SOLVED or overwrites `first_solved_at` |
| ProgressUpserts.AloneIsProgressed | apps/judge/sahujudge/pipeline.py:115-140 | without interference the three statements are the one-step upsert of the persist transaction |
| ProgressUpserts.InTurnRecords | apps/judge/sahujudge/pipeline.py:118-121 | what a list of attempts leaves in the row |
| Streaks.StreakTable.UpdateRow | apps/api/app/modules/profiles/service.py:33-40 | the CASE expressions applied to the row, if there is one |
| Streaks.StreakTable.RecordStreak | apps/api/app/modules/profiles/service.py:26-49 | with rivals writing between UPDATE and INSERT the row is as after the rivals and then this call |
| Streaks.StreakIsRun | apps/api/app/modules/profiles/service.py:31-38 | for days in order `current_streak` is the length of the run that ends on the last active day and `longest_streak` that of the longest run ever |
| Streaks.SameDayIsNoOp | apps/api/app/modules/profiles/service.py:27-28 | a second accepted submission on one day changes nothing |
| Streaks.ConcurrentDays | apps/api/app/modules/profiles/service.py:39-49 | interleaved workers lose no day, and the row stands for all of them if they came in order |
| Streaks.NextDay | apps/api/app/modules/profiles/service.py:33-38 | one more call keeps the row standing for its days exactly if the day is not before the last one |
| Streaks.StandsAlwaysIff | apps/api/app/modules/profiles/service.py:33-38 | calls in turn: the row stands for its days after every call exactly if they come in order |
| Streaks.StandsIffInOrder | apps/api/app/modules/profiles/service.py:26-49 | for every schedule of statements: the row stands for the days written so far at every moment exactly if they are written in order |
| Streaks.OrderOfDaysMatters | apps/api/app/modules/profiles/service.py:39-49 | a schedule of two workers around midnight after which the row stands for neither |
| SessionStore.AuthService.Refresh | apps/api/app/modules/auth/service.py:132-161 | the whole new state and the outcome of a refresh, for each of its branches; what they mean over runs is `RefreshWorksIff`, `ReplayAfterRefresh`, `UnavailableEnds` and `OthersRefused` |
| SessionStore.AuthService.HandleRevokedToken | apps/api/app/modules/auth/service.py:163-182 | not rotated, within the grace period, or reuse: the outcome and the new state |
| SessionStore.AuthService.Issue | apps/api/app/modules/auth/service.py:285-304 | a new live token at the end of the family and a new access token |
| SessionStore.AuthService.Revoke | apps/api/app/modules/auth/service.py:335-340 | only the live tokens of the family are revoked |
| SessionStore.AuthService.RevokeAllSessions | apps/api/app/modules/auth/service.py:342-355 | all live tokens of the user are revoked, and their families returned |
| SessionStore.AuthService.DenyAccessTokens | apps/api/app/modules/auth/service.py:357-366 | a denylist entry that outlives every access token of the family issued so far |
| SessionFamilies.DenialsKeep | apps/api/app/modules/auth/service.py:357-366 | in every run each denylist entry outlives every access token of its family, and denied or pending families are dead |
| SessionStore.AuthService.Logout | apps/api/app/modules/auth/service.py:184-194 | the family of the token is revoked; an unknown token changes nothing |
| SessionStore.AuthService.RevokeSession | apps/api/app/modules/auth/service.py:208-222 | only the owner's family is revoked |
| SessionFamilies.ReachableInv | apps/api/app/modules/auth/service.py:132-222 | families are chains, denials outlive tokens and pending families are dead, in every run |
| SessionFamilies.OneLiveToken | apps/api/app/modules/auth/service.py:153-160 | a family's tokens form one chain in the order of issue, with at most one live token |
| SessionFamilies.DeadForever | apps/api/app/modules/auth/service.py:335-340 | a family without a live token never gains one, nor an access token, and its tokens never change again |
| SessionFamilies.ReplayOfRotated | apps/api/app/modules/auth/service.py:163-182 | replaying a rotated token changes nothing within the grace period after its revocation and kills the family after it; `ReplayAfterRefresh` ties the period to the moment of the refresh |
| SessionFamilies.RefreshOnlyOnce | apps/api/app/modules/auth/service.py:132-161 | a refresh token that was accepted is never accepted again |
| SessionFamilies.DeniedForever | apps/api/app/modules/auth/service.py:54-55 | once the denylist write of a family is done none of its access tokens is ever accepted again |
| SessionFamilies.RotateChain | apps/api/app/modules/auth/service.py:153-159 | rotation replaces the live end of the chain by a new one |
| SessionFamilies.RevokeAllKills | apps/api/app/modules/auth/service.py:277-280 | resetting a password leaves none of the user's families with a live token |
| SessionLifetimes.RefreshWorksIff | apps/api/app/modules/auth/service.py:132-161 | over every run, a refresh token works from its issue until `refreshLife` seconds later, exactly if it is not revoked and the account is available; one that ran out is EXPIRED and changes nothing |
| SessionLifetimes.ReplayAfterRefresh | apps/api/app/modules/auth/service.py:157-182 | over every run, replaying a token changes nothing up to `grace` seconds after the moment it was refreshed, and after that ends its family |
| SessionLifetimes.AccessAcceptedIff | apps/api/app/modules/auth/deps.py:34-46 | over every run, an access token is accepted exactly while it is not expired and no denylist write of its family has been done since |
| SessionLifetimes.LogoutEnds | apps/api/app/modules/auth/service.py:184-194 | logging out leaves the family dead and its denylist write pending, and every other family as it was; an unknown token changes nothing |
| SessionLifetimes.RevokeSessionEnds | apps/api/app/modules/auth/service.py:208-222 | the same for ending a session, exactly if some token of the family is owned by the user; otherwise SESSION_NOT_FOUND and no change |
| SessionLifetimes.UnavailableEnds | apps/api/app/modules/auth/service.py:146-151 | a refresh that would have worked ends the family if the account is not available |
| SessionLifetimes.ResetEnds | apps/api/app/modules/auth/service.py:271-281 | a password reset revokes every live token of the user, leaves all other tokens as they were, and asks for the denylist writes of just those families |
| SessionLifetimes.OthersRefused | apps/api/app/modules/auth/service.py:137-165 | unknown tokens and revoked ones without a successor are REFRESH_TOKEN_INVALID and change nothing |
| RateLimiter.NeverTooMany | apps/api/app/core/rate_limit.py:42-50 | however transactions and late removals interleave, no window holds more than `limit` admitted hits |
| RateLimiter.AdmitSpreads | apps/api/app/core/rate_limit.py:48-49 | an admitted hit is a whole window after the one `limit` admissions before it |
| RateLimiter.StepKeeps | apps/api/app/core/rate_limit.py:42-50 | each transaction and each late removal keeps every recent admission in the set |
| RateLimiter.AdmittedIff | apps/api/app/core/rate_limit.py:42-50 | in every run without lost removals, a hit with no removal outstanding is admitted exactly if fewer than `limit` hits were admitted in the last `window` seconds |
| RateLimiter.Limiter.Hit | apps/api/app/core/rate_limit.py:33-53 | one at a time: when a hit is admitted, the set it leaves, and that `retry_after` is the least wait after which a retry is admitted; a limit of zero admits nothing and answers the window |
| RateLimiter.WaitForOldest | apps/api/app/core/rate_limit.py:52-53 | the rounded distance to the oldest entry is at least one second and the least sufficient whole number |
| RateLimiter.RetryAdmitted | apps/api/app/core/rate_limit.py:43-49 | with a full window a hit is admitted exactly from the moment the oldest entry leaves it |
| RateLimiter.DocumentedRetry | apps/api/app/core/rate_limit.py:34-35 | the documented moment is right iff the oldest and the newest entry are equally old |
| RateLimiter.DocumentedRetryFails | apps/api/app/core/rate_limit.py:34-35 | two per minute: access is back at 60, not at 70 |
| Standings.ComputeStandings | apps/api/app/modules/contests/service.py:216-296 | the table: every participant once, ranked 1 to n in the sorted order; its cells and totals are read off the rows by `SolvedCellIsDirect`, `UnsolvedCellIsDirect`, `RowIsSums` and `LastIsGreatest` |
| Standings.Group | apps/api/app/modules/contests/service.py:239-247 | each pair's list holds exactly its scored attempts in order |
| Standings.ScorePair | apps/api/app/modules/contests/service.py:264-271 | the scan of a pair's attempts |
| Standings.ScoreParticipant | apps/api/app/modules/contests/service.py:258-281 | the loop over the problems gives the totals and cells that those four lemmas describe |
| Standings.ScoreIsDirect | apps/api/app/modules/contests/service.py:264-271 | the score is the first accepted row of the pair and the number of counted misses before it |
| Standings.SolvedCellIsDirect | apps/api/app/modules/contests/service.py:272-275 | solved in row k, m whole minutes after the start: the cell shows the misses before k and a penalty of m plus the misses times the penalty minutes |
| Standings.UnsolvedCellIsDirect | apps/api/app/modules/contests/service.py:279-281 | not solved: the cell shows all the misses and no penalty |
| Standings.RowIsSums | apps/api/app/modules/contests/service.py:276-277 | points and penalty are the sums over exactly the problems with an accepted row |
| Standings.LastIsGreatest | apps/api/app/modules/contests/service.py:257-278 | the tie-break is the greatest moment at which a problem was first solved, or the lowest timestamp if there is none |
| Standings.MissesCost | apps/api/app/modules/contests/service.py:273-277 | a miss at minute 5 and a solution at minute 10 cost 30 minutes, which is behind a clean solution at minute 15 |
| Standings.NoAttemptIff | apps/api/app/modules/contests/service.py:240-247 | a row in front of others never matters exactly if it is not COMPLETED, has no verdict, or has SYSTEM_ERROR or COMPILATION_ERROR |
| Standings.GroupedScore | apps/api/app/modules/contests/service.py:239-271 | grouping first changes no score |
| Standings.RankOrder | apps/api/app/modules/contests/service.py:287-290 | ranks are 1 to n by points, then penalty, then the time of the last solution |
| Standings.InertRowsDoNotCount | apps/api/app/modules/contests/service.py:240-242 | deleting a pending, FAILED, compilation-error or later row changes nothing |
| Standings.VerdictIsLocal | apps/api/app/modules/contests/service.py:257-281 | judging one pending submission changes only its owner's totals, and never to fewer points |
| Standings.VerdictKeepsOthersInOrder | apps/api/app/modules/contests/service.py:287 | ... and no two other participants change places |
| Standings.SolversFirstIffPoints | apps/api/app/modules/contests/service.py:249-254 | solvers come before those who solved nothing, in all rows, iff every problem has points |
| Standings.WorthlessSolution | apps/api/app/modules/contests/service.py:249-254 | with a problem worth nothing there are rows in which they do not |
| PythonSorted.StableOrder | apps/api/app/modules/contests/service.py:287 | `sort` by a tuple key: a permutation, in key order, equal keys in their original order |
| PythonSorted.StableOrderIsByAhead | apps/api/app/modules/contests/service.py:287 | the sorted order of two elements depends on those two alone |
| Supervisor.Capture.Read | apps/judge/sahujudge/supervisor.py:234-241 | however the output is cut into chunks, the buffers are its first bytes up to the caps, and the overflow flag is set exactly if stdout exceeded its cap |
| Supervisor.Capture.Pump | apps/judge/sahujudge/supervisor.py:225-241 | the same for any number of reads |
| Supervisor.Supervise | apps/judge/sahujudge/supervisor.py:243-296 | the report of a run: captured output, numbers, and each status exactly for the runs that earn it |
| Supervisor.ExitedIffWithin | apps/judge/sahujudge/supervisor.py:75-95 | EXITED exactly if the child exited by itself within its CPU, wall, memory and output limits at every poll and at the end |
| Supervisor.NotExitedIsGuilty | apps/judge/sahujudge/supervisor.py:75-95 | TIMEOUT, MEMORY, OUTPUT_LIMIT and SIGNALED are only given to runs that did break that limit or died of that signal |
| Supervisor.StatusIffEarned | apps/judge/sahujudge/supervisor.py:75-95 | each of the five statuses as an if-and-only-if on the run: the first limit seen broken, output before time before memory, or else how the child ended |
| Supervisor.EarlyOutput | apps/judge/sahujudge/supervisor.py:254-255 | an overflow seen at any poll is an overflow of the whole output |
| Json.LoadsDumps | apps/judge/sahujudge/supervisor.py:117-129 | `json.loads` of `json.dumps` of a flat object of integers, plain strings and nulls is that object (sections 4 and 6 of RFC 8259) |
| Json.ReadMembers | apps/judge/sahujudge/supervisor.py:117-129 | the reader takes a compact list of members apart, one after the other |
| Json.ReadInt | apps/judge/sahujudge/supervisor.py:117-129 | every integer, negative ones included, is read back from its decimal digits |
| Json.OneLine | apps/judge/sahujudge/supervisor.py:295 | a written header has no newline in it |
| Reply.ReadWritten | apps/judge/sahujudge/docker_sandbox.py:156-177 | whatever bytes the child wrote, the judge reads back status, codes, numbers, stdout and stderr of the supervisor's report |
| Reply.ReadIff | apps/judge/sahujudge/docker_sandbox.py:156-247 | a reply is read as a report exactly if it is one line of JSON with its status by name, its numbers and the lengths of its outputs, then its stdout, then its stderr |
| Reply.ParseSupervisorOutput | apps/judge/sahujudge/docker_sandbox.py:156-177 | an accepted reply is consistent and every byte after the header line is kept, in order; no newline means no header |
| Reply.ParseWritten | apps/judge/sahujudge/docker_sandbox.py:156-177 | a written reply is cut exactly between header, stdout and stderr |
| Reply.CutLine | apps/judge/sahujudge/docker_sandbox.py:158 | `partition` finds the end of the header whatever follows it |
| Reply.ReplyFits | apps/judge/sahujudge/docker_sandbox.py:233 | the 4096 bytes allowed for the header are enough, so a reply is never cut off |
| Engine.AcceptedIff | apps/judge/sahujudge/engine.py:112-122 | from the child to the verdict: ACCEPTED exactly if it exited with 0 within every limit and all it wrote passes the checker |
| Engine.VerdictIff | apps/judge/sahujudge/engine.py:112-122 | from the child to each of the five verdicts, as an if-and-only-if on what the run did |
| Engine.MessageIff | apps/judge/sahujudge/engine.py:100-109 | a message exactly for a run-time error; it names the output limit, the signal the child died of, or its exit code |
| Engine.ToldOfTheRun | apps/judge/sahujudge/supervisor.py:284-296 | time, memory and both outputs reach the engine as they were measured and captured |
| Engine.VisibleFirst | apps/judge/sahujudge/engine.py:125-127 | the public tests in their order, then the others in theirs |
| Engine.JudgeTests | apps/judge/sahujudge/engine.py:130-190 | too many tests, a sandbox failure, a compilation error, or the report on the tests in the order `VisibleFirst` gives; what the report says is in the rows below |
| Engine.RunTests | apps/judge/sahujudge/engine.py:157-190 | the loop: outcomes up to the first failure or to the end, the first failure's verdict, counts and largest numbers |
| Engine.VerdictIsFirstFailure | apps/judge/sahujudge/engine.py:181-189 | ACCEPTED iff every test passes iff all are counted as passed; otherwise the first failure's verdict; never SYSTEM_ERROR |
| Engine.OutcomesShow | apps/judge/sahujudge/engine.py:160-178 | what is shown of each test that was run: verdict, time and memory of its run; message and texts only of visible tests |
| Engine.HowFar | apps/judge/sahujudge/engine.py:160-189 | all tests are run, or, when it stops at failures, those up to and including the first failure |
| Engine.LargestOfOutcomes | apps/judge/sahujudge/engine.py:179-180 | time and memory of the report are at least those of every outcome and are attained or 0; there are none if nothing was run |
| Engine.PassedIsCount | apps/judge/sahujudge/engine.py:182-183 | `passed` is the number of outcomes that are ACCEPTED |
| Engine.StoppingKeepsVerdict | apps/judge/sahujudge/engine.py:185-189 | stopping at the first failure changes neither verdict nor message nor the outcomes before it |
| Engine.HiddenTestsStayHidden | apps/judge/sahujudge/engine.py:14-15 | two runs that differ only in what hidden programs wrote and how they ended give the same report but for the message, and when the messages differ |
| Engine.MessageDependsIff | apps/judge/sahujudge/engine.py:14-15 | some such other run gives another message exactly if the first failure is a hidden test with a run-time error |
| Engine.HiddenMessageWitness | apps/judge/sahujudge/engine.py:185-187 | a hidden program that exits with 2 instead of 1 changes the message and nothing else |
| Checkers.LinesCheck | apps/judge/sahujudge/checkers.py:44-52 | accepts exactly the texts that agree line by line up to trailing white space, missing lines being blank |
| Checkers.Normalise | apps/judge/sahujudge/checkers.py:44-49 | the loop pops exactly the trailing blank lines |
| Checkers.SameLinesIff | apps/judge/sahujudge/checkers.py:51-52 | equal normal forms mean equal lines, and the other way round |
| Checkers.SameWordsIff | apps/judge/sahujudge/checkers.py:32-33 | the whitespace checker accepts exactly if both texts are the same non-empty words without white space, in order, set apart by white space |
| Checkers.SameTextIff | apps/judge/sahujudge/checkers.py:23-24 | the exact checker accepts exactly texts of one length that agree in every character |
| Checkers.LinesAreCut | apps/judge/sahujudge/checkers.py:45-46 | there is just one way to cut a text at its line feeds, and the lines are that one |
| Checkers.UniversalCases | apps/judge/sahujudge/checkers.py:45-46 | CR LF, a lone CR and LF each become one line feed, and nothing else changes |
| Checkers.Chain | apps/judge/sahujudge/checkers.py:18-52 | exact acceptance implies lines acceptance implies whitespace acceptance |
| Checkers.TokensOfNormal | apps/judge/sahujudge/checkers.py:33-52 | normalising keeps the sequence of words |
| Checkers.WindowsIsAccepted | apps/judge/sahujudge/checkers.py:37-40 | turning LF into CRLF in a text without CR makes no difference |
| Checkers.TrailingSpaceIsAccepted | apps/judge/sahujudge/checkers.py:37-40 | white space at the end of a line makes no difference, exactly unless it tears a CR LF apart before more text |
| Checkers.TornPairIsRejected | apps/judge/sahujudge/checkers.py:45-46 | a blank between the CR and the LF of a line break is not forgiven |
| Checkers.TrailingBlankIsAccepted | apps/judge/sahujudge/checkers.py:37-40 | white space and blank lines at the end of the text make no difference |

## Left out

- Parsing of the problem inputs (`text.split()`) and printing of the answers: the solutions are modelled on parsed values.
- The inputs of the solutions are assumed to satisfy the constraints of their statements, as the catalogue's own generators do.
- `heapq` and `sorted` are modelled by their contracts, `bisect_left` by its binary search; their own code is not part of this model.
- The other catalogue solutions (`_circles_solve`, `_island_solve`, `_coins_solve`, `_rotated_solve`, `_supply_solve` and the
  easy ones), and the input generators apart from the tree serializer: textbook results close to the ones proved here.
- Transactions are atomic steps: snapshot visibility inside PostgreSQL, row locks, rollbacks and user deletion are not modelled.
- SubmissionStore.Database.Persist: the stored per-test results and the achievements of the same transaction are not in the
  tables; the progress and streak upserts are one step each here, their single statements are interleaved in `Upserts`.
- Upserts.EveryRunIsSerial: callers always finish with a commit; a rolled-back INSERT is not modelled.
- RateLimiter.NeverTooMany: an unreachable Redis lets every request through by design, and the key's expiry and the text
  of the members are not modelled.
- SessionFamilies.DeniedForever: says nothing about a denylist write that was lost, which the code tolerates; token signing,
  hashing and the text of cookies are opaque.
- Standings.ComputeStandings: user names, labels and the cache are left out; cells are listed in problem order.
- `_phase` of the contest service, achievements, profile queries, list and search endpoints: easy case splits and reads.
- Supervisor.Supervise: what the operating system reports (reads, `/proc`, the clock, resource usage) is input; process
  control, signals and cgroups are foreign.
- Json.LoadsDumps: the general reader is only shown to invert the writer of the header; floats are kept as text, halves of
  surrogate pairs become U+FFFD, and decoding of header bytes is not modelled.
- Reply.ReplyFits: numbers are taken to have fewer than 400 digits.
- Engine.AcceptedIff: decoding of bytes to text is a parameter, and so is the checker.
- Engine.JudgeTests: building the limits from the language table and the text of messages are left out.
- Docker, Celery, events, e-mail, logging, the web front end.
