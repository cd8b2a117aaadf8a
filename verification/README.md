# Zattera core in Dafny

A model of the parts of the Zattera node where being wrong is easiest: who has approved a
transaction, who produces the next blocks, which branch a block belongs to, where a block lies in
the log, which peer is to send which block, and the wide arithmetic and hashing under all of it.
`dafny verify dfyconfig.toml` checks the project.

## What is modelled

**Authorities.** `Authorities` defines what an approval means without saying how it is found: the
least set of accounts closed under weighted-threshold authorities, over an account graph that may
be cyclic. `AuthorityCheck` is the recursive check with its cache, its depth, membership and
account limits and its 32-bit sums. `CheckSession` relates whole sessions of checks that share one
cache to the meaning: every true answer is justified; what is derivable within the depth is found;
with enough depth, and no other limit in the way, the answers are exact; and keys that no check
used can be dropped without changing anything. `KeyMarks` says which keys a check uses: exactly the
signing ones that it reads before it stops. `SignStates` is the mutable `sign_state`, proved to
compute those functions. `TransactionAuthority`, `RequiredSignatures` and `SignatureUse` are
`verify_authority`, `get_required_signatures` and `minimize_required_signatures`, stated over the
authorities that a transaction requires. More
signatures are not always better: with the default limits a valid extra signature can turn an
accepted transaction into a rejected one (`ExtraSignatureCanBeRejected`). It cannot when four
things hold (`EnoughDepthIsAntitone`): the depth covers every query, which is to say that the
accounts in play are no more than the depth or the tree they form is no higher; the members of every
authority involved fit the membership limit; their weights fit 32 bits; and the account limit is zero
or at least the number of checks that the tree of authorities below a query can start within the
depth. `SignatureLimits`, `AccountLimits` and `MembershipLimits` show that the bounds on accounts,
height, checks and members are exact: one too many, and there is a transaction that a further
signature makes rejected (`DefaultBounds` for the default limits of 2, 40 and 125). Where the account
limit keeps the depth from being reached, or depth and members keep the account limit from being
reached, that is part of the statement; the bound on members is shown for a depth of at least two.

**The witness schedule.** `VirtualTime` is the race that hands out time-share slots, with the
invariant that nobody is ever due in the past and the bound on how often one witness is processed
between two turns of another, in laps and in votes (`ShareByVotes`). Changes of votes never wrap
around the 128 bits they are computed in (`RunsStayPaced`). `WitnessSelection`, `WitnessSchedule` and `ScheduleUpdate` are the
update itself: the slate, the shuffle, the pay factor, and what a failed update leaves behind.
`Governance` holds the tallies and medians.

**The fork database and the block log.** `ForkDatabases` is a heap of items with weak links to
their parents. A parent is missing only at a root or below the pruning cut, and the searches for
branches and for main-branch blocks are proved against chains of parents. The shortcut for a number
with a single candidate differs from the walk exactly when the main branch does not reach that
number, as after a pop (`PoppedBlockIsFound`). `BlockLogs` keeps two files as byte sequences.
Rebuilding the index gives back what appending had written, for every log but one: with a single
block the loop writes nothing, and from then on every block is refused (`SingleBlockLogIsStuck`)
except another one numbered one (`SingleBlockLogStartsOver`).

**Syncing.** `SyncPeers`, `SyncSynopsis`, `SyncStates`, `SyncSafety`, `SyncOrder` and `SyncNodes` are the
bookkeeping of `node_impl` as atomic steps over any number of peers. In every state of every run no
block is asked of two peers or held twice, the lists of offered ids have no gaps, and the global
list of requests is exactly what peers are to send and what some peer reported missing. An entry of
the second kind is never removed (`LostForGood`), and there is a run that produces one
(`BlocksCanBeLost`). Blocks go to the chain in the order they arrive in, as far as they are next for
some peer (`FirstComeFirstServed`). `MessageCaches` is the cache of recent messages against its history.

**Arithmetic and hashing.** `Uint128s`, `Uint128Mul`, `Uint128Div` and `Uint128Text` are the 128-bit
integer, down to carries, limbs and characters. `Prices` compares and converts. The code only
checks that a converted amount fits 64 bits: one that does not fit a signed amount comes out
negative, even for an amount that `asset::validate` accepts (`ConversionCanTurnNegative`).
`MerkleRoots` is the in-place reduction; its root determines the leaves exactly when their number is known.

Conventions. Calls into code that is not modelled are parameters: the authority getters, the order
of the two witness indices (any order consistent with their keys), the block codec (any that
unpacks what it packed), the hashes (arbitrary functions), the set of blocks the chain has. Hashes
and names are opaque values. Loops over unordered containers take elements in any order. Machine
widths are written out where they matter.

## Model

| member | source | states |
|---|---|---|
| Authorities.ApprovedIsLeastClosed | src/core/protocol/sign_state.cpp:31-87 | the approved accounts are the least set that holds the seeds and every account whose active authority is met by the signing keys and the set |
| Authorities.ApprovedMonotone | src/core/protocol/sign_state.cpp:31-87 | more keys and more seeds never take an approval away |
| Authorities.HeightBound | src/core/protocol/sign_state.cpp:55-65 | no derivation is higher than the number of accounts in play, which is the depth a complete check needs |
| Authorities.CoveredHeight | src/core/protocol/sign_state.cpp:55-65 | below an authority no derivation is higher than the number of accounts in play or than the tree they form, whichever is smaller |
| AuthorityCheck.CheckSound | src/core/protocol/sign_state.cpp:31-87 | a true answer means the authority is satisfied in the least-fixpoint meaning, and every account cached on the way is derivable, whatever the limits |
| AuthorityCheck.CheckComplete | src/core/protocol/sign_state.cpp:31-87 | when the authorities below fit the membership limit and 32-bit weights, and the account limit is zero or leaves room for every check the tree below can start, an authority derivable within the remaining depth is answered true from every cache that holds the seeds |
| AuthorityCheck.CheckExact | src/core/protocol/sign_state.cpp:31-87 | under the same conditions on members, weights and the account limit, and when the remaining depth is at least the number of accounts in play or the height of the tree they form, the answer is true if and only if the authority is satisfied |
| CheckSession.SessionSound | src/core/protocol/sign_state.cpp:19-87 | over any sequence of checks on one sign state, every true answer is justified and every cached account is derivable |
| CheckSession.SessionComplete | src/core/protocol/sign_state.cpp:19-87 | at any depth, with room under the membership and account limits, a query that a derivation within the depth supports is answered true whatever was asked before |
| CheckSession.SessionExact | src/core/protocol/sign_state.cpp:19-87 | when the depth is at least the number of accounts in play or the height of the tree they form, and every query leaves room under the membership and account limits, every answer of a session is exactly the meaning, so no earlier check influences it |
| CheckSession.HoldsMonotone | src/core/protocol/sign_state.cpp:19-29 | what one set of keys satisfies, every larger set satisfies |
| CheckSession.CheckReplay | src/core/protocol/sign_state.cpp:6-87 | one check replayed with any supply of keys that contains the used ones gives the same verdict, cache, count and marks |
| CheckSession.SessionReplay | src/core/protocol/sign_state.cpp:6-110 | a whole session replayed with any supply of keys between those it used and those it had gives the same answers, counts, cache and used keys |
| KeyMarks.ScanKeysExact | src/core/protocol/sign_state.cpp:35-49 | the keys that are read are the fewest after which the last signing one brings the weight, in 32 bits, to the threshold, the membership limit is reached, or none is left; exactly the signing ones among them are used; and the answer is true, false or the weight so far accordingly |
| KeyMarks.CheckMarksExactly | src/core/protocol/sign_state.cpp:6-87 | a check uses exactly the signing keys that it reads in the authorities it visits, whatever its answer |
| KeyMarks.SessionMarksExactly | src/core/protocol/sign_state.cpp:6-110 | so does a whole session |
| KeyMarks.VisitsAreInTree | src/core/protocol/sign_state.cpp:51-85 | besides its own authority a check visits only those of accounts that are in the tree below, within the depth, and not cached |
| SignStates.SignState.constructor | src/core/protocol/sign_state.cpp:101-110 | a new sign state holds the signatures unmarked and the one seeded account |
| SignStates.SignState.SignedBy | src/core/protocol/sign_state.cpp:6-17 | answers whether a key is provided or available and marks exactly that key as used |
| SignStates.SignState.CheckAccount | src/core/protocol/sign_state.cpp:19-24 | answers a check by name as the session does, from the cache or by the recursive check at depth 0 |
| SignStates.SignState.CheckAuthority | src/core/protocol/sign_state.cpp:26-29 | checks an explicit authority from a given depth and count as the recursive check does |
| SignStates.SignState.CheckAuthorityImpl | src/core/protocol/sign_state.cpp:31-87 | the two loops with in-place marks, cache and counter compute the recursive check and leave exactly its state |
| SignStates.SignState.WeighKeys | src/core/protocol/sign_state.cpp:35-49 | the loop over the keys computes the scan of the list, which `ScanKeysExact` describes |
| SignStates.SignState.WeighAccounts | src/core/protocol/sign_state.cpp:51-85 | the loop over the accounts computes the scan of the list: decided at the threshold or a limit, or a weight left to compare |
| SignStates.SignState.Approves | src/core/protocol/sign_state.cpp:53-72 | one account: true from the cache, or checked one level deeper, counted, and cached if approved |
| SignStates.SignState.RemoveUnusedSignatures | src/core/protocol/sign_state.cpp:89-99 | keeps exactly the used keys and reports whether any other was there |
| TransactionAuthority.MeetAny | src/core/protocol/include/zattera/protocol/transaction_util.hpp:49-59 | tries alternatives in order and stops at the first that holds |
| TransactionAuthority.MeetAll | src/core/protocol/include/zattera/protocol/transaction_util.hpp:78-96 | meets demands in order and stops at the first that fails, with that failure |
| TransactionAuthority.VerifyAuthority | src/core/protocol/include/zattera/protocol/transaction_util.hpp:7-103 | accepts, or rejects with the first failure in the order of the code: mixed authorities, a missing authority, an irrelevant signature |
| TransactionAuthority.JudgeKeepsKeys | src/core/protocol/include/zattera/protocol/transaction_util.hpp:98-102 | verification never adds to the signatures it judges, so the final comparison is about the given ones |
| RequiredSignatures.AcceptedIsJustified | src/core/protocol/include/zattera/protocol/transaction_util.hpp:7-103 | in an accepted transaction every explicit authority is satisfied, every account required for active authority is approved or has its owner authority satisfied, every one required for owner authority has that satisfied, and every one required for posting authority is approved or has its active or owner authority satisfied |
| RequiredSignatures.MixedIsRejected | src/core/protocol/include/zattera/protocol/transaction_util.hpp:36-39 | posting authority together with any other is rejected for that, and nothing else is |
| RequiredSignatures.MetWithinDepthIsNotMissing | src/core/protocol/include/zattera/protocol/transaction_util.hpp:7-103 | at any depth, with room under the other limits, a transaction that has all four kinds of required authority by derivations within the depth is never reported to miss one, with these or with further signatures |
| RequiredSignatures.MissingExactly | src/core/protocol/include/zattera/protocol/transaction_util.hpp:46-96 | when the depth is at least the number of accounts in play or the height of the tree they form, and every query leaves room under the membership and account limits, a missing posting, explicit, active or owner authority is reported if and only if it is missing and, in the order explicit, active, owner, nothing before it is |
| RequiredSignatures.EnoughDepthIsAntitone | src/core/protocol/transaction.cpp:164-204 | under those conditions on depth, members, weights and the account limit, fewer keys never repair a missing authority |
| RequiredSignatures.DroppingUnusedIsAccepted | src/core/protocol/include/zattera/protocol/transaction_util.hpp:98-102 | a transaction refused only for irrelevant signatures is accepted with a strictly smaller set of them |
| RequiredSignatures.AskAll | src/core/protocol/transaction.cpp:126-151 | every check is made whatever the others answer, and leaves the state of the session |
| RequiredSignatures.GetRequiredSignatures | src/core/protocol/transaction.cpp:101-162 | returns the available keys that the checks used, or an error exactly for posting mixed with owner or active |
| RequiredSignatures.RequiredKeysSuffice | src/core/protocol/transaction.cpp:101-162 | once the returned keys have signed, every check answers as it did with all available keys at hand |
| RequiredSignatures.MinimizeSignatures | src/core/protocol/transaction.cpp:177-204 | returns a subset that verifies if anything was removed; when fewer keys never repair a missing authority, removing any key it returns makes one missing; an error is the rejection of some smaller set |
| RequiredSignatures.MinimizeRequiredSignatures | src/core/protocol/transaction.cpp:164-204 | the starting set is what the key search returns under the default limits; if it verifies, so does the result; when fewer keys never repair a missing authority, no key of the result can be spared; an error is mixed authorities or the rejection of some smaller set |
| SignatureUse.RelevantExactly | src/core/protocol/include/zattera/protocol/transaction_util.hpp:98-102 | a transaction that misses no authority is accepted if and only if every signature is one that its verification reads |
| SignatureUse.SurplusKeyIsRefused | src/core/protocol/include/zattera/protocol/transaction_util.hpp:91-102 | for one required owner authority whose keys suffice, exactly the signatures up to the key that reaches the threshold may be there |
| SignatureUse.StrangerIsRefused | src/core/protocol/include/zattera/protocol/transaction_util.hpp:98-102 | a transaction with a signature by a key that no authority in reach lists is never accepted |
| SignatureUse.QueriesInOrder | src/core/protocol/transaction.cpp:126-151 | the search asks for the posting accounts by name, or else for the explicit authorities, the owner authorities and the active accounts by name, in that order |
| SignatureUse.ReturnedAreRead | src/core/protocol/transaction.cpp:101-162 | the search returns exactly the available ones among the keys that its checks read |
| SignatureUse.ReturnedKeysServe | src/core/protocol/transaction.cpp:101-162 | with enough depth and room, each authority the search asks for is satisfied with the returned keys if and only if it is with all available ones |
| SignatureLimits.ExtraSignatureCanBeRejected | src/core/protocol/include/zattera/protocol/transaction_util.hpp:7-103 | with the default limits there is a transaction that one key satisfies and that the same key and a second valid one do not |
| SignatureLimits.DepthBoundIsTight | src/core/protocol/sign_state.cpp:55-65 | at every depth of at least one that the account limit lets a check reach, there is a transaction over one account more than the depth, with names of sixteen characters and no other limit in its way, that a further signature makes rejected |
| SignatureLimits.DepthBoundIsExact | src/core/protocol/sign_state.cpp:55-65 | with no other limit in the way, transactions over at most k accounts are never harmed by a further signature if and only if k is at most the depth or the account limit is positive and below the depth |
| SignatureLimits.HeightBoundIsExact | src/core/protocol/sign_state.cpp:55-65 | the same for transactions whose trees of accounts are no higher than h, however many accounts they hold |
| SignatureLimits.DepthNeverBinds | src/core/protocol/sign_state.cpp:55-63 | a query within an account limit that is below the depth never gets to the last level |
| AccountLimits.LimitNeverBinds | src/core/protocol/sign_state.cpp:44-84 | a query whose authorities fit the membership limit starts no more checks than a full tree of that width and of the height of the depth has nodes |
| AccountLimits.AccountBoundIsTight | src/core/protocol/sign_state.cpp:58-63 | for every positive account limit below that number of nodes, and for every one without a membership limit, there is a transaction within depth and membership limit that starts one check more than the limit and that a further signature makes rejected |
| AccountLimits.AccountBoundIsExact | src/core/protocol/sign_state.cpp:58-63 | transactions within depth and membership limit whose queries start at most k checks are never harmed if and only if k is at most the account limit or the account limit is at least that number of nodes |
| AccountLimits.DefaultAccountBounds | src/core/protocol/include/zattera/protocol/transaction_util.hpp:12-14 | the exact bound is 125 checks for the default limits, and the account limit itself for the limits a sign state is constructed with |
| MembershipLimits.MembershipBoundIsTight | src/core/protocol/sign_state.cpp:55-56 | there is a transaction over two accounts, one with one member more than the membership limit, that a further signature makes rejected: at the last level an account that is not cached is passed over without being counted |
| MembershipLimits.MembershipBoundIsExact | src/core/protocol/sign_state.cpp:44-84 | with no other limit in the way, transactions whose authorities have at most k members are never harmed if and only if k is at most the membership limit |
| MembershipLimits.DefaultBounds | src/core/protocol/include/zattera/protocol/transaction_util.hpp:12-14 | with the default limits the exact bounds are two accounts, height two, 125 checks and 40 members |
| VirtualTime.Lap | src/core/chain/witness_schedule.cpp:137-137 | the lap is the greatest number that fits into 2^128 - 1 once for every vote and once more |
| VirtualTime.MoreVotesShorterLap | src/core/chain/witness_schedule.cpp:137-137 | more votes never make for a longer lap |
| VirtualTime.RoundKeepsTime | src/core/chain/witness_schedule.cpp:133-154 | a round keeps every witness due now or later, and time does not go back |
| VirtualTime.RunsStayOnTime | src/core/chain/database.cpp:1284-1302 | over every run of rounds, resets, vote changes and new witnesses nobody is due in the past, and time goes back only at a reset |
| VirtualTime.VoteChange | src/core/chain/database.cpp:1284-1302 | the position moves on by the old votes for the time since the last update, and the due time is the present plus the rest of the lap at the new votes, or the end of time if that is earlier; nothing wraps around |
| VirtualTime.RunsStayPaced | src/core/chain/database.cpp:1284-1302 | over every run what a witness has covered and will cover until it is due fits into one lap, which is why nothing wraps around |
| VirtualTime.TurnsFitLap | src/core/chain/witness_schedule.cpp:108-154 | while one witness waits out a lap, the laps another completes fit into it |
| VirtualTime.ProportionalShare | src/core/chain/witness_schedule.cpp:108-154 | between two consecutive turns of w, v is processed at most once more than the number of its laps that fit into one of w's |
| VirtualTime.ShareByVotes | src/core/chain/witness_schedule.cpp:108-154 | between two consecutive turns of w, v is processed at most once more than the quotient of the two laps, and than the quotient of their votes, each plus one |
| Governance.Tally | src/core/chain/witness_schedule.cpp:158-174 | counts every value exactly |
| Governance.MajorityVersion | src/core/chain/witness_schedule.cpp:176-191 | the greatest version that enough witnesses run or exceed, or the current one when there is none |
| Governance.WinningHardfork | src/core/chain/witness_schedule.cpp:193-222 | the first vote in tally order that enough witnesses cast; none only when no vote has enough |
| Governance.WinnerIsUnique | src/core/chain/witness_schedule.cpp:193-222 | a requirement of more than half the slate admits one winner |
| Governance.Median | src/core/chain/witness_schedule.cpp:30-67 | the middle element of the sorted values, stated by counting |
| Governance.MedianIsUnique | src/core/chain/witness_schedule.cpp:30-67 | the median depends on nothing but the values |
| Governance.MedianInMajorityInterval | src/core/chain/witness_schedule.cpp:30-67 | the median lies in every interval that holds a strict majority of the values |
| WitnessSelection.SelectVoted | src/core/chain/witness_schedule.cpp:90-106 | the elected are the first eligible witnesses in vote order, as many as allowed or all of them |
| WitnessSelection.SelectTimeshare | src/core/chain/witness_schedule.cpp:108-131 | the picked are the eligible ones among a shortest prefix of the schedule order that fills the slate, and time moves to the last of that prefix |
| WitnessSelection.ShuffledPermutes | src/core/chain/witness_schedule.cpp:243-259 | whatever is drawn, the shuffle permutes |
| WitnessSelection.ShuffledAt | src/core/chain/witness_schedule.cpp:255-258 | position i ends up with the element at i plus the draw modulo what is left, and the earlier ones stay |
| WitnessSelection.EveryOrderIsDrawn | src/core/chain/witness_schedule.cpp:243-259 | every order of the slate can be drawn |
| WitnessSelection.NumbersDrawn | src/core/chain/witness_schedule.cpp:244-253 | what the generator draws for a few times and positions |
| WitnessSelection.Shuffle | src/core/chain/witness_schedule.cpp:243-259 | the in-place swaps compute that shuffle on the scheduled part and leave the rest of the array alone |
| WitnessSchedule.ResetVirtualTime | src/core/chain/witness_schedule.cpp:10-28 | puts every witness at position 0, due after one lap from time 0, and changes nothing else |
| WitnessSchedule.AdvanceProcessed | src/core/chain/witness_schedule.cpp:135-149 | starts a new lap for everyone processed, and stops exactly when one would overflow 128 bits |
| WitnessSchedule.AdvanceTime | src/core/chain/witness_schedule.cpp:133-154 | is a fair round of the race, or a reset of it exactly on overflow |
| WitnessSchedule.PrefixIsRound | src/core/chain/witness_schedule.cpp:108-154 | processing a prefix of the schedule order without overflow is a round: everyone due by then is processed and nobody else |
| WitnessSchedule.ChosenIsValid | src/core/chain/witness_schedule.cpp:84-131 | the slate has no duplicates, only witnesses with signing keys, and no more than the limit |
| WitnessSchedule.ChosenIsNonempty | src/core/chain/witness_schedule.cpp:84-131 | the slate is empty if and only if nobody has a signing key |
| WitnessSchedule.ElectedHaveMostVotes | src/core/chain/witness_schedule.cpp:90-106 | no witness with a signing key is passed over for one with fewer votes |
| WitnessSchedule.PickedAreDueFirst | src/core/chain/witness_schedule.cpp:108-131 | no witness with a signing key is passed over for one that is due later |
| WitnessSchedule.ChooseSlate | src/core/chain/witness_schedule.cpp:84-154 | selection, assigned kinds and virtual time together |
| ScheduleUpdate.MedianProps | src/core/chain/witness_schedule.cpp:30-82 | every chain property becomes a median of the members' values |
| ScheduleUpdate.DecideHardfork | src/core/chain/witness_schedule.cpp:193-222 | the next hardfork is the winning vote, or the current version when no vote has enough |
| ScheduleUpdate.PayOfSlate | src/core/chain/witness_schedule.cpp:239-241 | weights by count equal the sum of the weights of the scheduled witnesses by assigned kind |
| ScheduleUpdate.PayFactor | src/core/chain/witness_schedule.cpp:239-241 | the normalization factor is the pay of the whole slate |
| ScheduleUpdate.StaysOnTime | src/core/chain/witness_schedule.cpp:84-154 | an update keeps everyone due now or later, whether or not it resets |
| ScheduleUpdate.ScheduleDatabase.constructor | src/core/chain/include/zattera/chain/witness_objects.hpp:154-180 | the schedule after genesis satisfies the invariant of the updates |
| ScheduleUpdate.ScheduleDatabase.CountVotes | src/core/chain/witness_schedule.cpp:156-222 | the decisions are those of the witnesses scheduled so far |
| ScheduleUpdate.ScheduleDatabase.UpdateMedianWitnessProps | src/core/chain/witness_schedule.cpp:30-82 | the schedule holds the medians of the scheduled witnesses, and the two dynamic global properties follow them |
| ScheduleUpdate.ScheduleDatabase.Install | src/core/chain/witness_schedule.cpp:226-259 | the array holds the shuffled slate and blanks |
| ScheduleUpdate.ScheduleDatabase.PlanSlate | src/core/chain/witness_schedule.cpp:84-154 | the slate to be installed and its names, empty exactly when nobody has a signing key |
| ScheduleUpdate.ScheduleDatabase.Commit | src/core/chain/witness_schedule.cpp:226-264 | the installed names are those of the slate shuffled by the draws, the rest of the array is blank, and time, pay, majority version and next shuffle block are set |
| ScheduleUpdate.ScheduleDatabase.UpdateWitnessSchedule4 | src/core/chain/witness_schedule.cpp:84-267 | the whole update: slate, virtual time, names, pay, decisions of the outgoing slate, medians of the incoming one and the next shuffle block; it fails, changing nothing, exactly when nobody has a signing key |
| ScheduleUpdate.ScheduleDatabase.UpdateWitnessSchedule | src/core/chain/witness_schedule.cpp:274-280 | at the end of a round of blocks the whole update, shuffled by the numbers drawn from the head block time, or, if it fails, nothing; at any other block nothing |
| ForkDatabases.ForkItem.constructor | src/core/chain/include/zattera/chain/fork_database.hpp:20-21 | an item takes its number and id from its block |
| ForkDatabases.ChainShape | src/core/chain/fork_database.cpp:35-71 | along a chain of parents numbers go down by one, every member is reachable, and the chain ends exactly where a parent is gone |
| ForkDatabases.ChainNumbers | src/core/protocol/block.cpp:12-25 | the k-th item down has a number k lower |
| ForkDatabases.StillFits | src/core/chain/fork_database.cpp:94-123 | insertions and pruning keep every link between consecutive numbers, and every missing parent at a root or below the cut |
| ForkDatabases.ForkDatabase.constructor | src/core/chain/fork_database.cpp:7-9 | an empty tree |
| ForkDatabases.ForkDatabase.StartBlock | src/core/chain/fork_database.cpp:24-29 | the block becomes the head; a block already there keeps its first item in the index |
| ForkDatabases.ForkDatabase.PushBlock | src/core/chain/fork_database.cpp:35-71 | with a head, a block is too old if and only if its number is zero or, with the size added, not above that of the head; unlinkable or with an invalid parent exactly under those conditions; a refusal has no effect; otherwise the block is in the tree, linked to its parent, and the head moves if and only if the number is higher |
| ForkDatabases.ForkDatabase.FindParent | src/core/chain/fork_database.cpp:53-67 | the three refusals, exactly, and the item to link to |
| ForkDatabases.ForkDatabase.Attach | src/core/chain/fork_database.cpp:66-71 | the tree stays a tree, and the head moves only up |
| ForkDatabases.ForkDatabase.PopBlock | src/core/chain/fork_database.cpp:16-22 | the head moves to its parent, one number down, or fails without effect exactly when there is none |
| ForkDatabases.ForkDatabase.SetMaxSize | src/core/chain/fork_database.cpp:94-123 | exactly the items no lower than the head less the size remain, the tree stays valid, and from then on a block is too old if and only if its number is zero or not above the head less the size |
| ForkDatabases.PruneBelow | src/core/chain/fork_database.cpp:99-110 | erasing lowest first removes exactly what is below the bound |
| ForkDatabases.ForkDatabase.FetchBlockByNumber | src/core/chain/fork_database.cpp:149-166 | all items with that number, each once |
| ForkDatabases.ForkDatabase.WalkMainBranchToNum | src/core/chain/fork_database.cpp:212-221 | the main-branch item with that number, or none |
| ForkDatabases.ForkDatabase.FetchBlockOnMainBranchByNumber | src/core/chain/fork_database.cpp:223-231 | agrees with the main branch if and only if it is not the case that there is one candidate and the main branch does not reach the number |
| ForkDatabases.PoppedBlockIsFound | src/core/chain/fork_database.cpp:16-71 | start, push, pop and fetch: the shortcut returns the popped block, which is not on the main branch |
| ForkDatabases.ForkDatabase.FetchBranchFrom | src/core/chain/fork_database.cpp:168-210 | two chains of parents from the given ids down to the first pair of equal height with the same previous id; failure exactly when an id is unknown or there is no such pair |
| ForkDatabases.ForkDatabase.BranchesOf | src/core/chain/fork_database.cpp:183-208 | the same for two items |
| ForkDatabases.ForkDatabase.AlignHeights | src/core/chain/fork_database.cpp:183-194 | walks the higher chain down to the height of the other without passing a fork point |
| ForkDatabases.ForkDatabase.Meet | src/core/chain/fork_database.cpp:195-208 | from equal heights, both ways down to the first common previous id |
| ForkDatabases.ForkDatabase.DescendTo | src/core/chain/fork_database.cpp:183-194 | the part of a chain above a number and the item below it |
| BlockLogs.LeRoundTrip | src/core/chain/block_log.cpp:217-218 | the eight bytes of a position give it back |
| BlockLogs.LeAt | src/core/chain/block_log.cpp:217-218 | the lowest byte comes first |
| BlockLogs.LayoutAt | src/core/chain/block_log.cpp:197-225 | every block in the log is followed by its own position |
| BlockLogs.ReadAt | src/core/chain/block_log.cpp:252-265 | unpacking at the position of block k gives block k and then its position |
| BlockLogs.LastPosition | src/core/chain/block_log.cpp:318-337 | the last eight bytes of a log lead to its last block |
| BlockLogs.BlockLog.constructor | src/core/chain/block_log.cpp:92-97 | two empty files |
| BlockLogs.BlockLog.Append | src/core/chain/block_log.cpp:197-225 | the files grow by the packed block and its position, or nothing changes; the next block, and no other, keeps log and index in agreement |
| BlockLogs.BlockLog.ReadBlock | src/core/chain/block_log.cpp:252-265 | at the position of block k it reads that block and leaves off where block k + 1 starts; a stream error exactly past the end or when nothing unpacks |
| BlockLogs.BlockLog.GetBlockPos | src/core/chain/block_log.cpp:302-316 | the position of block k, none outside 1..n, a stream error when the index is too short |
| BlockLogs.BlockLog.ReadBlockByNum | src/core/chain/block_log.cpp:267-288 | number k gives the k-th block and any other number nothing |
| BlockLogs.BlockLog.ReadHead | src/core/chain/block_log.cpp:318-337 | the last block, or a stream error for an empty log |
| BlockLogs.BlockLog.ConstructIndex | src/core/chain/block_log.cpp:351-379 | rebuilds byte for byte the index that appending wrote, for two blocks or more; for one block it writes nothing |
| BlockLogs.BlockLog.Open | src/core/chain/block_log.cpp:104-185 | when opening succeeds, what index it leaves, and exactly when that index is right |
| BlockLogs.SingleBlockLogIsStuck | src/core/chain/block_log.cpp:104-225 | a log of one block reopened without its index refuses every sequence of blocks that are not numbered one |
| BlockLogs.SingleBlockLogStartsOver | src/core/chain/block_log.cpp:104-225 | a second block numbered one is taken, and the index then leads to it and not to the first |
| SyncPeers.CheckReply | src/base/net/node.cpp:2493-2564 | accepts exactly the empty reply and the gap-free ones that build on the synopsis, or start at block one for an empty synopsis |
| SyncPeers.MergeReply | src/base/net/node.cpp:2600-2683 | the merged list and the last seen block, for an empty list, an overlapping reply and a reply from another fork |
| SyncPeers.MergeKeepsGapFree | src/base/net/node.cpp:2600-2683 | merging lists without gaps gives a list without gaps |
| SyncPeers.CompleteSynopsis | src/base/net/node.cpp:2427-2449 | the loop stops, its index check fails if and only if the synopsis starts above the list, and it adds the sample defined by halving the distance |
| SyncPeers.TakeSamples | src/base/net/node.cpp:2437-2447 | the loop collects the whole sample, or fails its index check exactly when it starts above the top |
| SyncSynopsis.HalfwayIsSampled | src/base/net/node.cpp:2437-2447 | the block at every height at which the distance to the end of the list has been halved k times is sampled, if it is on the list |
| SyncSynopsis.SampledIsHalfway | src/base/net/node.cpp:2437-2447 | and no other block is |
| SyncPeers.SampledClimbs | src/base/net/node.cpp:2437-2447 | sampled numbers increase strictly, end at the last id, and are no more than the binary digits of the distance |
| SyncPeers.SynopsisReachesTop | src/base/net/node.cpp:2427-2449 | the same for what is added off any gap-free list |
| SyncPeers.LoopStops | src/base/net/node.cpp:2437-2447 | in 32-bit arithmetic the loop stops if and only if nothing wraps |
| SyncNodes.SyncNode.constructor | src/base/net/node.cpp:806-830 | no peers, no requests, no blocks |
| SyncNodes.SyncNode.OnConnect | src/base/net/peer_connection.cpp:84-87 | a new peer is needed, not yet active, and asked for nothing |
| SyncNodes.SyncNode.Pick | src/base/net/node.cpp:1068-1082 | the first blocks of a list that nobody has or is asked for, up to the limit |
| SyncNodes.SyncNode.Schedule | src/base/net/node.cpp:1054-1086 | lots for free peers only, no block twice, and no free peer left with an unclaimed block unless its lot is full |
| SyncNodes.SyncNode.RequestFrom | src/base/net/node.cpp:1029-1041 | exactly the lot is added to the peer's requests and to the global list |
| SyncNodes.SyncNode.RequestAll | src/base/net/node.cpp:1089-1091 | every peer is asked for its lot, in whatever order |
| SyncNodes.SyncNode.FetchSyncItems | src/base/net/node.cpp:1043-1092 | one iteration is a fetch step, and nothing while fetching is suspended |
| SyncNodes.SyncNode.OnBlock | src/base/net/node.cpp:3626-3637 | an expected block leaves the requests and is buffered; any other costs the connection |
| SyncNodes.SyncNode.OnNotAvailable | src/base/net/node.cpp:2875-2889 | the peer no longer owes the block, and is inhibited or let go; the global entry stays |
| SyncNodes.SyncNode.OnClosed | src/base/net/node.cpp:3072-3077 | what the peer owed may be asked of others, and nothing else changes |
| SyncNodes.SyncNode.StartSynchronizing | src/base/net/node.cpp:4004-4014 | the list and the counts of the peer start over, it is needed and no longer held back |
| SyncNodes.SyncNode.OnInventory | src/base/net/node.cpp:2484-2683 | ignored unless asked for; an invalid reply costs the connection; the end of the peer's chain ends the sync; otherwise the lists are merged |
| SyncNodes.SyncNode.MergeArrived | src/base/net/node.cpp:3327-3330 | what has arrived goes before the backlog, oldest first |
| SyncNodes.SyncNode.PopFromLists | src/base/net/node.cpp:3340-3351 | the block leaves every active list it heads, and the answer is whether there was one |
| SyncNodes.SyncNode.SettleOnLists | src/base/net/node.cpp:3377-3382 | a block accepted before is no longer being processed for anyone |
| SyncNodes.SyncNode.TakeUpFirst | src/base/net/node.cpp:3334-3354 | finds the first block of the backlog that is next for some peer |
| SyncNodes.SyncNode.DrainBacklog | src/base/net/node.cpp:3325-3416 | the nested loops compute the drained state |
| SyncNodes.SyncNode.CollectFinished | src/base/net/node.cpp:3286-3293 | forgets exactly the finished calls |
| SyncNodes.SyncNode.ProcessBacklog | src/base/net/node.cpp:3283-3422 | one pass is a backlog step, and leaves fetching suspended if and only if the chain is busy and the backlog long, unless the chain was too busy to start |
| SyncStates.FirstReady | src/base/net/node.cpp:3334-3354 | the least index from a start whose block heads an active list |
| SyncSafety.DrainConserves | src/base/net/node.cpp:3325-3417 | a pass loses and invents no block: what is no longer held is in the chain's hands, and requests are untouched |
| SyncSafety.FetchIsSafe | src/base/net/node.cpp:1043-1092 | a fetch keeps the peers' requests apart and clear of the buffers |
| SyncSafety.ReceiveIsSafe | src/base/net/node.cpp:3626-3637 | a received block is buffered once and owed by nobody |
| SyncSafety.CloseIsSafe | src/base/net/node.cpp:3072-3077 | closing one connection leaves the other peers' requests on the global list |
| SyncSafety.SafeStep | src/base/net/node.cpp:1009-1092 | every step keeps requests pairwise disjoint, on the global list and clear of the buffers, and no block buffered twice |
| SyncSafety.AccountedStep | src/base/net/node.cpp:2875-2889 | every step keeps the global list equal to what peers owe and what was reported missing |
| SyncOrder.DrainFollows | src/base/net/node.cpp:3334-3355 | off every peer's list blocks are taken from the front, in the listed order, and are then being processed but for one accepted before; nothing else of the peer changes, and a connection that is not active keeps its list |
| SyncOrder.TraceIsPassed | src/base/net/node.cpp:3362-3372 | what is taken up goes to the chain in that order, but for a last block that the chain had accepted before |
| SyncOrder.DrainSaturates | src/base/net/node.cpp:3325-3417 | a pass ends only when the chain is busy, at a block accepted before, or when no held block is next for any peer |
| SyncOrder.MergedOrder | src/base/net/node.cpp:3327-3330 | the block that arrived first is at the front, and the older backlog comes after everything that arrived |
| SyncOrder.TraceInOrder | src/base/net/node.cpp:3334-3372 | a block that is next for some peer is taken up before everything behind it in the backlog |
| SyncOrder.FirstComeFirstServed | src/base/net/node.cpp:3436-3439 | in every run, of two blocks that arrive between two looks at the backlog the earlier goes to the chain first, if it is next for some peer by then |
| SyncOrder.UnfinishedAre | src/base/net/node.cpp:3286-3293 | exactly the calls that are not finished are kept, in order |
| SyncOrder.GapFreeStep | src/base/net/node.cpp:3341-3351 | every step keeps every list of ids without gaps |
| SyncOrder.RunsAreSafe | src/base/net/node.cpp:1009-1092 | in every state of every run: safe requests, lists without gaps, and the account of the global list |
| SyncOrder.LostForGood | src/base/net/node.cpp:2875-2889 | a block reported missing stays on the global list in every later state, is never asked of a peer again and never arrives |
| SyncOrder.BlocksCanBeLost | src/base/net/node.cpp:2875-2889 | a run of five steps that loses a block |
| MessageCaches.MessageCache.constructor | src/base/net/node.cpp:174-176 | an empty cache with an empty history |
| MessageCaches.MessageCache.BlockAccepted | src/base/net/node.cpp:185-191 | the cache still holds exactly what its history keeps, until the 32-bit clock wraps |
| MessageCaches.MessageCache.CacheMessage | src/base/net/node.cpp:193-203 | likewise after caching, whether or not the hash is present |
| MessageCaches.MessageCache.GetMessage | src/base/net/node.cpp:205-212 | finds the message of the event that keeps the hash, and nothing if and only if there is none |
| MessageCaches.KeptOnce | src/base/net/node.cpp:193-203 | at most one event of a history keeps a hash |
| MessageCaches.RecallIsUnique | src/base/net/node.cpp:205-212 | a lookup has one answer |
| MessageCaches.NewBlock | src/base/net/node.cpp:185-191 | dropping entries by their clock drops exactly what the history no longer keeps |
| MessageCaches.NewMessage | src/base/net/node.cpp:193-203 | inserting when absent stores exactly what the longer history keeps |
| MessageCaches.RecachingChangesNothing | src/base/net/node.cpp:193-203 | caching a hash that is kept changes no lookup after any further events |
| Uint128s.Less | src/base/fc/include/fc/uint128.hpp:41-42 | the order of the halves is the order of the values |
| Uint128s.Add | src/base/fc/include/fc/uint128.hpp:58-58 | addition with a carry between the halves, modulo 2^128 |
| Uint128s.Increment | src/base/fc/include/fc/uint128.hpp:47-47 | one more, modulo 2^128 |
| Uint128s.Negate | src/base/fc/include/fc/uint128.hpp:44-45 | complement and increment is negation modulo 2^128 |
| Uint128s.Subtract | src/base/fc/include/fc/uint128.hpp:59-59 | subtraction modulo 2^128 |
| Uint128s.ShlValue | src/base/fc/uint128.cpp:154-187 | the masks and words of a left shift multiply by a power of two modulo 2^128, for every count |
| Uint128s.ShrValue | src/base/fc/uint128.cpp:189-222 | a right shift divides by a power of two, for every count |
| Uint128Mul.MulAssign | src/base/fc/uint128.cpp:257-295 | the limb product is exact modulo 2^128, also when both operands are one variable |
| Uint128Mul.CrossTerms | src/base/fc/uint128.cpp:269-292 | the rows of limb products add up to the product modulo 2^128 |
| Uint128Mul.WordProduct | src/base/fc/uint128.cpp:313-320 | the product of two 64-bit words, exactly |
| Uint128Mul.FullProduct | src/base/fc/uint128.cpp:297-349 | the two halves together are exactly the product, also when a result overwrites an operand; written to one variable, the low half remains |
| Uint128Mul.ProductWords | src/base/fc/uint128.cpp:308-346 | the four columns add up to the product without overflow in the top word |
| Uint128Div.ShiftUp | src/base/fc/uint128.cpp:27-30 | the divisor is shifted up without losing a bit |
| Uint128Div.SubtractDown | src/base/fc/uint128.cpp:32-40 | trying bits downwards leaves quotient times divisor plus a smaller remainder |
| Uint128Div.Divide | src/base/fc/uint128.cpp:13-45 | quotient and remainder for every nonzero divisor, also when outputs overwrite operands or are one variable, which then holds the remainder; zero is refused without effect |
| Uint128Text.ToText | src/base/fc/uint128.cpp:131-151 | the buffer never runs out, and the text is the decimal numeral |
| Uint128Text.DigitsAre | src/base/fc/uint128.cpp:131-151 | the numeral is as short as it can be, and each character is the decimal digit of its place |
| Uint128Text.FromText | src/base/fc/uint128.cpp:47-117 | sign, radix prefix and digits as far as they go, modulo 2^128 |
| Uint128Text.UnsignedRead | src/base/fc/uint128.cpp:60-112 | the prefixes of the bases eight and sixteen |
| Uint128Text.DigitsOfBase | src/base/fc/uint128.cpp:80-104 | a character is a digit exactly if it is one of the base, with letters of either case for ten and more |
| Uint128Text.PrintParseRoundTrip | src/base/fc/uint128.cpp:47-151 | parsing the decimal numeral gives the value back, for all values |
| Uint128Text.Reprint | src/base/fc/uint128.cpp:47-151 | the two routines undo each other |
| Prices.CrossIsExact | src/core/protocol/asset.cpp:279-280 | on non-negative amounts the 128-bit cross products do not wrap |
| Prices.OperatorsAgree | src/core/protocol/asset.cpp:270-290 | the six operators are six views of one relation, for all prices |
| Prices.PriceOrderIsTransitive | src/core/protocol/asset.cpp:270-290 | on valid prices the order is transitive, strictly if either part is strict, and so is equality |
| Prices.OrderIsByRate | src/core/protocol/asset.cpp:270-290 | between valid prices of one pair the operators compare the rates |
| Prices.PairsComeInOrder | src/core/protocol/asset.cpp:270-276 | prices of different pairs are ordered by the symbol of the base and then by that of the quote |
| Prices.TransitiveThrough | src/core/protocol/asset.cpp:270-290 | without validation, among prices with no negative amount, order and equality are transitive through a price if and only if one of its two amounts is positive |
| Prices.NullPriceBreaksEquality | src/core/protocol/asset.cpp:322-327 | the failing case: the price of nothing for nothing, of any pair, equals two different prices and lies between two in the wrong order |
| Prices.MultiplyRoundsDown | src/core/protocol/asset.cpp:292-309 | the result is the floor if and only if that fits a signed amount; it is refused exactly when it does not fit 64 bits and negative in between |
| Prices.MultiplyIsMonotone | src/core/protocol/asset.cpp:292-309 | all smaller amounts convert to no more than a given one if and only if its exact conversion fits a signed amount |
| Prices.ThereAndBack | src/core/protocol/asset.cpp:292-309 | there and back succeeds without gain, and with no more loss than the one side over the other rounded up, if and only if the exact conversion fits a signed amount |
| Prices.NegativeIsRefused | src/core/protocol/asset.cpp:292-309 | a negative amount is refused at every valid price |
| Prices.ConversionCanTurnNegative | src/core/protocol/asset.cpp:292-309 | a valid amount that converts to minus four |
| MerkleRoots.NextLevelAt | src/core/protocol/block.cpp:53-63 | each slot of the next level is the hash of its pair, or the odd one carried up |
| MerkleRoots.ReduceOnce | src/core/protocol/block.cpp:53-63 | the in-place pass computes the next level: nothing is overwritten before it is read |
| MerkleRoots.CalculateMerkleRoot | src/core/protocol/block.cpp:42-67 | the loop ends with the recursively defined root |
| MerkleRoots.RootInjective | src/core/protocol/block.cpp:42-67 | with an injective pair hash, equally many leaves with one root are the same leaves |
| MerkleRoots.RootSplits | src/core/protocol/block.cpp:52-65 | the root is the pair of the roots of the two parts on either side of a power of two |
| MerkleRoots.RootDeterminesTransactions | src/core/protocol/block.cpp:42-67 | the same for the transactions of a block |
| MerkleRoots.RootsOfDifferentLengths | src/core/protocol/block.cpp:42-67 | for any two numbers of leaves there are lists of those lengths with one root, whatever the hash |
| MerkleRoots.EqualLengthIsExact | src/core/protocol/block.cpp:42-67 | with an injective pair hash the root determines the leaves if and only if the numbers of leaves are the same |

## Left out

- CheckAuthorityImpl: callers outside the class that pass a depth above the limit; the class itself never does.
- Open: log files that are not the packed form of blocks 1..n, and the reopening of streams between reads and writes.
- Append: does not model files of 2^64 bytes, and promises agreement only below 2^32 blocks.
- FetchBlockByNumber: the order of the items found, which the index does not promise.
- CompleteSynopsis: does not cover lists whose numbers pass 32 bits, where the loop of the code does not end (`LoopStops`).
- StartSynchronizing: the request for ids that follows, which is an `Other` step.
- VerifyAuthority: does not model the three sets of explicit approvals, which every caller in the modelled files leaves empty.
- CheckAuthority: does not model a depth above the recursion limit, at which the code would recurse without bound on a cycle.
- OnInventory: does not model the requests for further ids or blocks that follow a merge, each of which is an `Other` or a `Fetch` step, nor the disconnect for an implausible number of blocks.
- MembershipBoundIsExact: states the exact bound at a depth of at least two, and with an account limit of zero or of room for two checks on every level but the first; whether the membership limit can do harm elsewhere is open.
- Exceptions thrown by the authority getters, and the signature recovery and duplicate-signature check that produce the set of keys.
- The visitor that collects the required authorities of each operation.
- `fork_database::remove`, `set_head`, `reset` and the unlinked index, whose insert follows an unconditional throw.
- Hash functions, serialization, and the byte order of block ids.
- Mutexes, memory-mapped streams and file modes of the block log.
- Sockets, timeouts, fibers, normal-operation inventory and everything that happens to a peer outside its sync lists; the steps of a sync are atomic, and any change to the other fields of a peer is one `Other` step. Peers are values in a map, so aliasing of connection objects is not captured.
- Lookups in the message cache by content hash.
- The outcome of a block handed to the chain during a sync, beyond the effect on a peer that an `Other` step covers.
- Bitwise operators, `popcount` and conversions of the 128-bit integer that the modelled routines do not use.
- Asset names, vesting conversions, operation evaluators, plugins, the wallet and the programs: they would only add members that follow their code line by line.
