# VIZ node: a verified model of its consensus and economy core

This project models, in Dafny, the parts of the VIZ blockchain node (a Graphene node with
Fair-DPOS consensus) whose behaviour depends on whole runs, whole trees or whole ledgers, and proves
what they guarantee. Verify with `dafny verify dfyconfig.toml`.

The code that mutates objects is modelled by classes and methods with loops (`ForkDb.ForkDatabase`,
`NodeDatabase.Database`, `Finality.FinalityState`, `Scheduler.Schedule`, `ProxyLedger.Ledger`,
`BlockLog.Log`, `Economy.Books`, `Delegation.Delegations`); each method is proved
against functions on values, and the theorems are about those functions or about the states the
methods keep.

| files | what they model |
|---|---|
| Blocks, ForkView, ForkBranches, ForkDb, ForkConvergence | the fork database: linking, late blocks, bases, pruning, branches, order independence |
| ForkChoice, Chain, ForkSwitch, NodeRun, NodeDatabase | branch comparison, the applied chain with its undo stack, how a fork switch ends, runs of incoming blocks, the handling of each |
| NodeWitness | nodes and blocks for which a switch or a cascade goes wrong |
| Finality | the last irreversible block (LIB) |
| VirtualTime, Scheduler | the validator schedule |
| ProxyGraph, ProxyVotes, ProxyLedger | vote proxies |
| Bytes, LogImage, BlockLog, LogRecovery | the block log and its index, byte by byte |
| Vesting, Awards, Auction, EconomyRules, EconomySteps, Economy, EconomyRun | the token economy with account sales and auctions |
| Delegation | delegation caches |
| Config, Sums, Division | shared constants, sums over finite maps, integer division |

How the source's terms appear here:

- A `shared_ptr<fork_item>` is a handle; a `weak_ptr` parent link is a handle that counts only while its
  item is linked, waiting, the head or held by a caller; being the parent of such an item keeps nothing alive.
- A block id carries its block number; a block's number is one more than its parent id's number.
- The state transition of a block is an arbitrary deterministic partial function; the fork code reads
  LIB, votes and the emergency flag from the state through functions.
- A C++ exception inside an operation is a refused result that leaves the state as it was, because an
  operation runs inside an undo session. Inside `_push_block` exceptions are explicit results, since
  there the state they leave behind is the point.
- Account objects are modelled by columns (one map per field). Times are seconds. Clocks, the vote index
  orders, the weights of stakeholders and the effective vesting shares of an account are parameters.
- Integers are mathematical, except the 128-bit virtual clock, the 64-bit words of the block log and the
  16-bit percentage sum of withdrawal routes, whose wrap-around is written out.

What does not hold, stated and proved exactly:

- **A failed fork switch** away from blocks that were applied with all checks on leaves exactly the old chain, with
  the old tip as the fork database's head, if and only if that head can be popped once for every block to be undone,
  in the old branch and in the part of the new one that was applied. With fewer pops it throws: on part of the new
  branch, or, when the old branch alone is longer, on a truncated old chain. `RealEnd` gives the chain for every
  depth. A block that starts a switch in `PushBlock` ends in it whenever ids do not collide, the new branch is
  indexed and nothing irreversible lies above the fork point (`SwitchLogged`); `FailedSwitch` is a node at which the
  recovery throws.
- **A switch whose fork point is below the LIB** rolls the chain back to the LIB and stays there (`LibEnd`,
  `StoppedSwitch`). Where a block was committed that the recorded LIB has not reached, the switch throws after
  popping the fork database's head as far as it goes, and undoes only what is above that block (`StuckEnd`).
- **A failed cascade** restarts the fork database from the head at which it failed, not from the head it returns to
  (`CascadeEnds`); `BrokenCascade` is a node whose fork database then starts above the head of its chain.
- **Branch preference is not transitive.** Among tips of equal height that fork at one point it is
  (`PreferenceTransitive`); with two fork points three tips of one height can each beat the next
  (`PreferenceHasCycle`), and with different heights three tips above one fork point can (`StairsCycle`), because the
  longer branch gets ten percent. The node is not led round by this. A circle of its switch rule needs equal heights
  and two fork points (`CircleNeedsTwoForks`). In every run of pushes outside emergency mode, whether or not the fork
  database and the chain agree on the head, each switch goes to a tip strictly higher than every earlier one, up to
  the first exception that leaves a switch or a cascade half-way (`TargetsRise`, `RisesUntilFall`); there the claim
  ends, since such an exception can leave the fork database's head lower. In any mode no switch is undone by the next
  one while the votes are the same (`NoWayBack`).
- **Head choice outside emergency mode** depends on the order of arrival (`SiblingOrder`).
- **Votes against services.** "Between two services of one validator another with k times its votes is served k - 1
  times" is false when validators are served in the same update (`ServedTogether`). It holds in every run up to the
  laps by which services were late (`VotesSpeedUp`, from the identity `DueMoves`), and as it stands for a validator
  whose services are less than a lap late in all (`NeverLate`).
- **A vote change of nothing** delays a validator, because the way behind it is counted at the speed of its votes and
  the way ahead at that of its votes plus one (`RevoteDelays`).
- **Bids in an auction** rise strictly exactly unless a tenth of the price rounds down to nothing and no bid of
  somebody else was passed (`BidsRise`).
- **`start_block`** keeps "no waiting block has a linked parent" exactly when nothing was waiting for its block.
- **The quorum of confirmations** is one smaller than the quorum of supporting slots unless the number of
  slots is a multiple of four (`QuorumsDiffer`).
- **A cut block-log index** is mended on opening unless its last eight bytes happen to be the position of the last
  record; `EntryCut` gives the exact equation and `CutNotMended` a log for which it happens.
- **A fixed award** conserves tokens exactly when the beneficiaries' cuts do not exceed the requested reward;
  otherwise the difference is created (`GiveFixedAward`, `AwardMints`). Its energy charge exceeds the offered
  energy by one unit exactly when all shares on offer are needed, and can leave the energy at -1
  (`NeededBound`, `QuoteSound`, `EnergyBelowZero`).
- **A bid** is not checked against the bidder's balance: books in which no balance is negative stay so exactly when the
  bid is covered (`Bid`, `BidSolvent`). Every other step keeps all balances non-negative (`Perform`), so over a
  run with covered bids none falls below zero (`Run`).
- **Burning shares of an account with a proxy** (as done for the null, anonymous and committee accounts) would leave
  the proxies' caches wrong; it is harmless exactly when the account has no proxy or no shares (`SilentBurn`).
- **A withdrawal route to the null account**, the one with the lowest id, is stored and counts towards the number of
  routes, but the index walks start behind it: it counts for nothing in the percentage check and is paid nothing
  (`Walked`).

Where code and comments disagree, the code is followed: `compare_fork_branches` catches its own exceptions and
answers "tied", so the recovery around its call never runs; the comment on a block-log index that lags behind the
log promises a replay from its head, while the code rebuilds it from the start; the walk over a proposed proxy's
chain keeps the address of a loop-local copy, and is modelled as reading the account that the copy was made from; the
comment on confirmations speaks of more than two thirds of the validators, while the code asks for three quarters,
rounded down. The endings of an auction that the code marks as impossible are impossible (`SaleOf`).

## Model

| member | source | states |
|---|---|---|
| ForkView.RunGrows | libraries/chain/fork_database.cpp:82-146 | any sequence of linking steps only grows the linked tree out of the cache, links every new block to its parent and, if nothing is dropped, loses no block |
| ForkView.RunKeepsBest | libraries/chain/fork_database.cpp:112-123 | any sequence of linking steps keeps the head linked and unbeaten (by number, and in emergency mode by smallest id) |
| ForkDb.ForkDatabase.LinkItem | libraries/chain/fork_database.cpp:82-126 | exactly when a block is known, too old, unlinkable (its parent is not linked, though it names one and there is a head) or linked; a linked block is entered with everything that waited for it |
| ForkDb.ForkDatabase.LinkWaiting | libraries/chain/fork_database.cpp:135-146 | links all blocks waiting for an item, depth first; afterwards nothing waits for it; fails only on a waiting block outside the window |
| ForkDb.ForkDatabase.PushBlock | libraries/chain/fork_database.cpp:68-80 | keeps every live parent link naming `previous` with a number one less, caches an unlinkable block, leaves nothing linkable waiting, and refuses as too old exactly the blocks a whole window or more below the head |
| ForkDb.OutsideMeans | libraries/chain/fork_database.cpp:91-98 | a block is outside the window exactly when it is a whole window or more below the head |
| ForkDb.PushExtends | libraries/chain/fork_database.cpp:68-146 | a push forgets nothing: items, their parent links and linked blocks stay, on every exit |
| ForkView.RunBare | libraries/chain/fork_database.cpp:82-146 | linking, in whatever order, forgets nothing and leaves waiting blocks without parent links |
| ForkDb.ForkDatabase.StartBlock | libraries/chain/fork_database.cpp:24-28 | the new head and index; nothing linkable is left waiting if and only if nothing waited for this block |
| ForkDb.ForkDatabase.EnterBase | libraries/chain/fork_database.cpp:30-50 | a new base is linked, what waited for it follows, both invariants are kept |
| ForkDb.ForkDatabase.InsertAsBase | libraries/chain/fork_database.cpp:30-50 | a known block only has its children's links repaired; a new one is entered as a base first |
| ForkDb.ForkDatabase.RepairChildLinks | libraries/chain/fork_database.cpp:52-62 | exactly the linked children without a live parent link get one |
| ForkDb.ForkDatabase.SetMaxSize | libraries/chain/fork_database.cpp:148-180 | both indexes lose exactly the blocks whose number is more than the window below the head, both invariants are kept |
| ForkDb.PruneBelow | libraries/chain/fork_database.cpp:148-180 | erasing from the lowest number up leaves exactly the blocks at or above the bound |
| ForkDb.PruneKeepsClosed | libraries/chain/fork_database.cpp:148-180 | pruning keeps the tree parent-closed from the raised base |
| ForkDb.ForkDatabase.Remove | libraries/chain/fork_database.cpp:327-329 | removes one block from the index and keeps both invariants |
| ForkDb.ForkDatabase.PopBlock | libraries/chain/fork_database.cpp:17-22 | the head moves to its parent if and only if there is a live one, one number lower |
| ForkDb.ForkDatabase.SetHead | libraries/chain/fork_database.cpp:319-321 | sets the head and keeps both invariants |
| ForkDb.ForkDatabase.Reset | libraries/chain/fork_database.cpp:11-15 | forgets head and both indexes |
| ForkDb.ForkDatabase.FetchBranchFrom | libraries/chain/fork_database.cpp:224-294 | the three walking loops compute the recursive definition of the two branches |
| ForkBranches.BranchesConverge | libraries/chain/fork_database.cpp:224-294 | the branches are non-empty parent-linked paths from the tips, their lengths differ by the tips' numbers, their last blocks share number and `previous` |
| ForkBranches.BranchesShareOnlyLast | libraries/chain/fork_database.cpp:224-294 | the branches share no block except possibly the last one |
| ForkBranches.LastDiffers | libraries/chain/fork_database.cpp:224-294 | branches with more than one block each end in different blocks |
| ForkBranches.BranchesExist | libraries/chain/fork_database.cpp:224-294 | the branches exist if and only if the ancestor chains of the tips meet below one `previous` |
| ForkBranches.BranchesSwap | libraries/chain/fork_database.cpp:224-294 | exchanging the tips exchanges the branches |
| ForkBranches.BranchesAncestor | libraries/chain/fork_database.cpp:224-294 | the branches of a block and its ancestor are the way between them and the ancestor alone |
| ForkDb.ForkDatabase.WalkMainBranch | libraries/chain/fork_database.cpp:296-306 | the loop finds the head's ancestor of that number |
| ForkDb.ForkDatabase.FetchOnMainBranch | libraries/chain/fork_database.cpp:308-317 | the only block of a number, or the walk when there are several |
| ForkBranches.LookupIsAncestor | libraries/chain/fork_database.cpp:296-317 | in a tree closed from a base the by-number lookup is the head's ancestor for every number from the base to the head |
| ForkConvergence.LinkedIffConnected | libraries/chain/fork_database.cpp:82-146 | after any deliveries exactly the blocks connected to the root are linked |
| ForkConvergence.SettledIsUnique | libraries/chain/fork_database.cpp:112-123 | two databases that received one set of blocks hold the same linked and waiting blocks and heads of one number, in emergency mode the same head |
| ForkConvergence.PushKeepsSettled | libraries/chain/fork_database.cpp:68-146 | delivering one more block keeps the invariant that leads to convergence |
| ForkConvergence.Deliver | libraries/chain/fork_database.cpp:68-146 | in either mode a database started at the root and given blocks in some order settles; no linked block is higher than its head, and in emergency mode none of the same number has a smaller digest |
| ForkConvergence.Converge | libraries/chain/fork_database.cpp:68-146 | every two delivery orders of one set end with the same linked and waiting blocks and with heads of the greatest linked number; in emergency mode with the same head, the one of that number with the least digest |
| ForkConvergence.HeadIsLeastHighest | libraries/chain/fork_database.cpp:112-123 | the head is a highest linked block, and in emergency mode the one of them with the least digest |
| ForkConvergence.SiblingOrder | libraries/chain/fork_database.cpp:112-123 | for two higher siblings the order of arrival does not matter if and only if emergency mode is on, and then the smaller digest wins |
| ForkChoice.BranchInfo | libraries/chain/database.cpp:1615-1633 | a branch weighs the votes of its distinct elected producers, and is marked by a committee block |
| ForkChoice.Compare | libraries/chain/database.cpp:1608-1672 | computes the preference between two tips |
| ForkChoice.ProducersMeans | libraries/chain/database.cpp:1615-1633 | the producers weighed are exactly the validators of the branch other than the committee, and a branch is marked exactly by a committee block |
| ForkChoice.CommitteePreferred | libraries/chain/database.cpp:1649-1652 | in emergency mode, of two branches only one of which has a committee block, that one is preferred, in either order |
| ForkChoice.HeavierPreferred | libraries/chain/database.cpp:1654-1668 | otherwise the sign of the preference is that of the weights, the higher tip counting with a tenth more, rounded down |
| ForkChoice.SwitchRule | libraries/chain/database.cpp:1860-1878 | exactly which tip is switched to, from the blocks of the branches and their weights: never a lower one, the committee's in emergency mode, a heavier one of the same height, and a higher one unless the other outweighs it by more than a tenth |
| ForkChoice.PreferenceAntisymmetric | libraries/chain/database.cpp:1608-1672 | exchanging the tips negates the preference, for every pair |
| ForkChoice.NoSwitchBack | libraries/chain/database.cpp:1862-1874 | with unchanged votes a tip that was left is never switched back to, in any later fork database that still holds the items with their parent links and the linked blocks |
| ForkChoice.PreferenceHasCycle | libraries/chain/database.cpp:1608-1672 | three tips of one height with two fork points, each of which is preferred to the next |
| ForkChoice.PreferenceTransitive | libraries/chain/database.cpp:1608-1672 | among tips of equal height that fork at one point preference is transitive |
| ForkChoice.StairsCycle | libraries/chain/database.cpp:1608-1672 | three tips of different heights above one fork point, each of which is preferred to the next |
| ForkChoice.CircleNeedsTwoForks | libraries/chain/database.cpp:1862-1874 | a circle of the switch rule needs three tips of equal height that do not fork at one point |
| Chain.ChainIsReplay | libraries/chain/database.cpp:1904-2156 | the state of a chain without relaxed blocks is the replay of its blocks |
| Chain.SameBlocksSameState | libraries/chain/database.cpp:1904-2156 | two nodes with one chain of blocks are in one state |
| Chain.GainedStep | libraries/chain/database.cpp:2008-2035 | what applying a branch block by block gains up to its first failure |
| Chain.GainedWhole | libraries/chain/database.cpp:2008-2035 | a branch is gained as a whole exactly when every block links to the one before and applies, with the schedule check as asked for or, after a mismatch, with it off |
| NodeDatabase.Database.PopBlock | libraries/chain/database.cpp:2608-2631 | pops exactly one block and its state, and fails without change when the fork database cannot |
| NodeDatabase.Database.PopTo | libraries/chain/database.cpp:1967-1991 | pops towards a block and never below the LIB; how many blocks are left after how many pops, committed ones staying |
| NodeDatabase.Database.PopExactly | libraries/chain/database.cpp:1967-1991 | when the target is reached, when the LIB stops the walk, when popping throws and when committed blocks stay, with the exact height each leaves |
| NodeDatabase.Database.ApplyBlock | libraries/chain/database.cpp:2163-2195 | a block is applied only on its parent, with exactly the state of the transition |
| NodeDatabase.Database.ApplyRelaxed | libraries/chain/database.cpp:2008-2033 | exactly when a block goes on the head and with which state, in terms of the two tries; `relaxed` exactly when the first was a schedule mismatch and the second applied; what a failure commits |
| NodeDatabase.Database.ApplyBranch | libraries/chain/database.cpp:2002-2036 | the chain gains exactly the branch's entries up to the first failure; a branch whose every block links and applies is gained as a whole, and `relaxed` exactly when one of its blocks met a mismatch |
| NodeDatabase.Database.Reapply | libraries/chain/database.cpp:2077-2082 | re-applying the old branch adds exactly its blocks and rebuilds the popped entries |
| NodeDatabase.Database.RecoverOld | libraries/chain/database.cpp:2034-2104 | the recovery restores the old chain when the fork database can be popped far enough, and otherwise throws at an exactly known height |
| NodeDatabase.Database.AdoptNew | libraries/chain/database.cpp:1993-2104 | from the fork point the new branch is adopted as a whole or recovered from |
| NodeDatabase.Database.PopOld | libraries/chain/database.cpp:1967-1991 | popping the old branch ends at the fork point, at the LIB, or where the fork database can be popped no further, with the exact chain |
| NodeDatabase.Database.Reorganise | libraries/chain/database.cpp:1967-2104 | for every depth of the fork database: the new chain, exactly the old chain with the old tip as fork head, or the exact remainder; and the LIB when it is met |
| NodeDatabase.Database.ExtendLinear | libraries/chain/database.cpp:1993-2060 | a switch that only extends the head ends with the whole branch (its top corrected if the schedule check was off), with the old chain, or with the exact remainder |
| NodeDatabase.Database.Retreat | libraries/chain/database.cpp:2043-2060 | a failed extension is popped back to where it started |
| NodeDatabase.Database.CorrectTop | libraries/chain/database.cpp:2117-2145 | the top entry gets the state of the slot correction of its block and counts as not plain, all others stay |
| NodeDatabase.Database.SwitchFork | libraries/chain/database.cpp:1904-2156 | either kind of switch keeps the irreversible prefix and ends as computed from the two branches, the depth of the fork database, the LIB and the committed block; a completed switch leaves the index as it was, a recovered one the old head |
| ForkSwitch.SwitchAdopts | libraries/chain/database.cpp:1904-2156 | a switch to a branch whose every block links and applies, after a mismatch with the check off, adopts the whole branch and its tip |
| ForkSwitch.BranchIsTop | libraries/chain/database.cpp:1936-1955 | the head's branch in the fork database is the top of the applied chain, block for block |
| NodeDatabase.Database.PruneStale | libraries/chain/database.cpp:2219-2228 | exactly the other blocks of that height with an unknown parent are dropped |
| ForkSwitch.PrunedMeans | libraries/chain/database.cpp:2219-2228 | of the linked blocks exactly the others of that height whose parent is neither linked nor waiting are dropped, and nothing else changes |
| NodeDatabase.Database.ApplyAbove | libraries/chain/database.cpp:2252-2290 | the chain gains exactly the entries of the branch above the head up to the first failure, and success means all of it |
| ForkSwitch.NewsLink | libraries/chain/database.cpp:2252-2275 | what is applied above the head is a chain of blocks linked one to the next from the head up to the fork database's head, and all of it when the one descends from the other |
| NodeDatabase.Database.AbortCascade | libraries/chain/database.cpp:2291-2315 | an aborted cascade returns to its start when it can; the fork database restarts at the head where it failed |
| NodeDatabase.Database.Cascade | libraries/chain/database.cpp:2244-2317 | nothing to do, the whole branch above the head, or after a failure the exact chain and the fork database restarted where it failed; blocks applied before stay |
| NodeDatabase.Database.CheckOld | libraries/chain/database.cpp:1681-1739 | when a block at or below the head is ignored, when it fails for an unknown parent, and when handling goes on with a known parent |
| NodeDatabase.Database.PushToFork | libraries/chain/database.cpp:1802-1848 | handling goes on only with the block linked; a refused block waits in the cache |
| NodeDatabase.Database.WantsSwitch | libraries/chain/database.cpp:1860-1878 | the switch rule by votes since hardfork 12 and by height before, each stated outright |
| NodeDatabase.Database.LeaveHead | libraries/chain/database.cpp:1904-1934 | the branches it fetches, and the end of the switch between them as `SwitchLogged` states it: new chain, exactly the old chain, or the exact remainder |
| NodeDatabase.Database.ExtendHead | libraries/chain/database.cpp:2163-2319 | an accepted block is the next one on the unchanged chain |
| NodeDatabase.Database.PushBlock | libraries/chain/database.cpp:1674-2321 | the handling of a block relates the nodes before and after as `Handles` states it: on every path the chain up to the LIB recorded at the start stays; known blocks and blocks too far ahead change nothing; an accepted block on the head extends it; a switch goes only to a wanted tip and ends exactly as `SwitchLogged` states it; outside emergency mode only a fall lowers a head |
| NodeDatabase.Database.PushAll | libraries/chain/database.cpp:1674-2321 | a run of blocks has a trace of such steps; committed blocks never change, without relaxation the state is the replay of the chain, the tips switched to rise until the first fall, and no switch is undone by the next one |
| NodeRun.TargetsRise | libraries/chain/database.cpp:1850-1934 | in every run outside emergency mode without a fall the tips switched to rise strictly, each is the head its switch led to, and the node stays past the last of them |
| NodeRun.RisesUntilFall | libraries/chain/database.cpp:1850-1934 | the same for the part of any run before its first fall |
| NodeRun.SwitchesUp | libraries/chain/database.cpp:1860-1878 | a switch goes above every tip that chain and fork database are past |
| NodeRun.StaysPast | libraries/chain/database.cpp:1674-2321 | a push that neither falls nor switches leaves chain and fork database past what they were past |
| NodeRun.NoWayBack | libraries/chain/database.cpp:1862-1874 | after a switch, and blocks that were put into the fork database and refused, no switch back to the tip that was left is started while the votes are the same |
| NodeRun.RefusedKeep | libraries/chain/database.cpp:1802-1878 | blocks that are put into the fork database and refused leave the chain as it is and the fork database extended |
| NodeRun.AcceptedRises | libraries/chain/database.cpp:1674-2321 | outside emergency mode an accepted block raises the head of a node whose fork database stands on it |
| ForkSwitch.PushRises | libraries/chain/fork_database.cpp:68-126 | outside emergency mode pushing a block moves the fork database's head only to a higher block |
| ForkSwitch.SwitchRises | libraries/chain/database.cpp:1862-1874 | a fork database whose head was the head of the chain asks only for higher branches |
| NodeWitness.FailedSwitch | libraries/chain/database.cpp:2034-2104 | a node on A1-A2 that is offered B1-B2-B3 with a bad B3 ends on B1: the recovery throws |
| NodeWitness.StoppedSwitch | libraries/chain/database.cpp:1967-1991 | the same node with A1 irreversible ends on A1 |
| NodeWitness.BrokenCascade | libraries/chain/database.cpp:2291-2315 | a node to which A2 and a bad A3 come before A1 ends on A1 with a fork database that starts at A2 |
| Finality.NthElement | libraries/chain/database.cpp:6470-6481 | the order statistic: fewer than k+1 entries below it, more than k at most it |
| Finality.ChosenIsGreatestSupported | libraries/chain/database.cpp:6470-6481 | the chosen number is the greatest one supported by at least n - floor((100% - threshold) n) slots |
| Finality.SupportersCount | libraries/chain/database.cpp:6441-6481 | the support of a number is the count of the slots at or above it |
| Finality.SupportQuorum | libraries/chain/database.cpp:6470-6481 | enough slots means three quarters of them |
| Finality.QuorumsDiffer | libraries/chain/database.cpp:6141-6230 | the quorum of confirmations against the quorum of slots, for every schedule size |
| Finality.FinalityState.ApplyBlock | libraries/chain/database.cpp:6424-6510 | LIB never falls and never passes the head, in emergency mode stays below it, rises only to supported numbers and to the greatest of them |
| Finality.FinalityState.MoveLib | libraries/chain/database.cpp:6441-6510 | the LIB update proper, with the emergency cap |
| Finality.FinalityState.Confirm | libraries/chain/database.cpp:6141-6200 | a confirmation marks the slots of a scheduled validator and moves the LIB by one exactly outside emergency mode, for the next block, with a quorum of marked slots |
| Finality.FinalityState.MarkSlots | libraries/chain/database.cpp:6169-6186 | the loop marks exactly the validator's slots and counts all that are marked |
| Finality.ConfirmationsCount | libraries/chain/database.cpp:6169-6186 | the count of confirmations is that of the marked slots |
| Finality.WalkIsComplete | libraries/chain/database.cpp:5962-6131 | one pass over the waiting blocks is enough: none that is left has its quorum, and the LIB stays at most at the head |
| Finality.WalkIsSound | libraries/chain/database.cpp:5962-6131 | every block the LIB moves over in a pass had its quorum |
| Finality.FinalityState.CheckWaiting | libraries/chain/database.cpp:5962-6131 | the loop is that pass, and does nothing in emergency mode |
| Finality.FinalityState.Await | libraries/chain/database.cpp:6376-6422 | blocks at or below the LIB and the oldest ones go, the head waits for the schedule without its producer, without any confirmation |
| Finality.SlotsForMeans | libraries/chain/database.cpp:6403-6420 | a block starts without confirmations, and its slots name exactly the entries of the schedule other than its producer, each as often |
| Finality.FinalityState.Step | libraries/chain/database.cpp:5393-5419 | a whole block: the LIB moves by support first and by confirmations from there, and the block waits after the others; in emergency mode the LIB stays below the head |
| Finality.FinalityState.Run | libraries/chain/database.cpp:5393-5419 | over every run of blocks, confirmations and schedule changes the LIB never falls and never passes the head, and every number it passes, unless a block with it waited already at the start, is supported by three quarters of the slots or was confirmed, since the event that applied it, by validators other than its producer that fill three quarters of the slots, rounded down |
| Finality.LibJustified | libraries/chain/database.cpp:5962-6200 | every number the LIB passes in a run was supported or confirmed by a quorum since its block was applied |
| Finality.WaitingStems | libraries/chain/database.cpp:6141-6422 | every waiting block goes back to the event that applied it, and each of its marks to a confirmation since then |
| Finality.MarksFilled | libraries/chain/database.cpp:6169-6186 | the marks of a block count at most the slots of the schedule whose validators confirmed it |
| Finality.FinalityState.Handle | libraries/chain/database.cpp:5393-5419 | what one event does to support, schedule, LIB, head, mode and waiting blocks |
| VirtualTime.AdvanceOnTime | libraries/chain/database.cpp:3067-3117 | no scheduled time is ever below the current virtual time |
| VirtualTime.PassedOver | libraries/chain/database.cpp:3067-3117 | every update that passes a validator over uses up a turn of another one |
| VirtualTime.WaitIsBounded | libraries/chain/database.cpp:3067-3117 | nobody is passed over more often than the wait computed at the start |
| VirtualTime.WaitAfterService | libraries/chain/database.cpp:3067-3117 | the wait of a validator that was just served is bounded by the others' laps within its own |
| VirtualTime.LapMeans | libraries/chain/database.cpp:3101-3103 | a lap is the whole length divided by the counted votes plus one, rounded down |
| VirtualTime.LapsInProportion | libraries/chain/database.cpp:3097-3103 | with k times the votes, each plus one, a lap is at most the k-th part |
| VirtualTime.DueMoves | libraries/chain/database.cpp:3067-3117 | over every run of updates the due time moves by one lap for each service and by exactly what the services were late |
| VirtualTime.WaitsALap | libraries/chain/database.cpp:3067-3117 | between two services a whole lap of virtual time goes by |
| VirtualTime.VotesSpeedUp | libraries/chain/database.cpp:3067-3117 | between two services of one validator another with k times its votes, each plus one, is served k - 1 times, where every missing service is made up for by a whole lap that the others were late |
| VirtualTime.NeverLate | libraries/chain/database.cpp:3067-3117 | a validator whose services are less than a lap late in all is served at least k - 1 times |
| VirtualTime.ServedTogether | libraries/chain/database.cpp:3067-3117 | a run in which a validator with four times the votes of another, each plus one, is served once between two services of the other, because both are served in every update; its services are two laps late |
| Scheduler.EventuallySupports | libraries/chain/database.cpp:3067-3117 | every eligible validator outside the top gets a support slot within finitely many updates |
| Scheduler.Passed | libraries/chain/database.cpp:3067-3117 | an update that gives an eligible validator outside the top no slot makes its wait shorter |
| Scheduler.Schedule.UpdateRound | libraries/chain/database.cpp:3015-3117 | one update of roster and clock; it gives a validator a slot of the schedule, restarts the clock or shortens the wait |
| Scheduler.Schedule.RunUntilPlaced | libraries/chain/database.cpp:3015-3117 | as many updates as its trace lists place every eligible validator in the schedule within its wait and one update, in emergency mode too, unless the clock is restarted |
| Scheduler.LeadersHaveMostVotes | libraries/chain/database.cpp:3044-3065 | nobody with a key outside the top, the committee apart since hardfork 12, has more votes than one inside, and the top is as full as it can be |
| Scheduler.SupportFillsRoom | libraries/chain/database.cpp:3067-3095 | the support slots are filled exactly unless everyone was considered |
| Scheduler.SupportDueFirst | libraries/chain/database.cpp:3067-3095 | an eligible validator outside the top that gets no support slot is due no earlier than all who get one, and no room is left |
| Scheduler.InterleaveKeepsAll | libraries/chain/database.cpp:3206-3235 | interleaving keeps every entry as often as it was |
| Scheduler.InterleaveAlternates | libraries/chain/database.cpp:3206-3235 | top validators hold the even and support the odd slots while both last |
| Scheduler.InterleaveTail | libraries/chain/database.cpp:3206-3235 | what is left of the longer list follows in its own order |
| Scheduler.ScheduleHoldsEachOnce | libraries/chain/database.cpp:3038-3235 | each selected validator has exactly one slot, all have keys, the committee none after hardfork 12 |
| Scheduler.OverflowShows | libraries/chain/database.cpp:3097-3107 | the wrapped sum is smaller than a summand exactly when the 128-bit clock overflowed |
| Scheduler.Schedule.SelectTop | libraries/chain/database.cpp:3044-3065 | the loop takes the first eligible validators by votes |
| Scheduler.Schedule.SelectSupport | libraries/chain/database.cpp:3067-3095 | the loop serves by due time until the support slots are filled |
| Scheduler.Schedule.Serve | libraries/chain/database.cpp:3097-3117 | everyone served moves ahead by a lap, the whole length divided by its counted votes plus one, or an overflow resets the clock for everyone |
| Scheduler.Schedule.Reset | libraries/chain/database.cpp:6814-6829 | all clocks restart at zero |
| Scheduler.Schedule.Build | libraries/chain/database.cpp:3206-3235 | the slots hold the interleaving without a gap and the rest is empty |
| Scheduler.Schedule.Override | libraries/chain/database.cpp:3272-3358 | every slot without an available validator goes to the committee, elected slots are exactly the available ones and with the committee's make the maximum, and emergency mode ends exactly with enough of them |
| Scheduler.Schedule.AdjustVote | libraries/chain/database.cpp:3533-3568 | votes change by the delta, the due time is the rest of the lap at the new speed or the end of the clock, and is never in the past |
| Scheduler.DueExact | libraries/chain/database.cpp:3533-3568 | the 128-bit due time is the unbounded one capped at the end of the clock |
| Scheduler.CountedMeans | libraries/chain/database.cpp:3548-3553 | a penalty takes its percentage of the votes, rounded down, and at most all of them |
| Scheduler.DueMeans | libraries/chain/database.cpp:3533-3568 | the rest of a lap is done at the speed of the counted votes plus one, up to the end of the clock |
| Scheduler.RevoteDelays | libraries/chain/database.cpp:3533-3568 | a vote change of nothing makes the lap longer by the time since the last service |
| Scheduler.Schedule.Update | libraries/chain/database.cpp:3015-3358 | a whole schedule update, never more slots than the maximum; in emergency mode the available validators keep their slots and the committee has the others |
| ProxyGraph.HopUnique | libraries/chain/chain_evaluator.cpp:1094-1109 | in an acyclic graph an account is above another at one distance only |
| ProxyGraph.LinkKeepsAcyclic | libraries/chain/chain_evaluator.cpp:1094-1116 | a proxy that is not below the account creates no cycle |
| ProxyGraph.WeightAboveLinked | libraries/chain/database.cpp:3458-3486 | linking adds to each weight above exactly what stands that much closer to the linked account |
| ProxyVotes.PropagateGains | libraries/chain/database.cpp:3458-3486 | propagation adds to each cached vote exactly its gain |
| ProxyVotes.LinkExact | libraries/chain/chain_evaluator.cpp:1112-1121 | taking a proxy and propagating keeps every cache exact |
| ProxyVotes.UnlinkExact | libraries/chain/chain_evaluator.cpp:1086-1092 | giving a proxy up after propagating the negated votes keeps every cache exact |
| ProxyVotes.SharesExact | libraries/chain/database.cpp:2780-2812 | propagating a change of shares keeps every cache exact |
| ProxyLedger.RunExact | libraries/chain/chain_evaluator.cpp:1079-1148 | over every run of proxy set, change, clear, share changes and account creations the graph stays acyclic and each cached vote at distance d is the sum of the shares exactly d hops below |
| ProxyLedger.RunFromGenesis | libraries/chain/chain_evaluator.cpp:1079-1148 | the same from an empty table |
| ProxyLedger.SilentBurn | libraries/chain/database.cpp:3587-3680 | zeroing shares without propagation keeps the caches exact if and only if there is no proxy or there are no shares |
| ProxyLedger.Ledger.AdjustArray | libraries/chain/database.cpp:3458-3486 | the recursion with its inner loop is the propagation of an array of changes |
| ProxyLedger.Ledger.AdjustOne | libraries/chain/database.cpp:3488-3505 | the scalar recursion is the propagation of a change of own shares |
| ProxyLedger.Ledger.CheckChain | libraries/chain/chain_evaluator.cpp:1094-1109 | accepts exactly proxies with a short enough chain that does not contain the account |
| ProxyLedger.CanProxyMeans | libraries/chain/chain_evaluator.cpp:1094-1109 | another account is accepted as a proxy exactly when it is a new one, has at most two accounts above it and closes no loop |
| ProxyLedger.ClosesNoLoop | libraries/chain/chain_evaluator.cpp:1094-1116 | the graph with a new proxy is acyclic exactly when the account is not above it |
| ProxyLedger.Ledger.SetProxy | libraries/chain/chain_evaluator.cpp:1079-1127 | when the operation is accepted, what it leaves, and that the caches stay exact; a refusal changes nothing |
| ProxyLedger.Ledger.ClearProxy | libraries/chain/chain_evaluator.cpp:1134-1148 | voting gives the proxy up and keeps the caches exact |
| ProxyLedger.Ledger.ChangeShares | libraries/chain/database.cpp:2780-2812 | vesting creation and withdrawal keep the caches exact |
| ProxyLedger.AppliedMeans | libraries/chain/chain_evaluator.cpp:1079-1148 | what every change does to the shares and the proxy of each account |
| Bytes.ValueDigits | libraries/chain/block_log.cpp:45-62 | a 64-bit word reads back as the number written |
| Bytes.WordOfValue | libraries/chain/block_log.cpp:54-62 | words are equal exactly when their values are |
| Bytes.DigitsAt | libraries/chain/block_log.cpp:45-62 | each byte of a written number by its place, lowest first |
| LogImage.ReadStart | libraries/chain/block_log.cpp:74-89 | reading at a record's start gives its block and the next start, if and only if the block fits the read limit |
| LogImage.LastStart | libraries/chain/block_log.cpp:91-96 | the last word of the block file is the start of the last record |
| LogImage.IndexAt | libraries/chain/block_log.cpp:64-72 | the index holds the start of every record |
| BlockLog.Log.Append | libraries/chain/block_log.cpp:196-220 | accepts exactly a block whose number matches the index size, and extends both files by its record and entry |
| BlockLog.Log.ReadByNum | libraries/chain/block_log.cpp:271-286 | every appended block reads back by number; other numbers are missing |
| BlockLog.Log.ConstructIndex | libraries/chain/block_log.cpp:116-133 | the scan rebuilds byte for byte the index that the appends wrote, if and only if every block fits the read limit |
| BlockLog.Log.Open | libraries/chain/block_log.cpp:135-194 | opening over any index file: when it succeeds, the head it finds and the index it leaves |
| LogRecovery.WholeEntriesLost | libraries/chain/block_log.cpp:164-182 | an index that lost whole entries is always restored |
| LogRecovery.EntryCut | libraries/chain/block_log.cpp:164-182 | an index cut inside an entry is restored if and only if the straddling word is not the last position |
| LogRecovery.PrefixMended | libraries/chain/block_log.cpp:164-182 | which strict prefixes of the index are restored, for every length |
| LogRecovery.CrashMended | libraries/chain/block_log.cpp:205-216 | a crash after the record write, before or inside the index write, is always mended |
| LogRecovery.CutNotMended | libraries/chain/block_log.cpp:164-182 | a concrete log and cut that opening takes for current |
| Vesting.ConvertedBound | libraries/chain/include/graphene/chain/global_property_object.hpp:55-62 | redeeming shares never takes more than the fund holds and empties it only with the last share |
| Vesting.MintedMeans | libraries/chain/database.cpp:2780-2812 | shares are bought at the price of the fund, rounded down by less than one, and the first ones at a thousand for a token |
| Vesting.ConvertedMeans | libraries/chain/include/graphene/chain/global_property_object.hpp:55-62 | shares are redeemed at the price of the fund, rounded down by less than one token |
| Vesting.NoProfit | libraries/chain/database.cpp:2780-2812 | buying shares and redeeming them at once gives at most what was paid |
| Vesting.VestAllSound | libraries/chain/database.cpp:2780-2812 | any payments into vesting keep total shares equal to the sum of account shares, and a fund exactly where there are shares |
| Vesting.VestedMeans | libraries/chain/database.cpp:2780-2812 | a payment buys shares for its payee alone, at the price of the fund |
| Vesting.VestAllOthers | libraries/chain/database.cpp:2780-2812 | payments leave the shares of everybody else alone |
| Vesting.RedeemAllConserves | libraries/chain/database.cpp:3779-3837 | what leaves the fund arrives in balances |
| Vesting.RedeemedMeans | libraries/chain/database.cpp:3779-3837 | redeemed shares leave the total, and their worth goes to their payee alone |
| Payments.PayEach | libraries/chain/database.cpp:2974-3012 | everybody gets exactly what the payments to them add up to |
| Awards.SharesBracket | libraries/chain/database.cpp:4319-4342 | the inverse formula brackets the payout: award(rs) <= ra <= award(rs + 1) |
| Awards.AwardMonotone | libraries/chain/database.cpp:4299-4317 | more shares never earn less |
| Awards.AwardAtLeast | libraries/chain/database.cpp:4299-4317 | an award is worth at least an amount exactly when its part of the fund is |
| Awards.NeededSuffices | libraries/chain/chain_evaluator.cpp:459-470 | the energy charged always buys the shares needed |
| Awards.NeededBound | libraries/chain/chain_evaluator.cpp:459-466 | the charge exceeds the offered energy by at most one unit, and exactly when all shares are needed below full energy |
| Awards.BoughtMeans | libraries/chain/chain_evaluator.cpp:459-470 | energy buys its percentage of the effective shares, rounded down |
| Awards.NeededMeans | libraries/chain/chain_evaluator.cpp:459-466 | the charge is the least energy whose part of the shares on offer is more than what is needed, and at most all |
| Awards.QuoteSound | libraries/chain/chain_evaluator.cpp:415-490 | a granted fixed award pays at least the request and at most the fund, buys enough shares, and leaves negative energy exactly in one case |
| Awards.QuoteGranted | libraries/chain/chain_evaluator.cpp:415-490 | a request that passes the other checks is refused for its payout exactly when it buys the shares of the inverse formula and these earn less than was asked |
| Awards.EnergyBelowZero | libraries/chain/chain_evaluator.cpp:465-502 | a request after which the energy is -1 |
| EconomyRules.SplitTotal | libraries/chain/database.cpp:4215-4228 | proportional parts lose less than one token each to rounding |
| EconomyRules.DistributionExact | libraries/chain/database.cpp:4207-4237 | a pool is given out to the last token and the dust is less than one token per stakeholder |
| EconomyRules.PartMeans | libraries/chain/database.cpp:4018-4072 | a part is its percentage of the amount, rounded down by less than one |
| EconomyRules.EnergyReturns | libraries/chain/chain_evaluator.cpp:317-326 | energy comes back evenly, all of it in the regeneration time, and never rises above all |
| EconomyRules.EpochBlocks | libraries/chain/database.cpp:4181-4205 | a vote counts for exactly the blocks of the epoch from its creation on |
| EconomyRules.StakesMeans | libraries/chain/database.cpp:4181-4205 | every voter with a positive weight has a stake of its weight for each block that counts, and nobody else |
| EconomyRules.RoutedWithin | libraries/chain/database.cpp:3754-3813 | the routes of an account never take more than the amount withdrawn |
| EconomyRules.ReroutedPercent | libraries/chain/chain_evaluator.cpp:1021-1077 | setting one route adds at most its percentage to those that are walked, so the 16-bit sum cannot wrap |
| EconomyRules.ReroutedMeans | libraries/chain/chain_evaluator.cpp:1030-1064 | setting a route leaves the routes to other accounts, and the account has the new one, or none for no percentage |
| EconomyRules.PlanRuns | libraries/chain/database.cpp:3736-3833 | an account that has what is left of its plan withdraws its rate once a day until exactly what was planned is withdrawn, and then the plan is over |
| EconomyRules.LastPartExact | libraries/chain/database.cpp:3736-3744 | the last part is what is missing exactly when only whole rates were withdrawn before |
| EconomyRules.RemainingMeans | libraries/chain/database.cpp:4344-4359 | exactly the award shares that have not expired remain, each as often |
| EconomySteps.PartingKeeps | libraries/chain/database.cpp:3754-3837 | a withdrawal keeps shares and total in step, the fund non-negative, and moves tokens only from the fund to balances |
| EconomySteps.PartingMeans | libraries/chain/database.cpp:3754-3837 | whose shares and balances a withdrawal changes: auto-vest routes bring shares, the account loses what it withdraws, and tokens go to the account and the payees of the other routes alone |
| EconomySteps.PaymentsFit | libraries/chain/database.cpp:2974-3012 | the committee's payments leave at least one part in the fund |
| EconomySteps.PaidMeans | libraries/chain/database.cpp:2974-3012 | a request gets what is left for it, but at most its part, and is paid in full exactly when nothing is left |
| EconomySteps.RatifyMeans | libraries/chain/chain_evaluator.cpp:731-780 | receiver and agent can each answer once and in time, and both together approve |
| EconomySteps.ReleaseMeans | libraries/chain/chain_evaluator.cpp:805-855 | who can release an escrow to whom before and after it expires and in a dispute, and never more than it holds |
| EconomySteps.AwardMints | libraries/chain/chain_evaluator.cpp:505-542 | a fixed award whose beneficiaries are paid more than was requested |
| Economy.Books.constructor | libraries/chain/database.cpp:4951-5066 | genesis is conserved |
| Economy.Books.CreateVesting | libraries/chain/database.cpp:2780-2812 | tokens become shares at the current price |
| Economy.Books.ProcessFunds | libraries/chain/database.cpp:4018-4072 | where each of the issued tokens goes; supply and holdings grow by the same amount |
| Economy.Books.CollectStakes | libraries/chain/database.cpp:4181-4205 | the time-weighted stakes of a validator's voters |
| Economy.Books.GiveOut | libraries/chain/database.cpp:4168-4238 | one validator's pool becomes shares of its stakeholders, the dust its own, nothing is lost |
| Economy.Books.DistributeEpoch | libraries/chain/database.cpp:4152-4239 | at an epoch's end and only then all listed pools are emptied, conserving all tokens |
| Economy.Books.PlanWithdrawal | libraries/chain/chain_evaluator.cpp:969-1019 | when a withdrawal plan is accepted and what it records |
| Economy.Books.DepositShares | libraries/chain/database.cpp:3754-3777 | over the routes that are walked the first pass credits exactly the auto-vest ones |
| Economy.Books.DepositTokens | libraries/chain/database.cpp:3779-3807 | over the routes that are walked the second pass redeems exactly the others, one after the other |
| Economy.Books.Withdraw | libraries/chain/database.cpp:3725-3843 | the new vesting state, balances and plan of one due account, whose next withdrawal is a day later or never; nothing is lost |
| Economy.Books.ProcessWithdrawals | libraries/chain/database.cpp:3717-3844 | all due withdrawals, one after the other in the given order, with the exact tables they leave; nothing is lost |
| Economy.Books.SetRoute | libraries/chain/chain_evaluator.cpp:1021-1077 | when a route is accepted; the routes of an account that are walked never exceed one hundred percent |
| Economy.Books.PayRequests | libraries/chain/database.cpp:2974-3012 | every approved request is paid its part, the fund keeps at least one part |
| Economy.Books.Empty | libraries/chain/database.cpp:3587-3612 | what an emptied account yields, a positive balance and redeemed shares |
| Economy.Books.Burn | libraries/chain/database.cpp:3587-3647 | what the null and anonymous accounts hold leaves supply and holdings alike |
| Economy.Books.ClaimForCommittee | libraries/chain/database.cpp:3649-3681 | what the committee account holds goes to the committee fund |
| Economy.Books.Claim | libraries/chain/database.cpp:4270-4297 | a claim never overdraws the reward fund; its shares compete until they expire |
| Economy.Books.ExpireAwards | libraries/chain/database.cpp:4344-4359 | the competing shares are always exactly those that have not expired |
| Economy.Books.PayShared | libraries/chain/chain_evaluator.cpp:363-392 | beneficiaries get their cuts of the payout and the receiver the rest |
| Economy.Books.GiveAward | libraries/chain/chain_evaluator.cpp:305-395 | when an award is accepted, whom it pays and that it conserves tokens |
| Economy.Books.GiveFixedAward | libraries/chain/chain_evaluator.cpp:397-548 | when a fixed award is accepted, whom it pays, and that holdings grow by exactly the excess of the cuts over the request |
| Economy.Books.EscrowTransfer | libraries/chain/chain_evaluator.cpp:688-729 | when an escrow is accepted; amount and fee move into it |
| Economy.Books.EscrowApprove | libraries/chain/chain_evaluator.cpp:731-780 | approval by both pays the fee to the agent, a rejection returns everything |
| Economy.Books.EscrowDispute | libraries/chain/chain_evaluator.cpp:782-803 | exactly when a dispute can be raised |
| Economy.Books.EscrowRelease | libraries/chain/chain_evaluator.cpp:805-855 | who may release how much to whom; an escrow is closed only when it is empty, fee included |
| Economy.Books.ExpireEscrows | libraries/chain/database.cpp:4398-4417 | exactly the escrows that were not approved by both before the ratification time are removed and every owner gets back what they held |
| EconomyRun.Perform | libraries/chain/database.cpp:5393-5414 | every step keeps the books valid (funds non-negative, total shares the sum of account shares, reserved balances the sums of bids), changes holdings and supply alike up to the excess of a fixed award, and lets no balance fall below zero unless it is a bid that is not covered |
| EconomyRun.Run | libraries/chain/database.cpp:5393-5414 | over every run supply equals balances, reserved balances, vesting, committee and reward funds, escrow holdings with fees and pending rewards, up to the sum of the excesses that the fixed awards of its trace have; with covered bids no balance falls below zero |
| EconomyRun.CreatedNothing | libraries/chain/chain_evaluator.cpp:505-542 | a run creates no token exactly when no fixed award of it gives out more than was requested |
| Auction.RebidExact | libraries/chain/chain_evaluator.cpp:2139-2170 | replacing a bid keeps each reserved balance equal to the sum of its owner's bids |
| Auction.ReservedNonNegative | libraries/chain/chain_evaluator.cpp:2139-2170 | no reserved balance is negative |
| Auction.SaleOf | libraries/chain/database.cpp:4425-4681 | an auction has a bid that covers the price, on an account that is for sale, by the target buyer if there is one, so it always sells |
| Auction.BiddenOk | libraries/chain/chain_evaluator.cpp:2127-2157 | an accepted bid covers the price and leaves the sale in order |
| Auction.LeastBidMeans | libraries/chain/chain_evaluator.cpp:2128-2136 | the least bid, as an inequality between offer, bid, bid before it and price |
| Auction.StepsGrow | libraries/chain/chain_evaluator.cpp:2128-2157 | over accepted bids the step to the next bid never shrinks, and five minutes or more are left after each |
| Auction.BidsRise | libraries/chain/chain_evaluator.cpp:2128-2136 | the next bid must be higher exactly unless a tenth of the price rounds down to nothing and no other bid was passed |
| Auction.CanBuyMeans | libraries/chain/chain_evaluator.cpp:2108-2182 | when an account that is for sale can be bid for and when bought |
| Auction.BidSolvent | libraries/chain/chain_evaluator.cpp:2130-2170 | a bid lets no balance fall below zero exactly when it is covered |
| Auction.BidKeeps | libraries/chain/chain_evaluator.cpp:2139-2170 | a bid changes nobody's balance and reserved balance together |
| Auction.RefundKeeps | libraries/chain/chain_evaluator.cpp:1808-1835 | nor does giving a bid back |
| Auction.PriceKeepsBid | libraries/chain/chain_evaluator.cpp:1806-1874 | a new price takes the bid away exactly when the sale stops or the bid does not cover the price |
| Auction.TargetKeepsBid | libraries/chain/chain_evaluator.cpp:1927-2060 | naming a target buyer keeps only a bid of that buyer that covers the price |
| Auction.WeekOfBids | libraries/chain/chain_evaluator.cpp:1866-1872 | an account newly for sale takes bids for seven days and is sold at its price after, and one whose sale stopped is not sold |
| Auction.EndedMeans | libraries/chain/database.cpp:4425-4681 | an ended auction leaves no sale; only a recovery keeps its seller and the sale of names |
| Auction.SettledMeans | libraries/chain/chain_evaluator.cpp:2187-2191 | what a purchase does to every balance |
| Auction.CanBuyNameMeans | libraries/chain/chain_evaluator.cpp:2283-2310 | a name without an account is bought from the account that its part after the first dot names |
| Auction.OpenedExact | libraries/chain/chain_evaluator.cpp:2313-2320 | a new account holds no bid, and every reserved balance stays exact |
| Economy.Books.Rebook | libraries/chain/chain_evaluator.cpp:2139-2170 | replacing a sale moves the reserved balances of the old and the new bidder |
| Economy.Books.GiveBidBack | libraries/chain/chain_evaluator.cpp:1808-1835 | the bid returns from the reserved balance to the balance |
| Economy.Books.SetPrice | libraries/chain/chain_evaluator.cpp:1783-1874 | when a price is accepted, the fee, the new sale and when the bid is given back; reserved balances stay exact |
| Economy.Books.SetTarget | libraries/chain/chain_evaluator.cpp:1908-2060 | the same for a sale to a target buyer |
| Economy.Books.SetNamePrice | libraries/chain/chain_evaluator.cpp:2062-2088 | the sale of names below an account, with its fee to the committee fund |
| Economy.Books.Bid | libraries/chain/chain_evaluator.cpp:2130-2170 | the old bid is given back and the new one reserved; no balance falls below zero exactly when the bid is covered |
| Economy.Books.Purchase | libraries/chain/chain_evaluator.cpp:2176-2210 | price to the seller, the rest becomes shares of the account; the sale is over |
| Economy.Books.PurchaseName | libraries/chain/chain_evaluator.cpp:2283-2345 | a name without an account is opened, its price goes to the seller of the parent account and the rest becomes its shares |
| Economy.Books.Buy | libraries/chain/chain_evaluator.cpp:2090-2345 | exactly when a bid, a purchase or the purchase of a name is accepted, which of them it is and what each leaves |
| Economy.Books.EndAuction | libraries/chain/database.cpp:4425-4681 | an ended auction sells to the bidder, or gives the bid back when a recovery is requested; no other ending happens |
| Economy.Books.EndAuctions | libraries/chain/database.cpp:4419-4683 | exactly the auctions whose time is over end; every account gets exactly the bids of what it sold and its own that come back; reserved balances stay exact |
| Economy.Books.Transfer | libraries/chain/chain_evaluator.cpp:857-869 | exactly when a transfer is accepted, and that it conserves tokens |
| Economy.Books.TransferToVesting | libraries/chain/chain_evaluator.cpp:952-967 | exactly when it is accepted; the tokens become shares of the receiver, by default the payer |
| Economy.Books.OpenAccount | libraries/chain/chain_evaluator.cpp:103-123 | a new account is empty in every table and all books stay valid |
| Economy.Books.CreateAccount | libraries/chain/chain_evaluator.cpp:52-140 | when an account is created, and that its fee becomes its first shares |
| Delegation.RaiseExact | libraries/chain/chain_evaluator.cpp:1716-1751 | raising a delegation keeps both caches exact |
| Delegation.ReduceExact | libraries/chain/chain_evaluator.cpp:1752-1780 | reducing or revoking keeps them exact while the difference is on its way back |
| Delegation.NotBefore | libraries/chain/chain_evaluator.cpp:1752-1770 | what a delegation gives up comes back after the regeneration time and not before it may |
| Delegation.Delegations.CreateAccount | libraries/chain/chain_evaluator.cpp:103-137 | the delegation of a new account is cached on both sides, and when it may return at the earliest is recorded |
| Delegation.Delegations.Delegate | libraries/chain/chain_evaluator.cpp:1694-1781 | exactly when a delegation is accepted, the new records and caches, and when a difference returns |
| Delegation.Delegations.ClearExpired | libraries/chain/database.cpp:6664-6679 | exactly the expired returns leave the cache |
| Delegation.Delegations.Rebuild | libraries/chain/database.cpp:7564-7600 | the rebuild makes both caches exact from any starting values |

## Left out

- Opening the node, shared-memory sizing, crash markers, signals, locks, plugin notification and logging: process plumbing.
- Signatures, Merkle roots and serialization: a block id is a number with a digest, and packing is a function whose inverse reads exactly what it wrote.
- The DLT rolling log, snapshots and the seeding loops of the fork database.
- The migrations of hardforks 4 to 7 and 9, the content and vote economy before hardfork 4, account sales before hardfork 11, and the emission before hardfork 11 (libraries/chain/database.cpp:4140), the only writer that could put tokens into a vesting fund without shares.
- Invites, paid subscriptions, account metadata and the accounts that a transfer to the anonymous account opens: they would add only easy members to the ledgers.
- The life of a committee request before it is approved, and the number of beneficiaries a producing node allows.
- The counters of votes that validators receive from accounts (`adjust_validator_votes`): `ProxyLedger` ends where a chain of proxies ends.
- The energy recomputation when shares are sent (`shares_sender_recalc_energy`) and the energy checks of account creation.
- Confirmations that move the LIB between blocks are in `Finality` and not in `NodeDatabase`, where LIB is read from the applied state.
- Reads of blocks that are on the applied chain are taken to succeed in `NodeDatabase`.
- Exact arithmetic limits of 64-bit amounts, and of 32-bit block numbers.
- NodeRun.TargetsRise: says nothing after an exception that leaves a switch or a cascade half-way, because the fork database's head may be lower then.
- NodeDatabase.Database.SwitchFork: does not say where a switch ends that commits a block above the fork point while the new branch is being applied and then fails.
- Scheduler.Schedule.Update: the expiry of penalties, the tally of versions and the median of the voted properties, which the same source function computes, are not part of the model.
- Finality.FinalityState.Run: says nothing about who confirmed a block that was waiting before the run began.
- VirtualTime.VotesSpeedUp: the virtual clock is not restarted and votes do not change between the updates.
- Scheduler.Schedule.RunUntilPlaced: votes do not change between its updates, and it ends when the clock is restarted, because a restart makes the waits anew.
- Economy.Books.CreateVesting: the propagation to proxies' votes that goes with it is in `ProxyVotes` and `ProxyLedger`.
- Economy.Books.CreateAccount: the conditions on name, delegation and authorities are one parameter; the delegation itself is in `Delegation`.
- Economy.Books.ProcessWithdrawals: the order of due accounts is a parameter.
- Economy.Books.Buy: a blank authority key, an account recovery request, the wall clock that extends an auction and the syntax of the parts of a new name are parameters; the trimming of the name is left out, since names with blanks are not valid.
