# Verified model of grin's core algorithms

This project models the parts of grin, a Mimblewimble node and wallet, in which the
most state and the most reasoning meet, and proves what they promise.

- **Cuckoo Cycle** (`CuckooGraph`, `CuckooVerify`, `CuckooListing`, `CuckooForest`,
  `CuckooCycle`, `CuckooDoubled`, `CuckooSearch`, `CuckooMiner`). The verifier walks the
  edges of a proof and counts them down; it is proved to accept exactly the single cycles,
  which are those that can be written out node by node. The miner records edges in a
  parent-pointer forest that it re-roots in place; the forest is proved to join exactly
  what the processed edges join, the search to find the one cycle that a new edge
  closes, and the recovered nonces to pass the verifier. Mining is proved to succeed exactly
  when some nonce closes a cycle of the right length over the edges recorded before it.
- **Transaction pool** (`PoolState`, `PoolSweep`, `PoolConflicts`, `PoolAdmission`,
  `PoolGraph`, `PoolConnected`, `TransactionPool`). Four maps and two vertex lists, changed by admission and by
  mark-and-sweep after each block. Every operation is proved against a pure state; an
  invariant of that state (each input and output in exactly one map, exact roots, no
  cycles) and its agreement with the chain hold at every moment of every run. What is
  admitted, and what a block evicts, is stated by inputs, outputs and fees alone.
- **Chain pipeline** (`ChainModel`, `ChainStore`, `ChainRules`, `ChainOrphans`,
  `ChainWork`, `ChainPipe`, `ChainStranded`, `ChainDropped`). Height index, fork walk,
  reorganisation, and the retry of orphans by mutual recursion. The head, the index and the
  list of blocks applied are proved to agree in every reachable state, and no stored block
  has more work than the head, where the work a header claims is the sum of the proofs of
  its ancestors unless proofs were skipped. Processing and retrying are proved to be a pure specification, about which it is
  proved which blocks get stored, queued or refused, and what becomes of every orphan.
- **Difficulty** (`Consensus`). The retargeting rule, its bounds and its fixed point.
- **Sum-tree storage** (`SumTreeStore`). Append-only file, write buffer and remove log
  together are proved to be one plain map.
- **Applying blocks to the trees** (`OutputTree`, `OutputReplay`, `OutputExtension`).
  Inputs are found by an index of commitments that no rewind takes back. It is proved when
  blocks apply and when a replay does what the fork itself did, and that the index stays
  exact on the head.
- **Wallet and keychain** (`WalletSelect`, `KeychainCache`). Coin selection by a sliding
  window, and key search with a cache, against their simple specifications.

## Where the code needs a condition

- `update_graph` keeps the forest exactly when the two roots differ
  (`CuckooForest.JoinedIsForestIff`). The miner calls it for every `NoCycle` answer, which
  for equal roots it gets exactly if `proof_size` is 2 and the edge is a link already
  (`CuckooMiner.Miner.FindSol`, `CuckooDoubled.DoubledIffLinked`). So the forest is kept
  exactly until an edge that was recorded comes again with `proof_size` 2
  (`CuckooMiner.Miner.MineImpl`); `CuckooMiner.ForestIsLost` is such a run. That mined
  proofs verify holds for every `proof_size`.
- `include_tuple` misses a position exactly when it was removed with index 0
  (`SumTreeStore.IncludeTuple`); `SumTreeStore.ZeroIndexIsMissed` is such a run.
- A unit of work on a fork that is given up restores the content exactly when its rewind took
  back no removal (`SumTreeStore.RewindThenDiscard`, `OutputExtension.SumTrees.Extending`),
  because the removed entries are cut in memory too; `SumTreeStore.DiscardLosesRemoval` is a
  run that brings an element back.
- A rewind takes back the removals of block `index` itself, and the sum trees are rewound to
  a block with that block's own height: its content comes back exactly if it removed
  nothing (`SumTreeStore.RewindToBlock`); `SumTreeStore.RewindLosesRemoval` is a run in which
  it does not.
- Replaying a fork with new outputs has the fork's own effect at every block exactly if the index of
  commitments is right about the inputs of each (`OutputReplay.ReplayRightIff`). On the
  head it is, as long as no fork is kept and outputs are fresh
  (`OutputReplay.HeadRunIsExact`); a fork that creates the same commitment elsewhere can
  make it wrong, and `OutputExtension.ReplayIsRefused` is such a run. The pipeline model
  takes applying for a fixed predicate of a block and the chain below it.
- An element whose removal is taken back reads as it was appended exactly if it was on file
  whenever it was removed, or is the zero record anyway (`SumTreeStore.TakeBack`);
  `SumTreeStore.PrunedElementIsLost` is a run that loses one.
- A block that is stored on a fork sets off no retry of orphans. As long as the head stays,
  an orphan ends up queued with its parent stored exactly if the parent was stored after
  the orphan's own turn, or the orphan is too high (`ChainOrphans.StrandedIff`);
  `ChainStranded.ParentOnAFork` is such a run.
- A head that moves to a lower height can lose orphans. One with good header and content and
  a stored parent is lost exactly if no turn stores its block and the head was 50 or more
  below it at its last turn (`ChainOrphans.LostIff`). That cannot happen to an orphan that
  can be stored, if no queued block with more work than the head is 50 or more below it
  (`ChainOrphans.AcceptableIsKept`). A queue of the orphan and such a block, tried first, does
  lose it (`ChainOrphans.LowerHeadLoses`); `ChainDropped.LowerHead` is such a run.

## Assumptions

Hash functions, key derivation, signature and range proofs, and the comparison of
sum-tree roots are arbitrary functions or predicates given as parameters. Block hashes
do not collide. Each operation that holds a lock is one step, and the clock is a field
that stands still during a call. The orphan transactions are a read-only view whose maps
hold full edges. The order in which a hash map or a hash set yields its elements is
arbitrary, or is that of a given sequence.

## Model

| member | source | states |
|---|---|---|
| `CuckooGraph.Context.NewNode` | original/grin/pow/src/cuckoo.rs:80-82 | for every hash, a generated node lies below the graph size and its low bit tells its side |
| `CuckooGraph.NodeReads` | original/grin/pow/src/cuckoo.rs:80-82 | nodes of two nonces on a side coincide if and only if the hashes at `2 * nonce + uorv` agree up to half the size of the graph; half the node is that remainder |
| `CuckooGraph.EasinessIsShare` | original/grin/pow/src/cuckoo.rs:98 | nonces are below the easiness if and only if each and one more, a hundred times, is at most `ease` times the size, in 64 bits |
| `CuckooGraph.Context.NewEdge` | original/grin/pow/src/cuckoo.rs:87-92 | every generated edge joins an even node to an odd one |
| `CuckooVerify.Verify` | original/grin/pow/src/cuckoo.rs:97-144 | accepts exactly the strictly increasing nonces whose edges are nonempty, connected and 2-regular and of which each and one more, a hundred times, is at most `ease` times the size; terminates on everything else |
| `CuckooListing.SingleCycleIff` | original/grin/pow/src/cuckoo.rs:97-144 | edges are connected and 2-regular on both sides if and only if they are those of a simple cycle, written out node by node, or one edge twice |
| `CuckooListing.ValidProofIff` | original/grin/pow/src/cuckoo.rs:97-144 | so nonces are a valid proof if and only if they are in order, below the easiness, and their edges list such a cycle |
| `CuckooListing.GoRound` | original/grin/pow/src/cuckoo.rs:109-143 | from any point of the walk on, a single cycle is gone round edge by edge, back to the first |
| `CuckooVerify.FollowCycle` | original/grin/pow/src/cuckoo.rs:109-143 | the walk that counts down ends in success exactly when the edges are a single cycle |
| `CuckooVerify.FindMate` | original/grin/pow/src/cuckoo.rs:112-121 | finds the one and only other edge on a node, and tells when there is none or more than one |
| `CuckooVerify.TurnIsFresh` | original/grin/pow/src/cuckoo.rs:132-139 | both edges of a turn are new, so subtracting two from the count never underflows |
| `CuckooVerify.TurnKeepsWalk` | original/grin/pow/src/cuckoo.rs:109-139 | a turn that does not come home keeps every fact about the edges walked so far |
| `CuckooVerify.TurnCloses` | original/grin/pow/src/cuckoo.rs:139-143 | when the walk is home, it has seen all edges if and only if they are one cycle |
| `CuckooVerify.AroundIsConnected` | original/grin/pow/src/cuckoo.rs:109-143 | if any closed set that holds edge 0 is everything, every closed set is |
| `CuckooForest.TrailsAlign` | original/grin/pow/src/cuckoo.rs:254-262 | two paths to the root that meet stay together, so their meeting points are as far from the end |
| `CuckooForest.TrailInjective` | original/grin/pow/src/cuckoo.rs:222-236 | a path to the root never repeats a node |
| `CuckooForest.RerootReverses` | original/grin/pow/src/cuckoo.rs:238-252 | the path reversal turns round the links on the path, makes its start a root and changes nothing else |
| `CuckooForest.RerootKeepsLinks` | original/grin/pow/src/cuckoo.rs:238-252 | after the reversal every link still stands for the edge of a processed nonce |
| `CuckooForest.RerootKeepsForest` | original/grin/pow/src/cuckoo.rs:238-252 | the reversal keeps the links acyclic and every node in its tree |
| `CuckooForest.JoinForest` | original/grin/pow/src/cuckoo.rs:244-251 | hanging a root under a node of another tree merges just these two trees |
| `CuckooForest.JoinedKeepsForest` | original/grin/pow/src/cuckoo.rs:214-252 | recording an edge between two trees keeps an acyclic forest that joins what the processed edges join |
| `CuckooForest.JoinedKeepsLinks` | original/grin/pow/src/cuckoo.rs:238-252 | the array after the update holds only links that are edges of processed nonces |
| `CuckooForest.JoinedBreaksForest` | original/grin/pow/src/cuckoo.rs:213-216 | recording an edge within one tree would leave no forest, whatever ranks and trees are tried |
| `CuckooForest.JoinedIsForestIff` | original/grin/pow/src/cuckoo.rs:213-216 | `update_graph` keeps the forest if and only if the two roots differ |
| `CuckooForest.RedundantKeepsForest` | original/grin/pow/src/cuckoo.rs:211-213 | an edge within one tree can be passed over |
| `CuckooForest.SkippedKeepsForest` | original/grin/pow/src/cuckoo.rs:202-204 | an edge with a null u-node can be passed over |
| `CuckooForest.SharedRootIffConnected` | original/grin/pow/src/cuckoo.rs:197-252 | two nodes have the same root if and only if the processed edges connect them |
| `CuckooForest.ChainFits` | original/grin/pow/src/cuckoo.rs:222-236 | a chain of links in the forest is shorter than the array, which bounds `path` |
| `CuckooCycle.MeetIsSimpleCycle` | original/grin/pow/src/cuckoo.rs:254-264 | the new edge and the two paths up to where they meet are an even simple cycle of length `nu + nv + 1` |
| `CuckooCycle.WalkMeets` | original/grin/pow/src/cuckoo.rs:254-266 | any simple walk over links from one end of the edge to the other goes through the meeting point of the two paths |
| `CuckooCycle.CycleIsUnique` | original/grin/pow/src/cuckoo.rs:263-266 | the new edge closes no other simple cycle in the forest |
| `CuckooCycle.CycleEdgeOnTrails` | original/grin/pow/src/cuckoo.rs:279-294 | which link, or the new edge, each edge of the cycle is |
| `CuckooCycle.SideIsTwoRegular` | original/grin/pow/src/cuckoo.rs:97-144 | each node of a listed simple cycle is touched by exactly two of the listed edges |
| `CuckooCycle.ListingIsSingleCycle` | original/grin/pow/src/cuckoo.rs:97-144 | any listing of the edges of a simple cycle, in any order, is what the verifier looks for |
| `CuckooMiner.AlignedSearchMeets` | original/grin/pow/src/cuckoo.rs:256-262 | where the aligned search stops is the lowest common ancestor |
| `CuckooMiner.CycleIsRecoverable` | original/grin/pow/src/cuckoo.rs:263-310 | all edges of the cycle come from processed nonces, and they are as many as its nodes if and only if the length is not 2 |
| `CuckooMiner.CycleEdgesSize` | original/grin/pow/src/cuckoo.rs:273-278 | a simple cycle has as many edges as nodes; a doubled edge counts once |
| `CuckooMiner.RecoverEnd` | original/grin/pow/src/cuckoo.rs:295-310 | the nonce scan finds as many nonces as needed if and only if each edge of the cycle has one |
| `CuckooMiner.UpEdgesAreCycle` | original/grin/pow/src/cuckoo.rs:279-294 | the edges gathered along both paths are the edges of the cycle, no more and no fewer |
| `CuckooMiner.SolutionIsValidProof` | original/grin/pow/src/cuckoo.rs:295-310 | nonces that list the edges of a simple cycle meet the specification of the verifier |
| `CuckooMiner.Miner.constructor` | original/grin/pow/src/cuckoo.rs:161-172 | the easiness of the miner is the share of the graph size that `ease` asks for, without overflow: the same bound as that of the verifier |
| `CuckooMiner.Miner.Path` | original/grin/pow/src/cuckoo.rs:222-236 | fills the array with the path to the root; fails only for a chain longer than the array |
| `CuckooMiner.Miner.Hang` | original/grin/pow/src/cuckoo.rs:238-252 | the loop over the array reverses the links of the path and hangs its start under the other end |
| `CuckooMiner.Miner.UpdateGraph` | original/grin/pow/src/cuckoo.rs:238-252 | the shorter path is the one that gets reversed |
| `CuckooMiner.Miner.FindSol` | original/grin/pow/src/cuckoo.rs:254-271 | different roots give no cycle; equal roots give the length of the cycle closed or, for the length asked, a valid proof, and `NoCycle` if and only if a two-edge proof is sought and the cycle is a doubled edge |
| `CuckooMiner.Miner.Solution` | original/grin/pow/src/cuckoo.rs:273-310 | succeeds exactly when the cycle has `proof_size` distinct edges that all have nonces |
| `CuckooMiner.Miner.RecoverNonces` | original/grin/pow/src/cuckoo.rs:295-310 | returns the increasing nonces of all edges, exactly when there are enough |
| `CuckooMiner.Miner.CollectEdges` | original/grin/pow/src/cuckoo.rs:274-294 | the set of edges gathered is that of the cycle |
| `CuckooMiner.Miner.MineEdge` | original/grin/pow/src/cuckoo.rs:205-217 | one edge stops the search with a valid proof if and only if it closes a simple cycle of `proof_size` edges over those recorded before, unless a path is overlong; otherwise the array is left in its specified state for one more nonce, a forest if and only if not both a two-edge proof is sought and the edge is a link already |
| `CuckooSearch.ClosesIffMeets` | original/grin/pow/src/cuckoo.rs:254-271 | in the exact forest, an edge closes a simple cycle of `n` edges over those recorded before if and only if the paths of its ends meet that far up |
| `CuckooSearch.ClosedIsWalk` | original/grin/pow/src/cuckoo.rs:254-271 | the nodes of such a cycle are a simple walk along links |
| `CuckooSearch.MeetIsClosed` | original/grin/pow/src/cuckoo.rs:254-271 | all edges but the new one of the cycle through the meeting point were recorded before |
| `CuckooMiner.Miner.SearchIsRight` | original/grin/pow/src/cuckoo.rs:210-217 | the search finds a proof if and only if the nonce closes a cycle of the right length, and the proof lists the edges of that cycle |
| `CuckooMiner.Miner.MineImpl` | original/grin/pow/src/cuckoo.rs:194-220 | without a path error, a proof is returned if and only if some nonce below the easiness closes a simple cycle of `proof_size` edges over those recorded before it, and it lists the cycle of the first such nonce; proofs are valid; the array is the forest of a prefix of the nonces if and only if not both `proof_size` is 2 and a recorded edge came again; the path error needs more than 8192 nodes or such a repeat; two-edge proofs are never found |
| `CuckooMiner.Miner.Mine` | original/grin/pow/src/cuckoo.rs:174-179 | mining any header succeeds exactly when the first nonce that closes a cycle of the right length comes before any path error, with a valid proof of that cycle; up to 8192 nodes there is no path error but for two-edge proofs |
| `CuckooMiner.Miner.RecordedIsForestIff` | original/grin/pow/src/cuckoo.rs:194-220 | the state that mining keeps is a forest exactly until a recorded edge is repeated for two-edge proofs |
| `CuckooMiner.ForestIsLost` | original/grin/pow/src/cuckoo.rs:194-220 | a run that loses the forest: a hash that never changes, and two-edge proofs |
| `CuckooDoubled.DoubledIffLinked` | original/grin/pow/src/cuckoo.rs:254-264 | the new edge closes a cycle of length two if and only if it is a link of the array already |
| `CuckooDoubled.RerootKeepsLinked` | original/grin/pow/src/cuckoo.rs:238-252 | the path reversal turns links round, and makes or breaks none |
| `CuckooDoubled.JoinedKeepsExact` | original/grin/pow/src/cuckoo.rs:238-252 | the links of the array are exactly the edges that connected something new when they came |
| `CuckooDoubled.BridgeIffRootsDiffer` | original/grin/pow/src/cuckoo.rs:213-216 | an edge connects what no earlier one did if and only if the roots of its ends differ |
| `CuckooDoubled.RepeatIffLinked` | original/grin/pow/src/cuckoo.rs:205-217 | an edge repeats a recorded one if and only if it is a link already |
| `CuckooDoubled.DoubledMakesTwoCycle` | original/grin/pow/src/cuckoo.rs:238-252 | recording a link again makes its ends each other's parents |
| `CuckooDoubled.TwoCycleStays` | original/grin/pow/src/cuckoo.rs:238-252 | no path leads into such a pair, so it stays for the rest of the run |
| `CuckooDoubled.JoinedState` | original/grin/pow/src/cuckoo.rs:213-217 | recording an edge leads from the specified state to the next one, whether the forest is kept or lost |
| `CuckooDoubled.PassedState` | original/grin/pow/src/cuckoo.rs:205-217 | so does passing over an edge that closes a longer cycle |
| `CuckooDoubled.ForestGoesOnIff` | original/grin/pow/src/cuckoo.rs:205-217 | from one nonce to the next a forest stays one if and only if the edge is no link or the proofs sought are not of two edges |
| `CuckooDoubled.ConstantHashRepeats` | original/grin/pow/src/cuckoo.rs:80-92 | a hash that never changes repeats a recorded edge at its second nonce |
| `CuckooMiner.MinedProofVerifies` | original/grin/pow/src/cuckoo.rs:550-563 | whatever the miner finds, `verify` accepts for the same header, size and ease, for every `proof_size` |
| `PoolState.EdgeIsPlaced` | original/grin/pool/src/types.rs:186-207 | a spent pool output joins its two transactions and is in neither of the other maps |
| `PoolState.NoConflicts` | original/grin/pool/src/types.rs:241-309 | no two pool transactions spend or create the same commitment |
| `PoolState.Partition` | original/grin/pool/src/types.rs:186-207 | pool outputs are the disjoint union of edges and available outputs; pool inputs, of edges and consumed chain outputs |
| `PoolState.AddedMapsSound` | original/grin/pool/src/types.rs:241-273 | after an addition every map entry names transactions that really create and spend it |
| `PoolState.AddedPartitioned` | original/grin/pool/src/types.rs:241-273 | after an addition each input and each output is still in exactly one map |
| `PoolState.AddedRootsExact` | original/grin/pool/src/graph.rs:219-228 | after an addition the roots are exactly the transactions without a parent in the pool |
| `PoolState.AddedAcyclic` | original/grin/pool/src/graph.rs:219-228 | insertion order ranks the transactions: no addition makes a cycle |
| `PoolState.AddedInSync` | original/grin/pool/src/pool.rs:136-248 | after an addition the pool spends only unspent chain outputs and creates none that the chain has |
| `PoolState.AddedIsGood` | original/grin/pool/src/pool.rs:136-248 | an admissible transaction keeps the whole pool invariant and the agreement with the chain |
| `PoolSweep.RemoveStep` | original/grin/pool/src/types.rs:279-309 | removing any marked transaction next turns one partial sweep into the next, so the order of removal makes no difference |
| `PoolSweep.SweptAt` | original/grin/pool/src/pool.rs:537-557 | where each commitment ends up: edges between survivors stay, others become available or chain-consumed, or go |
| `PoolSweep.SweptMapsSound` | original/grin/pool/src/pool.rs:537-557 | after the sweep every map entry names survivors that create and spend it |
| `PoolSweep.SweptPartitioned` | original/grin/pool/src/pool.rs:537-557 | after the sweep each input and output of a survivor is in exactly one map |
| `PoolSweep.SweptRootsExact` | original/grin/pool/src/graph.rs:186-208 | after the sweep and the update, the roots are exactly the survivors without a parent |
| `PoolSweep.SweptAcyclic` | original/grin/pool/src/pool.rs:537-557 | the sweep makes no cycle |
| `PoolSweep.SweptInSync` | original/grin/pool/src/pool.rs:427-557 | after a block, all that survivors spend comes from survivors or is unspent on the chain, and no survivor creates what the chain has |
| `PoolSweep.SweptIsGood` | original/grin/pool/src/pool.rs:427-557 | a block, the marking it calls for and the sweep keep the invariant and the agreement with the new chain |
| `PoolSweep.StepIsGood` | original/grin/pool/src/pool.rs:136-557 | every event, a transaction or a block, keeps the invariant and the agreement with the chain |
| `PoolSweep.RunIsGood` | original/grin/pool/src/pool.rs:136-557 | both hold at every moment of every run |
| `PoolGraph.SwapRemoveNames` | original/grin/pool/src/graph.rs:167-181 | `swap_remove` takes out one entry and keeps all others, in a different order |
| `PoolGraph.DirectedGraph.RemoveVertex` | original/grin/pool/src/graph.rs:167-181 | the vertex leaves whichever list held it, and is returned if one did |
| `PoolGraph.DirectedGraph.UpdateRoots` | original/grin/pool/src/graph.rs:186-208 | exactly the vertices that no edge leads to any more are promoted |
| `PoolGraph.DirectedGraph.AddEntry` | original/grin/pool/src/graph.rs:219-228 | the vertex joins the roots exactly when it comes without edges |
| `PoolGraph.DirectedGraph.RemoveEdgeByCommitment` | original/grin/pool/src/graph.rs:162-164 | returns the edge that was there, and only that one goes |
| `PoolGraph.DirectedGraph.GetVertices` | original/grin/pool/src/graph.rs:266-278 | lists each vertex of both lists once |
| `PoolGraph.DirectedGraph.GetRoots` | original/grin/pool/src/graph.rs:261-263 | lists each root once |
| `PoolConnected.Pool.FindOutputIsCreator` | original/grin/pool/src/types.rs:494-498 | in a sound pool the search names an output's transaction if and only if that transaction creates it, whether or not the pool spends it |
| `PoolConnected.Pool.AddPoolTransaction` | original/grin/pool/src/types.rs:241-273 | the whole new content of the three maps and the vertex lists |
| `PoolConnected.Pool.GetMineableTransactions` | original/grin/pool/src/types.rs:314-322 | everything if it is few enough, otherwise as many roots as asked for or as there are; none twice |
| `PoolConnected.Pool.RemovePoolTransaction` | original/grin/pool/src/types.rs:279-309 | the loops over inputs and outputs amount to one step of the sweep |
| `PoolConnected.Pool.DropInput` | original/grin/pool/src/types.rs:286-296 | the output goes back to its creator if that survives |
| `PoolConnected.Pool.DropInputs` | original/grin/pool/src/types.rs:286-296 | all inputs at once: edges of surviving creators become available |
| `PoolConnected.Pool.DropOutput` | original/grin/pool/src/types.rs:298-308 | the output counts as chain-consumed if its spender survives |
| `PoolConnected.Pool.DropOutputs` | original/grin/pool/src/types.rs:298-308 | all outputs at once: edges of surviving spenders become chain-consumed |
| `PoolConnected.Pool.UpdateRoots` | original/grin/pool/src/types.rs:275-277 | the update is the one of the specification |
| `TransactionPool.DummyChain.ApplyBlock` | original/grin/pool/src/blockchain.rs:71-78 | the unspent outputs lose those the block spends, then gain exactly its own, a commitment that comes again mapping to the new output |
| `TransactionPool.NewOutputs` | original/grin/pool/src/blockchain.rs:75-77 | each new output is one of the block's, under its own commitment |
| `TransactionPool.BestParentMeaning` | original/grin/pool/src/pool.rs:71-113 | in a sound pool the search tells exactly who creates an output and who, if anyone, spends it already |
| `TransactionPool.ResolvedIsAdded` | original/grin/pool/src/pool.rs:239-248 | with all references resolved, the separate updates of maps and lists add up to the specified addition |
| `TransactionPool.TransactionPool.SearchForBestOutput` | original/grin/pool/src/pool.rs:71-113 | the chain of lookups gives the outcome whose meaning `BestParentMeaning` states |
| `TransactionPool.TransactionPool.ResolveInput` | original/grin/pool/src/pool.rs:176-210 | an input is refused exactly when it is spent already or an immature coinbase output |
| `TransactionPool.TransactionPool.ResolveInputs` | original/grin/pool/src/pool.rs:176-210 | succeeds exactly when no input is refused, with references of the right kind for all inputs; they are distinct unless an available output is claimed twice |
| `TransactionPool.TransactionPool.CheckDuplicateOutputs` | original/grin/pool/src/pool.rs:299-347 | refuses exactly the outputs that the chain, the pool or, for an orphan, the orphans have; names a real creator |
| `TransactionPool.TransactionPool.CheckOutputs` | original/grin/pool/src/pool.rs:220-222 | passes exactly when no output exists anywhere it is looked for |
| `TransactionPool.TransactionPool.IsAcceptable` | original/grin/pool/src/pool.rs:579-599 | passes exactly when there is room and the fee pays for four times the outputs and one, less the inputs, and for one in any case; the threshold of a refusal is the least fee that does |
| `PoolAdmission.WeightIsLeastFee` | original/grin/pool/src/pool.rs:586-596 | the weight times the base fee is the least fee that pays for the transaction |
| `PoolAdmission.VerticesAreTransactions` | original/grin/pool/src/pool.rs:579-583 | the two vertex lists together are as long as there are transactions |
| `TransactionPool.TransactionPool.FindsByContent` | original/grin/pool/src/pool.rs:71-134 | the lookups in the maps say the same as the transactions of the pool and the chain: who spends, who creates, what is mature |
| `TransactionPool.TransactionPool.SoundIffFit` | original/grin/pool/src/pool.rs:136-292 | a transaction passes every check, or is deferred, if and only if it fits in terms of the transactions of the pool and the chain alone |
| `TransactionPool.TransactionPool.CheckOrphanRefs` | original/grin/pool/src/pool.rs:259-278 | passes exactly when no orphan claims one of the references; otherwise names an orphan that does |
| `TransactionPool.TransactionPool.RefsByKind` | original/grin/pool/src/pool.rs:358-400 | no reference is claimed by an orphan exactly when no input is, pool and chain inputs and unknown ones each by their own rule |
| `TransactionPool.TransactionPool.Examine` | original/grin/pool/src/pool.rs:136-237 | passes exactly when the transaction is to be admitted or may be deferred; what any refusal says is true |
| `TransactionPool.TransactionPool.Insert` | original/grin/pool/src/pool.rs:239-249 | the pool becomes the specified addition, and stays sound and in step with the chain |
| `TransactionPool.TransactionPool.AddToMemoryPool` | original/grin/pool/src/pool.rs:136-292 | admits a transaction if and only if there is room, its fee pays for its size, it is valid and new, its lock height is reached, no pool transaction spends its inputs, each of which the chain has, mature, or the pool creates, and its outputs exist nowhere; defers exactly those that lack only inputs and have no rival orphan; else the pool stays as it was, and what a refusal says is true |
| `TransactionPool.TransactionPool.MarkTransaction` | original/grin/pool/src/pool.rs:507-525 | terminates; marks the transaction and what depends on it through outputs the chain lacks, and nothing else |
| `TransactionPool.TransactionPool.AllChildrenMarked` | original/grin/pool/src/pool.rs:507-525 | once the loop has dealt with every output, no dependent child is left unmarked |
| `TransactionPool.TransactionPool.ConflictingTransactions` | original/grin/pool/src/pool.rs:463-482 | finds exactly the conflicting transactions in the maps |
| `PoolConflicts.ConflictingIffTouched` | original/grin/pool/src/pool.rs:463-482 | a transaction conflicts if and only if it spends an unspent chain output that the block spends, or creates one that the block creates |
| `PoolConflicts.MarkedIffDoomed` | original/grin/pool/src/pool.rs:486-525 | what is marked is what the block touches, and what depends on that through outputs that the new chain lacks, and nothing else |
| `PoolConflicts.SurvivesIff` | original/grin/pool/src/pool.rs:537-557 | all other transactions stay in the pool, unchanged |
| `TransactionPool.TransactionPool.MarkConflicts` | original/grin/pool/src/pool.rs:460-489 | the marked set is the least one that holds the conflicts and is closed under dependent children |
| `TransactionPool.TransactionPool.SweepTransactions` | original/grin/pool/src/pool.rs:537-557 | whatever order the set yields, the pool becomes the same swept pool, and the removed transactions are returned |
| `TransactionPool.TransactionPool.ReconcileBlock` | original/grin/pool/src/pool.rs:427-495 | after a block the chain has applied, exactly the transactions that it touches and their dependents through outputs the chain lacks are gone and returned, all others stay unchanged, and the pool is the least sweep, sound and in step again |
| `TransactionPool.TransactionPool.PrepareMineableTransactions` | original/grin/pool/src/pool.rs:566-575 | distinct pool transactions, each with every input unspent on the chain or created by another one returned; all of them if they are few enough |
| `TransactionPool.TransactionPool.InputsAtHand` | original/grin/pool/src/pool.rs:566-575 | a root needs only the chain, and the whole pool needs only the chain and itself |
| `TransactionPool.BlockArrives` | original/grin/pool/src/blockchain.rs:71-78 | applying any block and then reconciling keeps pool and chain in step and evicts exactly the doomed transactions, from any state in step |
| `ChainModel.AncestorAt` | original/grin/chain/src/store.rs:166-173 | an ancestry holds one stored header at each height, and each one starts with its own ancestry |
| `ChainModel.AncestryStable` | original/grin/chain/src/store.rs:175-180 | storing more headers changes no ancestry |
| `ChainModel.GenesisIsCommon` | original/grin/chain/src/pipe.rs:238-257 | any two stored blocks share the genesis, so the fork walk has somewhere to stop |
| `ChainModel.OnChainIsAncestor` | original/grin/chain/src/store.rs:166-173 | the index confirms a header exactly when it is the ancestor of the head at its height |
| `ChainModel.IndexExtends` | original/grin/chain/src/store.rs:230-244 | an index right for the parent is right for the child once the child is entered |
| `ChainModel.IndexOfAncestor` | original/grin/chain/src/store.rs:230-244 | the index of the head serves each ancestor too, so stopping early is right |
| `ChainStore.ChainKVStore.SetupHeight` | original/grin/chain/src/store.rs:230-244 | for a block at most one above the head, on any fork, the index then holds its ancestry up to its height, and entries above are untouched |
| `ChainStore.ChainKVStore.FindFork` | original/grin/chain/src/pipe.rs:242-257 | the walk ends at the highest common ancestor, and that chain followed by the blocks passed is the ancestry in order |
| `ChainStore.NotAtItsHeight` | original/grin/chain/src/store.rs:166-173 | a block that is not in a chain at its own height is nowhere in it |
| `ChainStore.ForkPointFound` | original/grin/chain/src/pipe.rs:242-257 | where the walk stops nothing higher is common |
| `ChainStore.AncestorsStored` | original/grin/chain/src/pipe.rs:70-80 | all ancestors of a stored block are stored as blocks, so the fork can be replayed |
| `ChainStore.HistoryDecreases` | original/grin/chain/src/pipe.rs:198-202 | the timestamp rule makes every difficulty history strictly decreasing |
| `ChainStore.HistoryAt` | original/grin/chain/src/store.rs:268-297 | the history holds time and difficulty of the ancestors, the nearest first |
| `ChainStore.HistoryStable` | original/grin/chain/src/store.rs:270-282 | storing more headers changes no difficulty history |
| `ChainStore.DifficultyIter.Next` | original/grin/chain/src/store.rs:270-282 | yields the history of the block it stands at, entry by entry, and stops at the genesis |
| `ChainStore.DifficultyAfter` | original/grin/chain/src/pipe.rs:215-224 | reading the iterator only as far as the rule needs gives the difficulty of the whole history |
| `ChainStore.StoredDifficultyBounds` | original/grin/chain/src/pipe.rs:215-224 | on a stored chain the rule always gives a difficulty, within its bounds |
| `ChainRules.StoredHeaderKeeps` | original/grin/chain/src/pipe.rs:335-339 | storing a child keeps the links, and its ancestry is that of its parent followed by it |
| `ChainRules.StoredHeaderKeepsTimes` | original/grin/chain/src/pipe.rs:198-202 | storing a header that passed the timestamp rule keeps times increasing |
| `ChainRules.StoringKeepsSound` | original/grin/chain/src/pipe.rs:328-339 | storing a child, with its block or without, keeps store, index and head sound, and loses nothing |
| `ChainRules.StoringKeepsApplied` | original/grin/chain/src/pipe.rs:262-275 | by a fixed predicate of block and chain, every stored block still applies on top of its own ancestry |
| `ChainRules.StoringKeeps` | original/grin/chain/src/pipe.rs:344-377 | storing an acceptable block leaves no stored block with more work than the head, whether or not it becomes the head |
| `ChainRules.KnownIffStored` | original/grin/chain/src/pipe.rs:139-152 | in every reachable view a block is refused as known if and only if it is stored, the genesis aside |
| `ChainRules.FitsStay` | original/grin/chain/src/chain.rs:215-235 | storing other blocks spoils no good header; nor, applying and maturity being fixed predicates, does it change the fitness of a content |
| `ChainOrphans.Process` | original/grin/chain/src/chain.rs:135-188 | the specification of processing a block: the view stays good and only grows, and at most 50 orphans wait |
| `ChainOrphans.Check` | original/grin/chain/src/chain.rs:215-235 | the specification of the retry: the view stays good and only grows, and no more orphans wait than before |
| `ChainOrphans.ProcessMakesNoneUp` | original/grin/chain/src/chain.rs:135-188 | what is queued was queued before or is the block itself, none more often than before |
| `ChainOrphans.TurnsMakeNoneUp` | original/grin/chain/src/chain.rs:215-235 | a retry queues no orphan that was not queued, and none twice |
| `ChainOrphans.TurnsFrom` | original/grin/chain/src/chain.rs:215-235 | every turn of a retry, nested retries included, is one of a queued orphan, and the head of the moment is that of the start or a queued block with more work |
| `ChainOrphans.ProcessStores` | original/grin/chain/src/chain.rs:135-188 | processing a block stores exactly the blocks that some turn stores, its own or one of the retries |
| `ChainOrphans.TurnsStore` | original/grin/chain/src/chain.rs:215-235 | a retry stores exactly the blocks that some turn of it stores |
| `ChainOrphans.TurnsKeep` | original/grin/chain/src/chain.rs:215-235 | an orphan that has no turn is still queued at the end |
| `ChainOrphans.ProcessAccounts` | original/grin/chain/src/chain.rs:135-188 | a block with a good header is stored, queued or refused for its content at its last turn, unless it was then 50 or more above the head; and so is every orphan, if there is room for one more |
| `ChainOrphans.TurnsAccount` | original/grin/chain/src/chain.rs:215-235 | the same for every orphan of the queue, whatever becomes of the head during the retry |
| `ChainOrphans.TurnsSettle` | original/grin/chain/src/chain.rs:215-235 | the orphans that are queued after a retry were all tried under the head that it ends with, and are less than 50 above it |
| `ChainOrphans.QueuedIsSettled` | original/grin/chain/src/chain.rs:215-235 | every orphan has a turn in a retry; one that is queued in the end was less than 50 above the head at its last |
| `ChainOrphans.LostIff` | original/grin/chain/src/chain.rs:215-235 | an orphan with good header and content and a stored parent is lost by a retry if and only if its block is stored neither before nor by any turn and the head was 50 or more below it at its last turn |
| `ChainOrphans.AcceptableIsKept` | original/grin/chain/src/chain.rs:215-235 | an orphan that can be stored when the retry begins is stored or still queued at its end, if no queued block with more work than the head is 50 or more below it |
| `ChainOrphans.LowerHeadLoses` | original/grin/chain/src/chain.rs:215-235 | with such a block in the queue and tried first, the retry ends with that block as the head and the orphan neither stored nor queued |
| `ChainOrphans.OldestIsTried` | original/grin/chain/src/chain.rs:222-233 | the oldest orphan is stored if it can be |
| `ChainOrphans.CheckIsOnePass` | original/grin/chain/src/chain.rs:215-235 | when the head stays, the retry is one pass over the queue, the oldest first |
| `ChainOrphans.StrandedIff` | original/grin/chain/src/chain.rs:215-235 | when the head stays, an orphan ends up queued with its parent stored if and only if its parent was stored after its own turn, or the orphan is too high for the head |
| `ChainStranded.LastRetry` | original/grin/chain/src/chain.rs:215-235 | a queue of a child older than its parent: the parent is stored on a fork, the child waits although it could now be stored |
| `ChainStranded.ParentOnAFork` | original/grin/chain/src/chain.rs:135-235 | a run from the genesis that ends in this state, for every hash function without collisions |
| `ChainDropped.LowerHead` | original/grin/chain/src/chain.rs:135-235 | a run from the genesis, through 51 blocks, that loses a block which could be stored, for every hash function without collisions |
| `ChainPipe.ForkApplies` | original/grin/chain/src/pipe.rs:262-275 | by a fixed predicate of block and chain, the blocks of a fork apply again in order, since each was applied on the same ancestry before; the index that the trees use instead is the subject of `OutputReplay.ReplayRightIff` |
| `ChainPipe.Chain.constructor` | original/grin/chain/src/chain.rs:72-130 | a new chain on its genesis is sound and lawful, and one opened again is as it was left |
| `ChainPipe.Chain.CheckKnown` | original/grin/chain/src/pipe.rs:139-152 | refuses exactly the head, its parent and stored blocks with no more work than the head |
| `ChainPipe.Chain.ValidateHeader` | original/grin/chain/src/pipe.rs:158-226 | passes exactly the headers that meet every rule, calls exactly those above head + 1 orphans, and what any refusal says is true |
| `ChainWork.HeaderFitsIff` | original/grin/chain/src/pipe.rs:158-226 | a header in its place meets the rules if and only if, once stored, it is of version 1, not from the future, later than its parent and, with its proof of work, claims the work of its chain and is as difficult as its chain requires |
| `ChainWork.ContentFitsIff` | original/grin/chain/src/pipe.rs:229-324 | the content of a block fits if and only if, once stored, it is valid, mature and applied and its roots are those of its chain |
| `ChainWork.AcceptedIsChecked` | original/grin/chain/src/pipe.rs:158-226 | accepting a header with its proof of work keeps every stored header checked |
| `ChainWork.CheckedStays` | original/grin/chain/src/pipe.rs:209-222 | a checked header stays so as others are stored |
| `ChainWork.ProcessKeepsLaws` | original/grin/chain/src/chain.rs:135-188 | processing a block, retries included, keeps versions, times and contents lawful, and all headers checked unless proofs of work are skipped |
| `ChainWork.TurnsKeepLaws` | original/grin/chain/src/chain.rs:215-235 | so does a retry of the queue |
| `ChainWork.TotalIsWork` | original/grin/chain/src/pipe.rs:213-215 | if all headers were checked, the total difficulty of each is that of the genesis and the sum of what the proofs of work of its ancestors are worth |
| `ChainWork.HeadHasMostWork` | original/grin/chain/src/pipe.rs:344-377 | so no stored block is on a chain with more work below it than the head has |
| `ChainPipe.Chain.Extend` | original/grin/chain/src/pipe.rs:238-277 | wherever the block forks off, the blocks applied are then its ancestry, in order; fails exactly if the block does not apply on top of it |
| `ChainPipe.Chain.ApplyForked` | original/grin/chain/src/pipe.rs:262-277 | the blocks are applied in order, exactly if each applies on top of those before it, by a fixed predicate of block and chain |
| `ChainPipe.Chain.ValidateBlock` | original/grin/chain/src/pipe.rs:229-325 | passes exactly the blocks whose content fits on top of their own ancestry, wherever that forks off |
| `ChainPipe.Chain.AddBlock` | original/grin/chain/src/pipe.rs:328-332 | storing a validated block keeps the store sound, loses nothing and gives it the right ancestry |
| `ChainPipe.Chain.UpdateHead` | original/grin/chain/src/pipe.rs:344-377 | the head moves exactly when the block has more work; the index then holds exactly its ancestry, also after a reorganisation to a lower height |
| `ChainPipe.Chain.AcceptBlock` | original/grin/chain/src/pipe.rs:90-108 | content that fits is stored; the head moves only with more work; a refusal changes nothing |
| `ChainPipe.Chain.PipeProcessBlock` | original/grin/chain/src/pipe.rs:51-108 | stores exactly the acceptable blocks, reports exactly the orphans, gives the whole new view, keeps head, index and applied blocks in agreement and the most work at the head, and keeps the laws of the store |
| `ChainPipe.Chain.ProcessBlock` | original/grin/chain/src/chain.rs:135-188 | terminates; view and queue become exactly what the specification `ChainOrphans.Process` says, through any number of head changes; every stored header stays checked unless proofs of work are skipped, and versions, times and contents stay lawful |
| `ChainPipe.Chain.CheckOrphans` | original/grin/chain/src/chain.rs:215-235 | terminates; view and queue become exactly what the specification `ChainOrphans.Check` says |
| `ChainPipe.Chain.RetryOldest` | original/grin/chain/src/chain.rs:225-233 | one turn processes the oldest orphan with the rest of the queue |
| `ChainPipe.Chain.SyncBlockHeader` | original/grin/chain/src/pipe.rs:112-135 | stores exactly the acceptable headers and moves the sync head; chain, head and index stay as they were, and the laws of the store hold on |
| `ChainPipe.Chain.AddBlockHeader` | original/grin/chain/src/pipe.rs:335-339 | storing a header alone keeps store and head sound |
| `ChainPipe.Chain.UpdateSyncTips` | original/grin/chain/src/pipe.rs:380-413 | the sync head always moves, the header head only with more work |
| `ChainPipe.Chain.OnCurrentChainIffAncestor` | original/grin/chain/src/store.rs:166-173 | at every reachable state, a header no higher than the head is on the current chain exactly when it is an ancestor of the head |
| `Consensus.CollectWindows` | original/grin/core/src/consensus.rs:174-192 | the pushes into the windows leave the first 11 times, times 24 to 34 and the sum of the first 23 difficulties; the first error read is returned |
| `Consensus.NextDifficulty` | original/grin/core/src/consensus.rs:161-222 | the loop and the sorts give what the rule requires of the history; one entry past the windows is read, and its error returned |
| `Consensus.RequiredReadsWindows` | original/grin/core/src/consensus.rs:178-191 | nothing past both windows matters |
| `Consensus.SortedIsUnique` | original/grin/core/src/consensus.rs:200-203 | any correct sort gives the same medians |
| `Consensus.MedianIsMiddle` | original/grin/core/src/consensus.rs:200-203 | over blocks in order the median time is that of the middle block |
| `Consensus.RetargetBounds` | original/grin/core/src/consensus.rs:205-221 | the result lies between three quarters and six fifths of the average, rounded down, or at the minimum |
| `Consensus.RetargetAntitone` | original/grin/core/src/consensus.rs:205-221 | slower blocks never raise the difficulty |
| `Consensus.AdjustedIsDamped` | original/grin/core/src/consensus.rs:207-217 | between its bounds the time that counts differs from the window by a quarter of what the span does |
| `Consensus.SteadyRetarget` | original/grin/core/src/consensus.rs:161-222 | blocks at a constant interval and difficulty are retargeted by 23 intervals; fewer than 34 blocks get the minimum |
| `Consensus.KnownAdjustments` | original/grin/core/src/consensus.rs:298-322 | the difficulties that the tests of the rule expect at intervals of 90, 120, 55, 45 and 20 seconds |
| `Consensus.SlowestAdjustment` | original/grin/core/src/consensus.rs:328-337 | from 160 seconds on, the difficulty falls by a quarter |
| `Consensus.RequiredInOrder` | original/grin/core/src/consensus.rs:161-222 | over times that never run backwards the span is that between blocks 6 and 29, and the subtraction never underflows |
| `Consensus.RequiredWithinBounds` | original/grin/core/src/consensus.rs:161-222 | with strictly increasing times the span is at least 23 and the difficulty exists within its bounds |
| `Consensus.OnScheduleIsFixed` | original/grin/core/src/consensus.rs:161-222 | blocks every 60 seconds at a constant difficulty of at least 10 keep that difficulty |
| `SumTreeStore.BinarySearch` | original/grin/store/src/sumtree.rs:245-252 | finds the entry or the one place where it belongs |
| `SumTreeStore.InsertEntry` | original/grin/store/src/sumtree.rs:199-209 | the log stays sorted without duplicates and gains just this entry |
| `SumTreeStore.IncludeTuple` | original/grin/store/src/sumtree.rs:245-252 | tells that a position is logged, except exactly when it is logged with index 0 |
| `SumTreeStore.RemoveLog.Append` | original/grin/store/src/sumtree.rs:199-209 | the pending log stays ordered and gains each position once |
| `SumTreeStore.RemoveLog.Flush` | original/grin/store/src/sumtree.rs:212-227 | the log becomes the ordered union of both logs, on file as in memory |
| `SumTreeStore.RemoveLog.Truncate` | original/grin/store/src/sumtree.rs:181-195 | keeps exactly the entries of earlier blocks, in order |
| `SumTreeStore.RemoveLog.Discard` | original/grin/store/src/sumtree.rs:230-232 | drops what is pending and nothing else |
| `SumTreeStore.RemoveLog.Includes` | original/grin/store/src/sumtree.rs:235-237 | with indices of at least 1, tells exactly whether a position is logged, pending or not |
| `SumTreeStore.PMMRBackend.constructor` | original/grin/store/src/sumtree.rs:364-382 | an empty backend stands for the empty map |
| `SumTreeStore.PMMRBackend.Append` | original/grin/store/src/sumtree.rs:286-290 | the map gains the new elements at its end |
| `SumTreeStore.PMMRBackend.Get` | original/grin/store/src/sumtree.rs:293-329 | buffer, file and log together answer as the plain map does, at every position; past the end of a rewound map the file still answers |
| `SumTreeStore.PMMRBackend.Remove` | original/grin/store/src/sumtree.rs:342-355 | the map loses exactly these positions, buffered or on file |
| `SumTreeStore.PMMRBackend.ClearBuffered` | original/grin/store/src/sumtree.rs:343-351 | exactly the buffered positions named are cleared |
| `SumTreeStore.PMMRBackend.Sync` | original/grin/store/src/sumtree.rs:395-425 | the map does not change, and becomes what the files hold |
| `SumTreeStore.PMMRBackend.WriteBuffer` | original/grin/store/src/sumtree.rs:402-417 | the buffer is appended to the file, with a zero record for each pruned element |
| `SumTreeStore.PMMRBackend.Discard` | original/grin/store/src/sumtree.rs:428-435 | the map goes back to what the files hold |
| `SumTreeStore.PMMRBackend.Rewind` | original/grin/store/src/sumtree.rs:331-339 | the map is cut at the position, with the removals of block `index` itself and of later blocks taken back |
| `SumTreeStore.PMMRBackend.ReadsHistory` | original/grin/store/src/sumtree.rs:293-329 | a position that is not removed reads what was appended there, or zero if that was removed before it was written |
| `SumTreeStore.PMMRBackend.FlushBuffer` | original/grin/store/src/sumtree.rs:396-420 | file and ghost history agree after the write, and exactly the elements removed in the buffer are lost |
| `SumTreeStore.WrittenContent` | original/grin/store/src/sumtree.rs:395-425 | writing the buffer and merging the logs changes no content |
| `SumTreeStore.SameContentIff` | original/grin/store/src/sumtree.rs:181-195 | cutting the log leaves the content as it was if and only if every removed position keeps an entry |
| `SumTreeStore.TakeBack` | original/grin/store/src/sumtree.rs:286-425 | after any append, removal, sync and rewind, an element whose removal is taken back reads as appended if and only if it was on file whenever it was removed, or is the zero record |
| `SumTreeStore.ApplyChanges` | original/grin/chain/src/sumtree.rs:239-336 | blocks applied one after the other keep the file and the log of earlier ones |
| `SumTreeStore.RewindToBlock` | original/grin/chain/src/sumtree.rs:340-388 | past any later blocks, rewinding with the height of a block restores its content if and only if that block removed nothing new; with the next height it always does |
| `SumTreeStore.RewindThenDiscard` | original/grin/chain/src/sumtree.rs:151-197 | a unit of work that rewinds, applies any blocks of a fork and is discarded restores the map if and only if every removed position, pending ones included, keeps an entry of a block before the one rewound to |
| `SumTreeStore.PrunedElementIsLost` | original/grin/store/src/sumtree.rs:402-409 | a run that loses an element: removed while buffered, synced, and its removal taken back |
| `SumTreeStore.ZeroIndexIsMissed` | original/grin/store/src/sumtree.rs:235-252 | a run in which the log misses a position that it holds |
| `SumTreeStore.DiscardLosesRemoval` | original/grin/chain/src/sumtree.rs:170-188 | a run in which giving up a fork brings a removed element back |
| `SumTreeStore.RewindLosesRemoval` | original/grin/chain/src/sumtree.rs:340-388 | a run in which rewinding to a block brings back what that block removed |
| `OutputTree.RemovableIff` | original/grin/core/src/core/pmmr.rs:308-345 | among the leaves of a tree, pruning takes out those whose parent is there and is not the only node after them: all but the newest, and that one too if their number is a multiple of four |
| `OutputTree.SpendAllIff` | original/grin/chain/src/sumtree.rs:243-260 | inputs are spent if and only if each is indexed where a live leaf is found and no two at one that can be pruned; then exactly the leaves they are indexed at are pruned |
| `OutputTree.SpendAllFails` | original/grin/chain/src/sumtree.rs:243-260 | when spending fails, it is for the first input that cannot be spent after those before it, with the error that says why |
| `OutputTree.PushAllIff` | original/grin/chain/src/sumtree.rs:264-304 | outputs are pushed in order if and only if none is indexed at an earlier live leaf with the same output |
| `OutputReplay.SpentRightIff` | original/grin/chain/src/sumtree.rs:243-260 | what is pruned is what the block names if and only if, of the live leaves that can be pruned, its inputs are indexed at those that hold their commitments |
| `OutputReplay.OneInputIff` | original/grin/chain/src/sumtree.rs:243-260 | a single input is spent where it is if and only if it is indexed there |
| `OutputReplay.AppliedRightIff` | original/grin/chain/src/sumtree.rs:239-326 | a block with new outputs has its own effect on the tree if and only if the index is right about its inputs |
| `OutputReplay.ReplayRightIff` | original/grin/chain/src/pipe.rs:262-275 | a fork whose outputs are new, replayed by an index made elsewhere, has its own effect at every block if and only if that index is right about the inputs of every block |
| `OutputReplay.ExactSpends` | original/grin/chain/src/sumtree.rs:243-260 | if every live leaf is indexed where it is, the inputs are spent if and only if they are commitments of live leaves and none that can be pruned comes twice |
| `OutputReplay.ExactApplies` | original/grin/chain/src/sumtree.rs:239-304 | with such an index a block applies if and only if its inputs are spendable and none of its outputs is live, and it has its own effect |
| `OutputReplay.ExtensionExactIff` | original/grin/chain/src/sumtree.rs:328-331 | after a block is kept, every live leaf is indexed where it is if and only if the block creates no commitment twice and none that a live leaf holds |
| `OutputReplay.HeadRunIsExact` | original/grin/chain/src/sumtree.rs:151-197 | along any run of blocks on the head, as long as no fork is kept and outputs are fresh, the index stays exact and blocks apply if and only if their inputs are spendable |
| `OutputTree.CreatedAt` | original/grin/chain/src/sumtree.rs:328-331 | a commitment is indexed at its last output, or where it was before |
| `OutputExtension.CreatedByOver` | original/grin/chain/src/sumtree.rs:328-331 | saving all new positions at the end comes to entering them one by one |
| `OutputExtension.RevivedSameIff` | original/grin/chain/src/sumtree.rs:365-375 | going back to a block leaves every leaf as it was if and only if none was spent at its height or above |
| `OutputExtension.RewindUndoesBlock` | original/grin/chain/src/sumtree.rs:365-375 | going back to the height and the leaves of before undoes a block; going back with the next height finds the tree as the block left it |
| `OutputExtension.KeepsUpToBlock` | original/grin/chain/src/sumtree.rs:348-351 | right after a block with outputs is kept, a rewind to it keeps just the leaves up to its last one |
| `OutputExtension.CreatedByRow` | original/grin/chain/src/sumtree.rs:328-331 | the positions of several blocks are those of all their outputs in a row |
| `OutputExtension.Extension.ApplyBlock` | original/grin/chain/src/sumtree.rs:239-304 | both loops, on leaves and new positions, come to the specification of applying a block, with its errors in order |
| `OutputExtension.SumTrees.Extending` | original/grin/chain/src/sumtree.rs:151-197 | the unit of work keeps the outcome of the replay or drops it; a fork that is dropped leaves the tree as it was if and only if no leaf had been spent at the height it starts from or above |
| `OutputExtension.ReplayIsRefused` | original/grin/chain/src/sumtree.rs:239-260 | a run in which a block is refused, because replaying its chain finds an output where another fork had created it; without that fork it applies |
| `WalletSelect.InsertCoinAscending` | original/grin/wallet/src/types.rs:536-537 | insertion keeps the coins ascending |
| `WalletSelect.SortByValueAscending` | original/grin/wallet/src/types.rs:536-537 | the sort gives ascending values |
| `WalletSelect.LargestGrows` | original/grin/wallet/src/types.rs:553-556 | a larger coin never lowers the total of the `k` largest |
| `WalletSelect.LargestIsBest` | original/grin/wallet/src/types.rs:553-556 | no choice of at most `k` coins beats the `k` largest |
| `WalletSelect.CoverIffLargest` | original/grin/wallet/src/types.rs:539-556 | some choice covers the amount if and only if the `k` largest coins do |
| `WalletSelect.FirstCoveringIsLeast` | original/grin/wallet/src/types.rs:540-546 | the first covering window is worth no more than any other covering window |
| `WalletSelect.SelectFrom` | original/grin/wallet/src/types.rs:561-587 | succeeds exactly when the coins cover the amount; in the frugal mode dropping the last coin falls short |
| `WalletSelect.SelectWindow` | original/grin/wallet/src/types.rs:540-551 | takes from the first covering window, and fails only when the largest coins fall short |
| `WalletSelect.CollectEligible` | original/grin/wallet/src/types.rs:527-534 | collects exactly the eligible outputs of the root key, in order |
| `WalletSelect.EligibleIff` | original/grin/wallet/src/types.rs:246-275 | an output is eligible if and only if it is of the root key, not locked, and deep enough or, with no confirmations asked for, unconfirmed and no coinbase |
| `WalletSelect.EligibleOfIs` | original/grin/wallet/src/types.rs:527-534 | every such output is taken as often as it is listed, and no other |
| `WalletSelect.EligibleStays` | original/grin/wallet/src/types.rs:259-275 | an eligible output stays so while the chain grows and fewer confirmations are asked for |
| `WalletSelect.ConfirmationsGrow` | original/grin/wallet/src/types.rs:246-256 | a confirmed output has one confirmation in its own block and one more with each block |
| `WalletSelect.Select` | original/grin/wallet/src/types.rs:516-557 | covers the amount if and only if some choice of at most `max_outputs` eligible outputs does, from the first covering window; otherwise nothing is worth more |
| `WalletSelect.LargestFirst` | original/grin/wallet/src/types.rs:555-556 | the largest coins in descending order |
| `KeychainCache.ScanSkips` | original/grin/keychain/src/keychain.rs:123-136 | a search goes past indices that work and do not match |
| `KeychainCache.ScanFindsLeast` | original/grin/keychain/src/keychain.rs:123-136 | the search returns the key of the least index with the identifier |
| `KeychainCache.ScanFails` | original/grin/keychain/src/keychain.rs:123-136 | a derivation that fails before the identifier is found ends the search with its error |
| `KeychainCache.ScanFindsNone` | original/grin/keychain/src/keychain.rs:123-140 | with no match below 10000 the search says so |
| `KeychainCache.CacheGrows` | original/grin/keychain/src/keychain.rs:127-130 | entering a new identifier keeps every cached index the least one for its identifier |
| `KeychainCache.Keychain.constructor` | original/grin/keychain/src/keychain.rs:74-84 | an empty cache is sound |
| `KeychainCache.Keychain.DerivedKeyFromIndex` | original/grin/keychain/src/keychain.rs:144-151 | the key of one index, or the error of deriving it |
| `KeychainCache.Keychain.DerivedKey` | original/grin/keychain/src/keychain.rs:99-141 | after any history of calls, returns the override if there is one, else what a search without a cache returns |

## Left out

- CuckooMiner.Miner.MineImpl: says nothing about finding a cycle whenever there is one, which the source does not promise either.
- TransactionPool.TransactionPool.AddToMemoryPool: excludes only a transaction that would be admitted and claims one available pool output twice, where the source panics on its assertion; orphans and refused transactions may claim one twice.
- TransactionPool.TransactionPool.AddToMemoryPool: the effect of an orphan on the orphan set is left out; the outcome, and that the pool itself stays as it was, are in.
- WalletSelect.Select: a limit of zero outputs is excluded when some output is eligible, since the source panics on windows of no coins; so are outputs of the root key whose confirmations get counted although they are above the current height, where the count underflows.
- WalletSelect.SelectWindow: the same limit of zero outputs is excluded unless there is no coin.
- WalletSelect.CollectEligible: the same outputs above the current height are excluded.
- ChainPipe.Chain.Extend: going back to the fork cuts the list of applied blocks; the source also takes back the removals of the fork block itself, whose effect on the content `SumTreeStore.RewindToBlock` states. Agreement is claimed for that list, not for the content of the sum trees.
- ChainPipe.ForkApplies: whether a block applies is a fixed predicate of the block and the blocks before it, while the source also consults an index of positions that is not rewound; the `Output` modules have that index, but the pipeline does not run on it.
- ChainPipe.Chain.ApplyForked: applying is the same fixed predicate.
- ChainRules.StoringKeepsApplied: applying is the same fixed predicate.
- ChainRules.FitsStay: applying and maturity are fixed predicates, while the source reads indexes of outputs by commitment that storing rewrites.
- ChainPipe.Chain.constructor: a store that has a head must have been left sound by an earlier run.
- SumTreeStore.PMMRBackend.Rewind: a log entry that is kept but lies above the position is excluded, since positions appended again would read as removed once written.
- SumTreeStore.RewindThenDiscard: the same log entries are excluded.
- SumTreeStore.TakeBack: the same log entries are excluded.
- SumTreeStore.PMMRBackend.Remove: index 0 is excluded, because the log cannot find such entries again; `SumTreeStore.IncludeTuple` says exactly when.
- SumTreeStore.PMMRBackend.Get: positions outside the file and the buffer are excluded.
- SumTreeStore.RewindToBlock: rewinds to the true size after the block, while the source takes the position of the block's last output from the index by commitment, or 0 if it has none; `OutputExtension.KeptLeaves` is that lookup.
- OutputExtension.SumTrees.Extending: an index that leads a rewind past the end of the tree is excluded, and what follows a read past the end of the file (`BeyondFile`), where the source panics, is not modelled. Leaves stand for their positions, parents are left out apart from when they let a leaf be pruned, and so are the range proofs, which mirror the outputs, and the kernels.
- The Merkle mountain range beyond that (core/src/core/pmmr.rs): peaks and roots, the sums and hashes that `push` stores in parents, the pruning of parents, navigation by bit patterns and `PruneList` with its shifts.
- CuckooMiner.Miner.constructor: `ease` above 100 and size exponents above 32 are excluded, because nonces are cast to 32 bits.
- Header seeds: the derivation of siphash keys from a header by blake2; a keyed hash is any function from numbers to numbers.
- Integer overflow of difficulty sums, fee thresholds and coin totals; these are unbounded numbers here. The easiness product of the verifier does wrap at 64 bits.
- Compaction of the sum-tree files and the prune list, which stays empty.
- Hashes and roots of the Merkle mountain ranges: in the pipeline the sum trees are the list of blocks applied to them, and comparing roots is a predicate on that list.
- The index of outputs by commitment outside the three `Output` modules; coinbase maturity inside a block is a predicate.
- Concurrency between header validation and the sum-tree lock: a call is one step.
- Errors of the database other than missing entries, files, locks, logging and adapters.
- Peer-to-peer networking, the HTTP interfaces, configuration and the C# port: mostly input and output.
- The library sort and binary search are modelled by a sort and a search of our own with the same contract.
- Loops nested in one source function appear as methods of their own where that keeps a proof small (`verify` is `Verify`, `FollowCycle` and `FindMate`; one turn of `check_orphans` is `RetryOldest`, its loop body).
