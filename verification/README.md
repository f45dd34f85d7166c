# Verified model of the reading-order engine and its neighbours

This project models the parts of the repository that decide what a reader is shown and in which order, and proves
what they promise. `dafny verify dfyconfig.toml` checks all of it (Dafny 4.11).

- **Reading order** (`Digraph`, `TarjanInvariants`, `Tarjan`, `GraphModel`, `MemberOrder`, `ReadingOrders`,
  `Sequencer`, `OrderChoice`, `Merging`, `LocalRanks`, `Pipeline`). A graph in which an edge says "depends on" is
  loaded, split into its cycles, and read by Kahn's algorithm with a heap of component scores. The chain of results
  ends in `Pipeline.Run`: every project file has one rank, and a file comes after everything it needs outside its own
  cycle; inside a file the same holds of functions and classes. `OrderChoice` says exactly when the order is
  determined. The emission index of Tarjan's components is the rank function that shows that Kahn's loop never stalls.
- **Scores** (`Sums`, `Walks`, `ShortestPaths`, `Conservation`, `SearchInvariants`, `BrandesAlgorithm`, `RandomWalk`,
  `PageRank`, `GraphWalk`, `Personalized`, `Normalizing`, `Scores`). Betweenness is defined on sets of shortest paths
  and the array algorithm is proved to compute it; PageRank is proved to be a contraction that keeps its mass,
  converges within 91 sweeps with the defaults and does not leak out of what the seeds reach;
  `Personalized.PersonalizedPageRank` puts this together for the list that is handed out.
- **Ranking metrics** (`Counting`, `TieBreaking`, `RepeatedGold`, `RankingMetrics`). The pessimistic tie-break gives
  lower bounds over all tie-breakings; `RankingMetrics.LowestExactlyIfGoldFalls` says exactly when.
- **CSV** (`CsvFormat`, `CsvRecords`, `SeedRows`). The record reader accepts exactly the records of section 2 of RFC
  4180, and what is written is read back.
- **Learning store** (`LearningModel`, `LearningInvariants`, `LearningJobs`, `LearningSteps`, `LearningCommits`,
  `LearningChoices`, `LearningEffects`, `LearningStores`, `LearningRuns`). Each public method is one transaction on
  the tables. `LearningInvariants.Inv` holds after each of them in any order; `LearningInvariants.Evolves` is what any
  number of them may do. `LearningEffects` says what each call accepts and leaves behind in terms of the tables,
  `LearningChoices` where a session goes next; that eight passes find all the goal needs is
  `LearningChoices.NeededIff`.

Every loop that changes state is a method proved against a specification; the lemmas prove what the specification is
worth. Scores are exact reals and path counts exact integers.

Three modelling decisions run through the project. The heap of the sequencer is "take any ready component of maximal
score". Names are compared like `std::string`. In the learning store ids come from a counter that stands for
`randomUUID`; time, liveness of processes, the state of the sources, refreshed estimates and the outcome of the planner's
search are arguments of the methods, so every value of them is covered; a ledger beside the tables records what the tables
do not, namely how often the model was applied at a stop and what each visit cost.

Where the code does not do what a comment says, the model follows the code:

- `src/algo/ReadingSequencer.h:9-11` breaks ties between candidates by cost and name. The heap
  (`src/algo/ReadingSequencer.cpp:59-61`) compares only component scores; cost and name order members inside one
  cycle. `OrderChoice.CostDoesNotDecide` has two files of which the costlier may be read first,
  `OrderChoice.DeterminedIff` says exactly when only one order is possible.
- The component score starts at 0 (`src/algo/ReadingSequencer.cpp:30-33`), so it is the maximum of the member scores
  and 0 (`Sequencer.SuperScoreIsMax`). It is the score of a member exactly if one of them is not negative
  (`Sequencer.SuperScoreIsAMembers`; `Sequencer.NegativeScoreRaised` for one that is not).
- `src/algo/Scoring.h:31-32` says that a teleport vector that does not sum to 1 is normalised. One that is off by at
  most 1e-12 is not, and then the mass is not exactly 1 (`PageRank.RestartMass`, `RandomWalk.MassKeptIff`;
  `PageRank.TeleportTakenAsIs` for one such vector).
- `bench/metrics/ranking.py:131` calls all scores closer than the quantum tied (`TieBreaking.CloseScoresMayDiffer`).
- `src/algo/ReadingSequencer.h:13` has complexity scores in [0,1]; they are at most 1 exactly if the configured
  weights do not sum to more than 1 and at most 1.001 (`Scores.ScoresBoundedByOneIff`).
- `bench/metrics/ranking.py:11-13` calls the metrics of the pessimistic order a lower bound. For recall and NDCG at
  every cut this holds exactly if in every tie the gold files, in the order of their names, are first those listed
  with a higher score too and then the others by the number of their entries, falling
  (`RankingMetrics.LowestExactlyIfGoldFalls`); it holds if no gold file is listed twice
  (`RankingMetrics.GoldOnceFalls`) and fails on a list of three with one that is
  (`RankingMetrics.RepeatedGoldBreaksTheBound`).

## Model

| member | source | states |
|---|---|---|
| Tarjan.TarjanState.Dfs | src/algo/Graph.cpp:66-95 | a visit of u discovers u and all it leads to, keeps every discovery made before, and leaves u either emitted with its whole component or on the stack with the smallest discovery time it can reach; the number of undiscovered nodes falls, so the recursion ends |
| Tarjan.TarjanState.PopComponent | src/algo/Graph.cpp:82-93 | the pop loop takes off exactly the stack entries from u upwards and emits them as one component |
| Tarjan.Find | src/algo/Graph.cpp:98-105 | for every graph: the result partitions the nodes into exactly the maximal mutually reachable sets, emitted so that an edge between two components leads to one emitted earlier |
| TarjanInvariants.PoppedMeetsRoot | src/algo/Graph.cpp:81-88 | when low equals disc at u, every stack entry from u upwards reaches u and is reached by it |
| TarjanInvariants.PoppedIsClosed | src/algo/Graph.cpp:72-81 | and no edge out of these entries leads to an undiscovered node or to an older one that is still on the stack: the popped set is maximal |
| TarjanInvariants.BackEdgeStep | src/algo/Graph.cpp:76-77 | an edge to a node on the stack lowers low[u] to its discovery time and keeps the invariant |
| TarjanInvariants.CrossStep | src/algo/Graph.cpp:72-78 | an edge to an emitted node may be ignored |
| TarjanInvariants.ChildStep | src/algo/Graph.cpp:73-75 | taking the minimum with low[v] after visiting v keeps the invariant |
| TarjanInvariants.FinishBelow | src/algo/Graph.cpp:81-95 | a node whose low is smaller than its disc stays on the stack and reaches a node of the recursion below it |
| TarjanInvariants.FinishRoot | src/algo/Graph.cpp:81-94 | popping at a root restores the invariant with one component more |
| TarjanInvariants.ReachGoesDown | src/algo/Graph.cpp:93-94 | whatever an emitted node reaches was emitted no later than it |
| TarjanInvariants.MutualIffSameComp | src/algo/Graph.cpp:93-94 | two nodes reach each other exactly if they were emitted in the same component |
| GraphModel.EdgeKeyInjective | src/algo/Graph.cpp:33-33 | the key (u << 32) | v tells any two pairs of 32-bit ids apart |
| GraphModel.Graph.constructor | src/algo/Graph.h:15-54 | an empty graph is valid |
| GraphModel.Graph.GetOrAdd | src/algo/Graph.cpp:13-25 | a known name gives its node and changes nothing; a new one becomes the next node with empty rows; names and ids stay in bijection exactly as long as the id still fits into 32 bits |
| GraphModel.Graph.Accumulate | src/algo/Graph.cpp:33-38 | a repeated edge adds its weight to the stored one and nothing else |
| GraphModel.Graph.InsertEdge | src/algo/Graph.cpp:40-44 | a new edge is appended to adj, adj_w and the transpose, and the index points at its slot |
| GraphModel.Graph.AddEdge | src/algo/Graph.cpp:27-44 | self-loops and unknown ids change nothing; otherwise exactly the pair (u, v) becomes an edge, its weight and the total out of u grow by w, all others stay; no parallel edges, exact transpose, correct index |
| GraphModel.Graph.NoParallelEdges | src/algo/Graph.cpp:33-43 | the adjacency row of every node is free of repetitions |
| GraphModel.Graph.OutWeight | src/algo/Graph.h:41-47 | the sum of the weights of u, the out-degree if u has no weights, 0 for an unknown node |
| GraphModel.AddLink | src/algo/Graph.cpp:109-115 | a link between two different names becomes an edge between their nodes |
| GraphModel.LoadRow | src/algo/Graph.cpp:178-186 | one more link row: each pair of project files has as weight the sum of the rows for it, and each file as its total the sum of the accepted rows out of it |
| GraphModel.LoadFileGraph | src/algo/Graph.cpp:148-215 | the graph has exactly the project files as nodes, an edge exactly for each pair of different files with a row, the sum of the rows as its weight, and as the total out of a file the sum of all rows from it to another project file |
| GraphModel.HoldsMeans | src/algo/Graph.cpp:148-215 | for any two project files: an edge exactly if a row leads from one to the other, its weight the sum over these rows, and the total out of a file the sum over its rows to other project files |
| MemberOrder.BeforeIsWeakOrder | src/algo/ReadingSequencer.cpp:76-85 | score descending, then cost ascending, then name ascending is a strict weak order |
| MemberOrder.NotBefore | src/algo/ReadingSequencer.cpp:76-85 | one node need not come later than another exactly if its score is at least as high, with equal scores its cost at most as high, and with equal costs its name the same or first |
| MemberOrder.LexLessIff | src/algo/ReadingSequencer.cpp:82-84 | a name is less than another exactly if after a common part it ends or has the smaller character |
| Sequencer.MapNodes | src/algo/ReadingSequencer.cpp:22-25 | every node gets the index of its component |
| Sequencer.SuperScores | src/algo/ReadingSequencer.cpp:30-33 | the score of a component is computed as SuperScore |
| Sequencer.SuperScoreIsMax | src/algo/ReadingSequencer.cpp:30-33 | that score is the maximum of the member scores and 0 |
| Sequencer.SuperScoreIsAMembers | src/algo/ReadingSequencer.cpp:30-33 | it is the score of a member if and only if some member score is not negative |
| Sequencer.NegativeScoreRaised | src/algo/ReadingSequencer.cpp:30-33 | a node of score -1 alone in its component has the component score 0 |
| Sequencer.CondensationEdges | src/algo/ReadingSequencer.cpp:39-48 | the reversed condensation has an entry j in row i exactly for an edge from component j to component i |
| Sequencer.Dedup | src/algo/ReadingSequencer.cpp:51-53 | sorting and unique leave every entry once |
| Sequencer.DedupAndCount | src/algo/ReadingSequencer.cpp:50-55 | the in-degree of a component is the number of components it still waits for |
| Sequencer.FillHeap | src/algo/ReadingSequencer.cpp:64-65 | the heap starts with exactly the components of in-degree 0 |
| Sequencer.PopMax | src/algo/ReadingSequencer.cpp:71-71 | the popped component has the highest score on the heap |
| Sequencer.Relax | src/algo/ReadingSequencer.cpp:90-92 | in-degrees fall by one along the edges, and exactly the components that reach 0 are pushed |
| Sequencer.KahnDegrees | src/algo/ReadingSequencer.cpp:90-92 | the in-degrees stay the numbers of pending components, so they are never negative |
| Sequencer.KahnStep | src/algo/ReadingSequencer.cpp:70-93 | one round of the main loop keeps: everything read was ready, everything on the heap is ready, nothing else is |
| Sequencer.KahnReadsAll | src/algo/ReadingSequencer.cpp:70-93 | when the heap is empty, every component has been read: the emission order of the components shows that the loop never stalls |
| Sequencer.GreedyStep | src/algo/ReadingSequencer.cpp:59-71 | the component read next has the highest score of all that are ready |
| Sequencer.RunKahn | src/algo/ReadingSequencer.cpp:64-95 | the loop reads components in an order that respects the edges and is greedy, and the result is their members, sorted |
| Sequencer.Sequence | src/algo/ReadingSequencer.cpp:9-96 | refused exactly if there are fewer scores than nodes; otherwise the result is a reading order of the graph, and of two nodes of one cycle the first has the higher score, or the same and the lower cost, or the same and the name that comes first |
| ReadingOrders.ReadsEveryNodeOnce | src/algo/ReadingSequencer.cpp:67-95 | a reading order holds every node exactly once |
| ReadingOrders.DependenciesFirst | src/algo/ReadingSequencer.cpp:35-48 | whatever a node needs, directly or not, outside its own cycle stands before it |
| ReadingOrders.CyclesTogether | src/algo/ReadingSequencer.cpp:73-88 | between two nodes of one cycle stand only nodes of that cycle, and none of them should have come before the first |
| ReadingOrders.CycleOrder | src/algo/ReadingSequencer.cpp:73-88 | the order inside cycles, in terms of score, cost with 0 for none, and name |
| OrderChoice.DeterminedIff | src/algo/ReadingSequencer.cpp:59-88 | every reading order of a graph gives the same list if and only if, along one of them, no other component that could have been read had the score of the one that was, and of two members of one cycle the comparison puts one first |
| OrderChoice.OneOrderIff | src/algo/ReadingSequencer.cpp:59-88 | the same for the components and their order |
| OrderChoice.DistinctKeysOneOrder | src/algo/ReadingSequencer.h:9-11 | with different component scores and different names any two reading orders are equal |
| OrderChoice.NamesDecide | src/algo/ReadingSequencer.cpp:76-85 | inside a cycle different names are enough |
| OrderChoice.TieAmongReady | src/algo/ReadingSequencer.cpp:59-71 | where a ready component has the score of the one that was read there is another reading order: the run up to that step can be completed the other way |
| OrderChoice.Complete | src/algo/ReadingSequencer.cpp:70-93 | whatever has been read so far can be continued to a full run of the loop |
| OrderChoice.CostDoesNotDecide | src/algo/ReadingSequencer.h:9-11 | two files without edges and with one score: although cost and name put one first, either order is a reading order |
| Merging.FileEntries | src/algo/AlgoRunner.cpp:43-61 | the project files get the ranks 1, 2, 3 and so on in the order of the sequence; everything else is passed over |
| Merging.DependencyHasSmallerRank | src/algo/AlgoRunner.cpp:43-61 | composed with the sequencer: a file that another one needs outside its own cycle has the smaller file_rank |
| Merging.EveryFileRankedOnce | src/algo/AlgoRunner.cpp:43-61 | every project file in the graph has exactly one rank, without gaps |
| Merging.GlobalRank | src/algo/AlgoRunner.cpp:66-72 | the rank of an entity is its last position in the sequence |
| Merging.GlobalRankIsPosition | src/algo/AlgoRunner.cpp:66-72 | with different names and a permutation, it is its only position |
| Merging.GroupByFile | src/algo/AlgoRunner.cpp:75-81 | the entities of a file are grouped in node order, and no file without entities has a group |
| Merging.LocalEntries | src/algo/AlgoRunner.cpp:85-119 | the entries of one file, each entity once, numbered from 1 by position in the sequence, entities without a position last and those by first line |
| Merging.EveryEntityRankedOnce | src/algo/AlgoRunner.cpp:85-119 | each mapped entity of a file appears there exactly once, with local_rank 1..m |
| Merging.DependencyHasSmallerLocalRank | src/algo/AlgoRunner.cpp:85-119 | an entity that another one of the same file needs outside its own cycle has the smaller local_rank |
| Merging.Merge | src/algo/AlgoRunner.cpp:31-122 | the output is the ranked files followed by one group for each file with entities |
| LocalRanks.GroupedListed | src/algo/AlgoRunner.cpp:75-81 | each entity that belongs to a file has exactly one entry in the list, under that file |
| LocalRanks.GroupedNumbered | src/algo/AlgoRunner.cpp:97-112 | the entries of a file stand together, numbered 1, 2, 3 and so on |
| LocalRanks.GroupedInOrder | src/algo/AlgoRunner.cpp:85-95 | inside a file, what an entity needs outside its cycle has a smaller number |
| LocalRanks.GroupedAsRead | src/algo/AlgoRunner.cpp:85-97 | inside a file, what the pass reads first has the smaller number |
| LocalRanks.GroupedCarry | src/algo/AlgoRunner.cpp:97-114 | the entry of an entity has the kind and the scores of its own node |
| LocalRanks.FilesCarried | src/algo/AlgoRunner.cpp:30-61 | so has the entry of a file, and files are ranked as the pass reads them |
| Pipeline.Centrality | src/algo/Scoring.cpp:492-527 | off for functions gives zeros; below the exact limit the result is betweenness itself; in the middle band it is the scaled contribution of the first k nodes of a permutation, with k the square root rounded up within its two limits; beyond, of a fixed number of nodes or all of them |
| Pipeline.RunPass | src/algo/AlgoRunner.cpp:16-28 | a pass over any loaded graph succeeds; its ranks are those of a PageRank run without seeds on the edge weights, its betweenness that of its band, its scores their weighted mean with ease after normalising, and its sequence is a reading order for these scores |
| Pipeline.Run | src/algo/AlgoRunner.cpp:219-223 | from two loaded graphs to the entries: each project file of the graph exactly once with ranks 1..n, as its pass reads them and after everything it needs outside its own cycle; then each function and class exactly once under its file, with local ranks 1..m as its pass reads them; every entry has the three scores of its own node |
| Walks.DistIsShortest | src/algo/Scoring.cpp:430-434 | a distance array that BFS leaves behind holds the length of the shortest walk, and -1 exactly where there is none |
| Walks.SigmaCounts | src/algo/Scoring.cpp:435-438 | sigma counts the shortest walks |
| Walks.WalksCompose | src/algo/Scoring.cpp:435-438 | walks of i + j steps are counted by their middle node |
| Walks.DeltaIsDep | src/algo/Scoring.cpp:442-446 | Brandes' recurrence: accumulating sigma[v]/sigma[w] * (1 + delta[w]) backwards gives the sum of the pair dependencies |
| ShortestPaths.PathsAreThePaths | src/algo/Scoring.cpp:435-438 | the set whose size is counted is exactly the set of paths of that length |
| ShortestPaths.PathsCount | src/algo/Scoring.cpp:435-438 | in a graph without parallel edges the number of paths is the number of walks the algorithm counts |
| ShortestPaths.ThroughCount | src/algo/Scoring.cpp:444-446 | the shortest paths from s to t through v are the pairs of a shortest path to v and one from v |
| ShortestPaths.DepIsDependency | src/algo/Scoring.cpp:444-446 | the pair dependencies are the fractions of shortest paths that pass through v |
| BrandesAlgorithm.Search | src/algo/Scoring.cpp:413-440 | the queue loop yields distances, path counts, predecessors and a stack in order of distance |
| BrandesAlgorithm.PushBack | src/algo/Scoring.cpp:444-446 | one popped node passes its share to each of its predecessors and to nobody else |
| BrandesAlgorithm.BackStep | src/algo/Scoring.cpp:442-446 | popping one node more keeps the accumulated sums |
| BrandesAlgorithm.DeltaIsAdded | src/algo/Scoring.cpp:442-447 | delta[v] is what the definition of betweenness adds for this source, 0 for the source and for nodes out of reach |
| BrandesAlgorithm.BrandesSource | src/algo/Scoring.cpp:411-449 | bc grows in place by exactly the dependencies of the source |
| BrandesAlgorithm.Exact | src/algo/Scoring.cpp:451-458 | the result is betweenness as defined: the sum over sources s other than v, and targets t, of the share of shortest s-t paths through v |
| BrandesAlgorithm.Shuffle | src/algo/Scoring.cpp:468-476 | the generator shuffles in place to a permutation of the sources, for every seed |
| BrandesAlgorithm.SumPermuted | src/algo/Scoring.cpp:478-481 | summing over all sources in any order gives the same |
| BrandesAlgorithm.Sampling | src/algo/Scoring.cpp:460-490 | k different sources scaled by N/k; with k at least N exactly betweenness, with k not positive zeros |
| Conservation.LevelConservation | src/algo/Scoring.cpp:442-446 | the pair dependencies of all nodes at one BFS level sum to the number of nodes beyond it, for every locally consistent distance array |
| Conservation.TotalConservation | src/algo/Scoring.cpp:442-447 | those of the inner nodes sum to the number of inner nodes on the way to each target |
| Conservation.SourceDependency | src/algo/Scoring.cpp:442-446 | that of the source is the number of other nodes in reach |
| Conservation.DeltaConservation | src/algo/Scoring.cpp:442-447 | the three laws for the deltas of every array that meets the recurrence |
| Conservation.DependenciesPerLevel | src/algo/Scoring.cpp:427-446 | the same for dependencies and distances as defined, at every level |
| Conservation.AddedInTotal | src/algo/Scoring.cpp:447-447 | what one source adds to bc in all is the sum of distance minus 1 over the nodes it reaches |
| PageRank.OutWeights | src/algo/Scoring.cpp:103-107 | the sum of the weights of each node, its number of edges where it has none |
| PageRank.DanglingMass | src/algo/Scoring.cpp:110-113 | the dangling sum is the mass on nodes without outgoing weight |
| PageRank.Refill | src/algo/Scoring.cpp:115-125 | both branches start each entry with the same teleport term |
| PageRank.Sweep | src/algo/Scoring.cpp:110-132 | one sweep over the arrays is one step of the random walk, pushing along edges being the same as pulling |
| PageRank.PushIsPull | src/algo/Scoring.cpp:127-132 | the pushed contributions to a node sum to the textbook formula |
| PageRank.PowerIteration | src/algo/Scoring.cpp:109-141 | the result is the walk after some number of sweeps, which stopped at the first change below eps or at the cap |
| PageRank.Compute | src/algo/Scoring.cpp:64-144 | refused exactly for a vector of the wrong size or with a negative entry; otherwise the walk restarts at equal shares, at the vector or at its shares, steps along an edge with the share of its weight in all out of its node, and the result is the iterate at the first small change or after the last sweep |
| RandomWalk.EdgeShare | src/algo/Scoring.cpp:122-131 | the probability of a step along an edge is its weight by the sum of the weights of the row; an equal share where the row has no weights |
| RandomWalk.OutIsTotal | src/algo/Graph.h:41-47 | what leaves a node is the sum of its weights |
| GraphWalk.StepIsSweep | src/algo/Scoring.cpp:104-132 | a sweep on a graph gives each node its share of the restart and, from each node, that value times weight by total weight |
| GraphWalk.WalkIsRun | src/algo/Scoring.cpp:98-142 | the iterates are a run of PageRank on the weights of the graph: equal values at first, then sweeps, until one changes less than eps or none is left |
| PageRank.RestartIs | src/algo/Scoring.cpp:78-96 | what a teleport vector stands for, in its three cases |
| PageRank.RestartMass | src/algo/Scoring.cpp:78-96 | the restart distribution is never negative; it sums to exactly 1 unless the given vector was off by at most 1e-12 and was left alone |
| PageRank.TeleportTakenAsIs | src/algo/Scoring.cpp:88-96 | with the vector [1.0000000000005] the first sweep leaves mass 1 |
| RandomWalk.StepNonNeg | src/algo/Scoring.cpp:110-132 | a sweep keeps all entries non-negative |
| RandomWalk.MassStep | src/algo/Scoring.cpp:110-132 | what a sweep does to the total mass, in one formula |
| RandomWalk.MassKeptIff | src/algo/Scoring.cpp:86-132 | a sweep keeps mass 1 exactly if the restart distribution has mass 1 |
| RandomWalk.IterateMass | src/algo/Scoring.cpp:109-141 | then any number of sweeps leaves a probability distribution |
| RandomWalk.Contraction | src/algo/Scoring.cpp:110-132 | a sweep shrinks L1 distances by Factor, the damping factor unless the restart distribution exceeds mass 1 by its tolerance |
| RandomWalk.DifferencesShrink | src/algo/Scoring.cpp:134-140 | so successive changes shrink geometrically |
| RandomWalk.CloseToFixedPoint | src/algo/Scoring.cpp:134-140 | a change below eps bounds the distance to any fixed point by Factor/(1-Factor) times eps |
| RandomWalk.FixedPointUnique | src/algo/Scoring.cpp:110-132 | there is at most one fixed point |
| RandomWalk.NinetyOneSweeps | src/algo/AlgoConfig.h:43-46 | with d = 0.85 the change in the 91st sweep is below 1e-6 |
| PageRank.DefaultsConverge | src/algo/AlgoConfig.h:43-46 | with the defaults the loop always ends by convergence, within 91 sweeps, never by the cap of 100 |
| PageRank.ConvergedIsClose | src/algo/Scoring.cpp:134-143 | the returned vector is within Factor/(1-Factor) times eps of any fixed point, and Factor is d when the restart mass is at most 1 |
| RandomWalk.LeakStep | src/algo/Scoring.cpp:115-132 | the mass on nodes that no seed reaches shrinks by the damping factor in every sweep |
| RandomWalk.LeakVanishes | src/algo/Scoring.cpp:115-132 | after k sweeps it is at most d to the power of k |
| PageRank.MakeTeleport | src/algo/Scoring.cpp:24-48 | empty exactly if no seed names a node with a positive weight; otherwise the shares of the matching weights, summing to 1 |
| PageRank.MatchedSeeds | src/algo/AlgoRunner.cpp:172-175 | the number of matching seeds; 0 exactly if the walk fell back to the plain one |
| Personalized.PersonalizedPageRank | src/algo/AlgoRunner.cpp:156-192 | the project files of the graph, each once, from the highest value down and by name; the values are the last vector of a run on the edge weights that restarts at the shares of the matching seeds; they are a distribution, after k sweeps at most d^k of it on files that no seed leads to and as close to every fixed point as d^k times the first distance, and with the default constants k is at most 91 and the distance at most 0.85e-6 / 0.15 |
| Personalized.RankedFilesUnique | src/algo/AlgoRunner.cpp:188-191 | the values determine this list |
| Personalized.SortEntries | src/algo/AlgoRunner.cpp:188-191 | no two entries compare equal, so the sort has one result |
| Personalized.IterateCloser | src/algo/Scoring.cpp:98-132 | each sweep brings the vector closer to every fixed point by the factor c |
| Normalizing.LowerBound | src/algo/Scoring.cpp:182-183 | the binary search finds the number of strictly smaller values |
| Normalizing.PercentileRankNormalize | src/algo/Scoring.cpp:168-187 | the rank of a value is the share of the others that are strictly smaller, 0 for a single value, 0.5 if all are equal |
| Normalizing.RanksKeepOrder | src/algo/Scoring.cpp:168-187 | ranks lie in [0,1]; one is smaller than another exactly if its value is |
| Normalizing.MinMaxNormalize | src/algo/Scoring.cpp:148-164 | each value is placed between the extremes, 0.5 if they coincide |
| Normalizing.MinMaxKeepsOrder | src/algo/Scoring.cpp:148-164 | this lies in [0,1] and keeps the order too |
| Normalizing.RanksMean | src/algo/Scoring.cpp:168-187 | a rank times n - 1 is the number of positions with smaller values |
| Normalizing.PlacesMean | src/algo/Scoring.cpp:148-164 | a place times the range is the distance from the least value |
| Scores.Combine | src/algo/Scoring.cpp:342-378 | empty unless both inputs have the same size; otherwise a score times the sum of the weights is the sum of normalised rank, normalised betweenness and, if used, ease, each times its weight; half each of the first two without any weight; ease is 1 minus the complexity, clamped |
| Scores.CombinedIsMean | src/algo/Scoring.cpp:356-376 | this weighted mean for the shares as computed |
| Scores.CombinedOrder | src/algo/Scoring.cpp:356-376 | with non-negative weights the score lies in [0,1], never falls when PageRank, betweenness or ease rises, and ease cannot reverse two files whose importance differs by more than its share |
| Scores.NormalizeWeights | src/algo/Scoring.cpp:191-207 | weights within 0.001 of sum 1 are kept, those within 1e-9 of sum 0 made equal, all others divided by their sum |
| Scores.ScaledTotal | src/algo/Scoring.cpp:191-207 | afterwards they sum to 1, or to what they did if that was within 0.001 |
| Scores.Complexity | src/algo/Scoring.cpp:209-257 | the score is the weighted sum of the percentile ranks of the blended cyclomatic complexity, the blended nesting, the lines, the dependents and the dependencies |
| Scores.ComplexityBound | src/algo/Scoring.cpp:194-257 | scores never exceed what the weights sum to after scaling, a file that leads in all five reaches it, and that sum is at most 1 if and only if the configured one is not in (1, 1.001]; 1.001 is the bound in any case |
| Scores.LeaderExists | src/algo/Scoring.cpp:194-257 | for any weights two files exist of which one leads in all five and so gets the whole sum |
| Scores.ScoresBoundedByOneIff | src/algo/Scoring.cpp:194-257 | no file of any population scores above 1 if and only if the configured sum is not in (1, 1.001] |
| TieBreaking.KeyOrderIsWeak | bench/metrics/ranking.py:154-179 | the key (-quantised score, is_gold, file_id) is a strict weak order, NaN beside minus infinity |
| TieBreaking.PessimisticIsRanking | bench/metrics/ranking.py:146-181 | the pessimistic order is one of the orders by descending quantised score |
| TieBreaking.PessimisticIsGoldLast | bench/metrics/ranking.py:146-181 | it holds just the candidates: infinity first, NaN and minus infinity last, finite scores by nearest multiple of the quantum, in a tie gold files last and then by name |
| TieBreaking.FewestGold | bench/metrics/ranking.py:150-158 | among all of them it has the fewest gold entries in every prefix, repeated ids or not |
| TieBreaking.QuantisedOrder | bench/metrics/ranking.py:169-179 | quantising never reverses two scores and separates all that are more than a quantum apart |
| TieBreaking.TiedIffOneBand | bench/metrics/ranking.py:177-179 | two finite scores are tied exactly if both round to one multiple of the quantum, halves going to the even one |
| TieBreaking.CloseScoresMayDiffer | bench/metrics/ranking.py:131-143 | scores closer than the quantum need not be tied, against the comment there: for every smaller gap there is such a pair |
| RankingMetrics.DistinctHits | bench/metrics/ranking.py:39-50 | the number of different gold files among the first k |
| RankingMetrics.RecallAtK | bench/metrics/ranking.py:53-75 | hits divided by all gold files, 0 for k not positive, NaN without gold |
| RankingMetrics.Mrr | bench/metrics/ranking.py:78-85 | the reciprocal rank of the first gold file, 0 if there is none |
| RankingMetrics.NdcgAtK | bench/metrics/ranking.py:88-116 | the discounted first hits divided by the ideal ones |
| RankingMetrics.RecallBelowCeiling | bench/metrics/ranking.py:119-128 | recall never exceeds the reachable ceiling when all candidates were scanned |
| RankingMetrics.CeilingIsReached | bench/metrics/ranking.py:119-128 | a ranking of all scanned files reaches the ceiling |
| RankingMetrics.DiscountedGap | bench/metrics/ranking.py:106-110 | summation by parts: more hits in every prefix means more discounted gain |
| RankingMetrics.NdcgInUnit | bench/metrics/ranking.py:88-116 | NDCG is NaN only without gold, and at most 1 even with repeated ids |
| RankingMetrics.PerfectNdcg | bench/metrics/ranking.py:88-116 | it is exactly 1 when the list starts with as many different gold files as it can |
| RankingMetrics.PessimisticMrrIsLowest | bench/metrics/ranking.py:11-13 | the reciprocal rank of the pessimistic order is the lowest of all tie-breakings |
| RankingMetrics.PessimisticIsLowest | bench/metrics/ranking.py:11-13 | if the gold files of every tie fall, recall and NDCG at every cut are the lowest of all tie-breakings too |
| RankingMetrics.LowestExactlyIfGoldFalls | bench/metrics/ranking.py:11-13 | recall, and equally NDCG under any discount, are lowest at every cut over all tie-breakings if and only if in every tie the gold files, by name, are first those listed higher up too and then the others by falling number of entries |
| RankingMetrics.GoldOnceFalls | bench/metrics/ranking.py:11-13 | which holds where no gold file is listed twice |
| RepeatedGold.FewestFiles | bench/metrics/ranking.py:150-158 | under this condition every prefix of the pessimistic order holds the fewest different gold files |
| RepeatedGold.SomeOrderDoesWorse | bench/metrics/ranking.py:150-158 | where two gold files of a tie break it, another order has fewer in some prefix |
| RankingMetrics.RepeatedGoldBreaksTheBound | bench/metrics/ranking.py:11-13 | of three tied entries a, b, b, all gold, the pessimistic order has a higher recall at 2 than the order b, b, a |
| RankingMetrics.ReciprocalRankInUnit | bench/metrics/ranking.py:78-85 | the reciprocal rank is NaN only without gold and lies in [0,1] |
| RankingMetrics.EvaluateInstance | bench/metrics/ranking.py:184-219 | refused exactly for different lengths or a quantum that is not positive; otherwise the numbers are those of one order, with gold files last in every tie: reciprocal rank, share of gold files found, discounted first hits over the ideal, and the share of gold files that were scanned; the reciprocal rank is a lower bound over all tie-breakings, recall and NDCG are if the gold files of every tie fall, and no recall exceeds the ceiling if all candidates were scanned |
| RankingMetrics.ReportMeans | bench/metrics/ranking.py:208-219 | each number of the report in terms of the order alone |
| CsvRecords.ReadRecord | src/cli/rank_main.cpp:31-69 | the state machine reads off the stream what the specification of one record says |
| CsvRecords.ReadsEveryRecord | src/cli/rank_main.cpp:29-30 | the reader accepts a record in every way section 2 of RFC 4180 allows to write it, with any of three line ends or none at the end of the text |
| CsvRecords.ReadsExactlyTheRecords | src/cli/rank_main.cpp:31-69 | it returns fields and rest if and only if the text is such a record followed by that rest, and reports the end exactly on empty input |
| CsvRecords.WriteField | src/cli/rank_main.cpp:134-140 | a field is quoted exactly if it holds a comma, a quote or a line break, with quotes doubled |
| CsvRecords.ReadRecords | src/cli/rank_main.cpp:120-121 | reading until the end collects all records or fails on the first faulty one |
| CsvRecords.RoundTrip | src/cli/rank_main.cpp:31-140 | written records of any strings come back unchanged if and only if none of them is without fields |
| SeedRows.SplitCsvLine | src/algo/SeedIo.cpp:10-36 | the splitter loop computes its specification |
| SeedRows.SplitsEveryRecord | src/algo/SeedIo.cpp:10-36 | on a line with one record, however written, it returns the fields, with or without a carriage return at the end |
| SeedRows.WriteRow | src/algo/SeedIo.cpp:125-136 | a row is the quoted id, a comma, the number and a line feed |
| SeedRows.RowRoundTrip | src/algo/SeedIo.cpp:10-36 | given its whole row, the splitter recovers any file id |
| SeedRows.LineRoundTrip | src/algo/SeedIo.cpp:82-86 | given the row by getline, it does so if and only if the id holds no line feed |
| LearningModel.CandidatesEligible | mcp/src/learning.ts:153-161 | the candidates are exactly the actions that serve the goal, are not skipped, were visited less than twice and have a fresh question or none |
| LearningModel.CandidatesSorted | mcp/src/learning.ts:162-162 | actions on the goal's own concepts come before all others |
| LearningChoices.NeededIff | mcp/src/learning.ts:154-157 | with the material of a prepared session, which has at most eight concepts, eight passes over the relations and eight over the actions find exactly what is needed: the least set that holds the targets and is closed |
| LearningChoices.EligibleIff | mcp/src/learning.ts:153-161 | an action passes the filters exactly if the goal needs its concept, no visit skipped it, it was visited less than twice, and it has no question or one not seen |
| LearningChoices.PreferredSize | mcp/src/learning.ts:158-169 | the k-th of the sorted candidates has exactly k before it: those on target first, otherwise in the order of the curriculum |
| LearningChoices.MovedArrives | mcp/src/learning.ts:176-191 | a move ends at one of the first five of these within the budget, with its first unseen question, or without a stop: out of budget, in need of material exactly if a target is open, or finished |
| LearningChoices.EveryChoice | mcp/src/learning.ts:169-174 | whichever of the first five fits into the budget, some outcome of the search chooses it, and some chooses none |
| LearningChoices.UnresolvedIff | mcp/src/learning.ts:181-184 | a target is open if it has weight, no visit skipped it, and its first estimate is missing, below 0.8 or from fewer than two observations |
| LearningSteps.NextItemOk | mcp/src/learning.ts:164-178 | the chosen action is a candidate and fits into the remaining budget |
| LearningSteps.MovedOk | mcp/src/learning.ts:176-191 | after a move the session is active exactly if it has a stop, which names one of its actions, is affordable and keeps the visit rules |
| LearningSteps.CompletedOk | mcp/src/learning.ts:324-326 | leaving a stop keeps the budget and the history rules |
| LearningSteps.EventSaved | mcp/src/learning.ts:87-90 | every save writes one event with the next revision |
| LearningSteps.AnswerAdded | mcp/src/learning.ts:296-302 | an answer adds one exposure row, one submission and one event, none of which was there |
| LearningSteps.AdvancedPredictions | mcp/src/learning.ts:323-325 | after leaving a stop, the model was applied there as often as the visit asks for |
| LearningJobs.JobSettled | mcp/src/learning.ts:339-339 | INSERT OR REPLACE moves a row to the end; settling a running job that way keeps all job rules |
| LearningJobs.JobAdded | mcp/src/learning.ts:369-373 | a new job has a fresh revision and comes after its rivals, which are over |
| LearningJobs.LastJobAt | mcp/src/learning.ts:353-354 | the last row is the last one: no later row fits |
| LearningStores.LearningStore.constructor | mcp/src/learning.ts:62-76 | an empty store satisfies the invariants |
| LearningStores.LearningStore.Start | mcp/src/learning.ts:203-211 | accepted exactly if the goal fits the limits, with weights that are not all zero; one new session at revision 1 |
| LearningStores.LearningStore.Prepare | mcp/src/learning.ts:213-271 | accepted exactly if revision, status, job, version, concepts, actions and relations fit; then the session holds the curriculum and has arrived at its first stop or ended, the job is ready, the concept table as stated, and nothing else changes |
| LearningStores.CheckConcepts | mcp/src/learning.ts:227-237 | concepts are accepted exactly if they are complete, different, frozen where they must be, and agree with the stored definitions, which never change |
| LearningStores.LearningStore.Respond | mcp/src/learning.ts:272-305 | a replayed submission gives the stored result and changes nothing, another request under its id is refused; a new answer is taken exactly if it is to the unseen question of the present stop, and counted once with one prediction and one observation |
| LearningStores.AnswerFitsIff | mcp/src/learning.ts:282-291 | what the store takes as an answer, in terms of the tables |
| LearningStores.GoalFitsIff | mcp/src/learning.ts:204-207 | what it takes as a goal |
| LearningStores.CurriculumFitsIff | mcp/src/learning.ts:216-262 | what it takes as a curriculum |
| LearningStores.LearningStore.Advance | mcp/src/learning.ts:306-333 | continue and skip charge the stop, put it into the history and apply the model if it was continued unanswered; the session has then arrived at its next stop or ended, out of budget, in need of material exactly if a target is open, or finished |
| LearningStores.LearningStore.Stop | mcp/src/learning.ts:313-319 | stop ends the session and fails all its running jobs and no other |
| LearningStores.LearningStore.FailRunning | mcp/src/learning.ts:315-318 | the loop over a snapshot of the rows fails exactly the running jobs of the session, although each save reorders the table |
| LearningStores.Judge | mcp/src/learning.ts:350-364 | which request joins, shares an outcome, is refused, gives up or starts a job, and which job is handed back: the running one, the last one, or the previous or a blank one as ready or failed |
| LearningStores.LearningStore.RequestPreparation | mcp/src/learning.ts:346-376 | in each case what is returned and what is written: the joined or shared job, the previous or a blank one marked ready for an active session and failed on giving up, or a new one, which nobody was given before and which the caller is told to run |
| LearningStores.RequestStarts | mcp/src/learning.ts:366-373 | the new job field by field, the session that waits for it, and the job table |
| LearningStores.NumberOfJobs | mcp/src/learning.ts:351-364 | the jobs counted against the limit are the rows of the session |
| LearningStores.LearningStore.FinishPreparation | mcp/src/learning.ts:392-401 | a running job fails and its row goes to the end; its session needs other material if it still waits at its revision, and is as it was otherwise |
| LearningStores.LearningStore.SaveJobCurriculum | mcp/src/learning.ts:443-446 | a curriculum comes in through a job only if it is running for the present revision |
| LearningRuns.OneMatchingJob | mcp/src/learning.ts:217-221 | at most one running job matches the session |
| LearningRuns.JobLimits | mcp/src/learning.ts:364-372 | at most three jobs for a session, at most two for one version, the first of which is over |
| LearningRuns.JoinedJobMatches | mcp/src/learning.ts:355-356 | a joined job is the matching one |
| LearningRuns.StoppedIsOver | mcp/src/learning.ts:313-319 | a stopped session has no running job and none can be started |
| LearningRuns.LateJobIsHarmless | mcp/src/learning.ts:392-400 | neither the failure nor the curriculum of a job reaches a session that moved on |
| LearningRuns.BudgetKept | mcp/src/learning.ts:153-191 | spent is the sum of what the visits cost at the time and within the budget; no action is visited more than twice, no skipped concept again |
| LearningRuns.PredictedOnce | mcp/src/learning.ts:292-323 | the model was applied at most once at every stop, exactly once if it was continued, and at a skipped one exactly if it was answered |
| LearningRuns.CountedOnce | mcp/src/learning.ts:274-303 | no question is counted twice for a learner and a repository, submissions and counted answers are equally many, and the revision is the number of events |
| LearningRuns.RunIsSafe | mcp/src/learning.ts:78-93 | over any run: stopped stays stopped and quiet, finished jobs stay as they are, submissions and definitions never change, events, revisions and spending only grow |
| LearningRuns.RevisionsCountEvents | mcp/src/learning.ts:87-90 | between any two points of a run the revision of a session grows by the number of its events in between |
| LearningRuns.EventsBelowCalls | mcp/src/learning.ts:78-90 | and there are never more new events than calls: no call saves a session twice |
| LearningRuns.AppliedAtMostOnce | mcp/src/learning.ts:292-323 | of all calls in a run at most one applies the model at a given stop |
| LearningRuns.ContinuedAppliedOnce | mcp/src/learning.ts:292-323 | and exactly one, if the stop was continued in the course of the run |
| LearningRuns.Perform | mcp/src/learning.ts:78-93 | a call saves at most one session, with its next revision and one event, adds predictions and charges, and leaves all else as the evolution of the tables allows |
| LearningRuns.Execute | mcp/src/learning.ts:57-80 | any calls in any order with any arguments make such a run, in every state of which the invariants hold |

## Left out

- Floating-point rounding, overflow of path counts, and the depth of the recursion in `dfs`.
- GraphModel.LoadFileGraph: starts from link rows with their weights; the SQL queries, the link-type weights and the logarithmic count factor are not modelled.
- Tarjan.TarjanState.Dfs: the vectors are sequence-valued fields that are reassigned, not arrays; aliasing between them cannot arise and is not modelled. The message about large components is left out.
- GraphModel.Graph.AddEdge: graphs assembled by writing into adj and radj directly are covered by EdgeWeight and OutWeight only; the growth of adj_w for such graphs is not modelled.
- Sequencer.Sequence: the condensation, in-degrees, heap and result are local sequences; which of several components with the same score a binary heap pops is left open.
- Sequencer.Dedup: std::sort is an insertion sort here and everywhere; only sortedness and permutation are used.
- BrandesAlgorithm.Search: sigma, dist, pred, queue and stack are local sequences that are reassigned; bc and the shuffled sources are arrays.
- BrandesAlgorithm.Shuffle: proves that the result is a permutation, not that it is a particular or a random one.
- Merging.Merge: the order of the files in the second part is any order, as an unordered map gives it.
- Personalized.PersonalizedPageRank: the graph is given; opening the database and building the graph from it are left out.
- Pipeline.Run: the complexity of the files is an argument; the database reads and writes around it are left out, and so is the function graph's own loading.
- Pipeline.Centrality: the square root is an exact integer one, rounded up.
- RankingMetrics.NdcgAtK: the discount is any positive, non-increasing function; 1/log2(i+1) is one.
- TieBreaking.QuantisedOrder: dividing an extreme finite score by the quantum cannot overflow here.
- CsvRecords.ReadRecord: characters are an abstract alphabet and the stream never fails; the byte-order mark, the header, number parsing and the feature table are left out.
- SeedRows.WriteRow: the number is any text without special characters; loadSeedCsv around the splitter is left out.
- LearningStores.LearningStore.Prepare: question compilation, source-dependent checks of actions and relations, captions and probabilities are one argument that may fail.
- LearningStores.LearningStore.Respond: predict and observe are functions given to the store; the shared table of estimates is represented by the refreshed estimates a call may find.
- LearningStores.LearningStore.RequestPreparation: a cached curriculum is installed by a separate transaction, which is a call of Prepare with that curriculum; the cache table itself is left out.
- LearningStores.LearningStore.Start: of validateGoal only what concerns limits, targets and weights; the names of goal and queries are left out.
- The answers of the store to a client beyond session, result and job: the preview decision, the visible question and the texts of `view` and `context`.
- Resolver, snapshots, tours, rendering, servers, LightGBM training, fold assignment and the embedding clients.
