/** AlgoPass::run and the way from two loaded graphs to the merged entries: scores, reading order, ranks. */
module Pipeline {
  import opened Outcomes
  import opened Digraph
  import opened Sorting
  import opened Sums
  import opened MemberOrder
  import opened ReadingOrders
  import opened GraphModel
  import opened ShortestPaths
  import opened Merging
  import opened LocalRanks
  import opened GraphWalk
  import R = RandomWalk
  import PR = PageRank
  import B = BrandesAlgorithm
  import S = Scores
  import Q = Sequencer

  datatype PassLevel = File | Function

  /** Below `exactV` nodes betweenness is exact, below `largeV` it is sampled with the square root of the number of
      nodes, beyond with a fixed number of sources. */
  datatype Limits = Limits(exactV: int, largeV: int, fixedK: int)

  datatype Config = Config(alpha: real, beta: real, gamma: real, normMode: int, neutral: real, damping: real, eps: real,
                           maxIter: int, files: Limits, functions: Limits, enableFunctions: bool, kMin: int, seed: nat)

  /** The square root, rounded up. */
  function CeilSqrt(n: nat): (r: nat)
    ensures r * r >= n && (r > 0 ==> (r - 1) * (r - 1) < n)
  {
    CeilSqrtFrom(n, 0)
  }

  lemma SquareAtLeast(k: nat)
    ensures k <= k * k
  {
  }

  function CeilSqrtFrom(n: nat, k: nat): (r: nat)
    requires k <= n && (k > 0 ==> (k - 1) * (k - 1) < n)
    ensures r * r >= n && (r > 0 ==> (r - 1) * (r - 1) < n)
    decreases n - k
  {
    if k * k >= n then k
    else
      SquareAtLeast(k);
      CeilSqrtFrom(n, k + 1)
  }

  lemma SquareMono(a: nat, b: nat)
    requires a <= b
    ensures a * a <= b * b
  {
    assert b * b - a * a == (b - a) * (b + a);
  }

  /** k sources stand for all of them: those of a list without repetitions, what they add scaled up by N / k. */
  ghost predicate EstimatedFrom(adj: Adjacency, k: int, order: seq<nat>, bc: seq<real>) {
    && |bc| == |adj| && IsPermutationOf(|adj|, order)
    && forall v: nat :: v < |adj| ==>
         bc[v] == if k <= 0 then 0.0
                  else if k < |adj| then Sum(k, B.Sampled(order, FromOthers(adj, v))) * (|adj| as real / k as real)
                  else Betweenness(adj, v)
  }

  /** The number of sources in the middle band: the square root rounded up, but no fewer than the least number and no
      more than there are nodes. */
  predicate IsRootSample(kMin: int, n: nat, k: int) {
    && k <= n && (n < kMin ==> k == n) && (kMin <= n ==> kMin <= k)
    && (k < n ==> k >= 0 && k * k >= n)
    && (kMin < k && k > 0 ==> (k - 1) * (k - 1) < n)
  }

  lemma AtMostItsNumber(n: nat, root: nat)
    requires root > 0 ==> (root - 1) * (root - 1) < n
    ensures root <= n
  {
    if root > 1 { SquareAtLeast(root - 1); }
  }

  method RootSample(kMin: int, n: nat) returns (k: int)
    ensures IsRootSample(kMin, n, k)
  {
    var root := CeilSqrt(n);
    AtMostItsNumber(n, root);
    var most := if kMin < root then root else kMin;
    k := if n < most then n else most;
    if k == root {
      assert k * k >= n;
    } else {
      assert k <= kMin;
      if k == kMin { SquareMono(root, kMin); }
    }
  }

  /** The bands, from small graphs to large ones: betweenness itself, an estimate from the square root of the number of
      nodes, an estimate from a fixed number of them. */
  ghost predicate IsBanded(adj: Adjacency, limits: Limits, kMin: int, bc: seq<real>, k: int, order: seq<nat>) {
    && |bc| == |adj|
    && if |adj| < limits.exactV then forall v: nat :: v < |adj| ==> bc[v] == Betweenness(adj, v)
       else if |adj| < limits.largeV then EstimatedFrom(adj, k, order, bc) && IsRootSample(kMin, |adj|, k)
       else EstimatedFrom(adj, k, order, bc) && k == if limits.fixedK <= |adj| then limits.fixedK else |adj|
  }

  ghost predicate IsCentrality(adj: Adjacency, cfg: Config, level: PassLevel, bc: seq<real>, k: int, order: seq<nat>) {
    match level
    case File => IsBanded(adj, cfg.files, cfg.kMin, bc, k, order)
    case Function =>
      if cfg.enableFunctions then IsBanded(adj, cfg.functions, cfg.kMin, bc, k, order)
      else |bc| == |adj| && forall v :: 0 <= v < |adj| ==> bc[v] == 0.0
  }

  /** make_bc_strategy and the strategy's compute. */
  method Centrality(adj: Adjacency, cfg: Config, level: PassLevel) returns (bc: seq<real>, ghost k: int, ghost order: seq<nat>)
    requires Simple(adj)
    ensures |bc| == |adj|
    ensures level.Function? && !cfg.enableFunctions ==> forall v :: 0 <= v < |adj| ==> bc[v] == 0.0
    ensures (level.File? && |adj| < cfg.files.exactV) || (level.Function? && cfg.enableFunctions && |adj| < cfg.functions.exactV) ==>
      forall v: nat :: v < |adj| ==> bc[v] == Betweenness(adj, v)
    ensures IsCentrality(adj, cfg, level, bc, k, order)
  {
    hide Simple, Betweenness, IsPermutationOf, FromOthers, IsRootSample;
    k, order := 0, [];
    if level.Function? && !cfg.enableFunctions { return seq(|adj|, _ => 0.0), k, order; }
    var limits := if level.File? then cfg.files else cfg.functions;
    var n := |adj|;
    if n < limits.exactV {
      var exact := B.Exact(adj);
      return exact[..], k, order;
    }
    var sources := limits.fixedK;
    if n < limits.largeV {
      sources := RootSample(cfg.kMin, n);
    } else if n < sources {
      sources := n;
    }
    var sampled;
    sampled, order := B.Sampling(adj, sources, cfg.seed);
    return sampled[..], sources, order;
  }

  lemma GraphIsSimple(g: Graph)
    requires g.Valid()
    ensures Simple(g.adj) && |g.nodeToId| == |g.adj|
  {
    forall u | 0 <= u < |g.adj|
      ensures Distinct(g.adj[u])
    {
      g.NoParallelEdges(u);
    }
  }

  lemma RankSize(w: R.Walk, n: nat, sweeps: nat)
    requires |w.adj| == n
    ensures |w.Iterate(PR.Uniform(n), sweeps)| == n
  {
    R.IterateSize(w, PR.Uniform(n), sweeps);
  }

  /** What a pass computed on the way: the vectors of PageRank from the restart distribution p, the sources betweenness was
      estimated from, the normalised ranks, and the components in reading order. */
  datatype Trace = Trace(p: seq<real>, vectors: seq<seq<real>>, k: int, sources: seq<nat>, prn: seq<real>, bcn: seq<real>,
                         blocks: seq<seq<nat>>)

  /** The scores of a pass: PageRank without seeds on the weights of the graph, betweenness, and their mean with ease. */
  ghost predicate AreScores(g: Graph, cfg: Config, complexity: seq<real>, level: PassLevel, pass: PassResult, t: Trace)
    requires g.Valid()
    reads g
  {
    && |pass.pr| == |pass.bc| == |pass.sc| == |t.p| == |g.adj|
    && (forall v :: 0 <= v < |t.p| ==> t.p[v] == 1.0 / |g.adj| as real)
    && (g.adj != [] ==> IsPageRankRun(g, t.p, cfg.damping, cfg.eps, cfg.maxIter, t.vectors) &&
                        pass.pr == t.vectors[|t.vectors| - 1])
    && IsCentrality(g.adj, cfg, level, pass.bc, t.k, t.sources)
    && S.NormalizedAs(cfg.normMode, pass.pr, t.prn) && S.NormalizedAs(cfg.normMode, pass.bc, t.bcn)
    && S.IsMean(cfg.alpha, cfg.beta, cfg.gamma, complexity, cfg.neutral, t.prn, t.bcn, pass.sc)
  }

  /** The order of a pass is a reading order for its scores. */
  ghost predicate IsOrdered(g: Graph, complexity: seq<real>, pass: PassResult, t: Trace)
    reads g
  {
    && pass.order == Flat(t.blocks) && IsReadingOrder(g.adj, Keys(pass.sc, complexity, g.nodeToId), t.blocks)
    && CyclesInOrder(g.adj, g.nodeToId, pass.sc, complexity, pass.order)
  }

  /** The unseeded ranks of a graph. */
  method UnseededRank(g: Graph, cfg: Config) returns (pr: seq<real>, ghost p: seq<real>, ghost vectors: seq<seq<real>>)
    requires g.Valid()
    ensures |pr| == |p| == |g.adj| && forall v :: 0 <= v < |p| ==> p[v] == 1.0 / |g.adj| as real
    ensures g.adj != [] ==> IsPageRankRun(g, p, cfg.damping, cfg.eps, cfg.maxIter, vectors) && pr == vectors[|vectors| - 1]
  {
    hide IsPageRankRun, PR.Uniform, PR.StopsAt, IndexOk, TransposeOk, Bijection;
    UniformLength(|g.adj|);
    p, vectors := PR.Uniform(|g.adj|), [];
    assert WellFormed(g.adj) by { GraphIsSimple(g); }
    var ranked, w, sweeps := PR.Compute(g.adj, g.adjW, cfg.damping, cfg.eps, cfg.maxIter, []);
    pr := ranked.value;
    if g.adj != [] {
      RankSize(w, |g.adj|, sweeps);
      WalkIsRun(g, w, cfg.eps, cfg.maxIter, sweeps);
      vectors := Vectors(w, sweeps);
    }
  }

  lemma EmptyScores(mode: int, alpha: real, beta: real, gamma: real, complexity: seq<real>, neutral: real)
    ensures S.NormalizedAs(mode, [], []) && S.IsMean(alpha, beta, gamma, complexity, neutral, [], [], [])
  {
  }

  /** One pass: scores, and the order they lead to. */
  method RunPass(g: Graph, cfg: Config, complexity: seq<real>, level: PassLevel)
      returns (r: Result<PassResult>, ghost t: Trace)
    requires g.Valid()
    ensures r.Ok? && AreScores(g, cfg, complexity, level, r.value, t) && IsOrdered(g, complexity, r.value, t)
  {
    hide IsReadingOrder, CyclesInOrder, IsCentrality, IsPageRankRun, S.NormalizedAs, S.IsMean, S.IsNormalized, S.Combined, Simple, IndexOk,
      TransposeOk, Bijection;
    GraphIsSimple(g);
    EmptyScores(cfg.normMode, cfg.alpha, cfg.beta, cfg.gamma, complexity, cfg.neutral);
    var adj := g.adj;
    var pr, p, vectors := UnseededRank(g, cfg);
    var bc, k, sources := Centrality(adj, cfg, level);
    CentralitySize(adj, cfg, level, bc, k, sources);
    var sc, prn, bcn := S.Combine(pr, bc, complexity, cfg.alpha, cfg.beta, cfg.gamma, cfg.normMode, cfg.neutral);
    var order;
    ghost var blocks;
    order, blocks := Q.Sequence(adj, g.nodeToId, sc, complexity);
    t := Trace(p, vectors, k, sources, prn, bcn, blocks);
    return Ok(PassResult(pr, bc, sc, order.value)), t;
  }

  lemma CentralitySize(adj: Adjacency, cfg: Config, level: PassLevel, bc: seq<real>, k: int, order: seq<nat>)
    requires IsCentrality(adj, cfg, level, bc, k, order)
    ensures |bc| == |adj|
  {
  }

  /** Both are entries of files, and the first needs the second outside its own cycle. */
  ghost predicate MustFollow(adj: Adjacency, ids: map<string, nat>, a: Entry, b: Entry) {
    IsFileEntry(a) && IsFileEntry(b) && NeedsOutsideCycle(adj, ids, a.entityId, b.entityId)
  }

  ghost predicate FilesInOrder(adj: Adjacency, ids: map<string, nat>, entries: seq<Entry>) {
    forall r, s :: 0 <= r < |entries| && 0 <= s < |entries| && MustFollow(adj, ids, entries[r], entries[s]) ==>
      entries[s].fileRank < entries[r].fileRank
  }

  ghost predicate HasFile(entries: seq<Entry>, f: string) {
    exists r :: 0 <= r < |entries| && IsFileEntry(entries[r]) && entries[r].entityId == f
  }

  /** The project files of the graph have one entry each, first of all and with the ranks 1, 2, 3 and so on. */
  ghost predicate FilesRanked(ids: map<string, nat>, m: Metadata, entries: seq<Entry>) {
    && (forall r :: 0 <= r < |entries| && IsFileEntry(entries[r]) ==> entries[r].fileRank == r + 1)
    && (forall r, s :: 0 <= r < s < |entries| && IsFileEntry(entries[s]) ==> IsFileEntry(entries[r]))
    && (forall f :: f in ids && f in m.fileLoc ==> HasFile(entries, f))
    && (forall r :: 0 <= r < |entries| && IsFileEntry(entries[r]) ==> entries[r].entityId in ids && entries[r].entityId in m.fileLoc)
    && (forall r, s :: 0 <= r < s < |entries| && IsFileEntry(entries[r]) && IsFileEntry(entries[s]) ==>
          entries[r].entityId != entries[s].entityId)
  }

  lemma RankedFiles(adj: Adjacency, keys: Keys, blocks: seq<seq<nat>>, ids: map<string, nat>, names: seq<string>,
                    pass: PassResult, m: Metadata, entries: seq<Entry>, at: seq<nat>)
    requires WellFormed(adj) && IsReadingOrder(adj, keys, blocks) && pass.order == Flat(blocks)
    requires Bijection(ids, names) && |names| == |adj|
    requires |at| <= |entries| && RanksFiles(pass, names, m, entries[..|at|], at)
    requires forall k :: 0 <= k < |entries| ==> entries[k].fileRank == if k < |at| then k + 1 else 0
    ensures FilesInOrder(adj, ids, entries) && FilesRanked(ids, m, entries)
  {
    hide IsReadingOrder, RanksFiles;
    OrderedFiles(adj, keys, blocks, ids, names, pass, m, entries, at);
    NamesDistinct(ids, names);
    var files := entries[..|at|];
    forall f | f in ids && f in m.fileLoc
      ensures HasFile(entries, f)
    {
      EveryFileRankedOnce(adj, keys, blocks, pass, names, m, files, at, ids[f]);
      var r :| 0 <= r < |files| && files[r].entityId == f;
      assert entries[r] == files[r] && IsFileEntry(entries[r]);
    }
    forall r: nat | r < |at|
      ensures entries[r].entityId in ids && entries[r].entityId in m.fileLoc
    {
      assert entries[r] == files[r];
      RankedIsProjectFile(pass, names, m, files, at, r);
    }
    forall r, s | 0 <= r < s < |at|
      ensures entries[r].entityId != entries[s].entityId
    {
      assert entries[r] == files[r] && entries[s] == files[s];
      RankedIsProjectFile(pass, names, m, files, at, r);
      EveryFileRankedOnce(adj, keys, blocks, pass, names, m, files, at, pass.order[at[r]]);
    }
  }

  lemma RankedIsProjectFile(pass: PassResult, names: seq<string>, m: Metadata, files: seq<Entry>, at: seq<nat>, r: nat)
    requires RanksFiles(pass, names, m, files, at) && r < |files|
    ensures |at| == |files| && at[r] < |pass.order| && IsProjectFile(names, m, pass.order[at[r]])
    ensures files[r].entityId == names[pass.order[at[r]]]
  {
  }

  lemma OrderedFiles(adj: Adjacency, keys: Keys, blocks: seq<seq<nat>>, ids: map<string, nat>, names: seq<string>,
                     pass: PassResult, m: Metadata, entries: seq<Entry>, at: seq<nat>)
    requires WellFormed(adj) && IsReadingOrder(adj, keys, blocks) && pass.order == Flat(blocks)
    requires Bijection(ids, names) && |names| == |adj|
    requires |at| <= |entries| && RanksFiles(pass, names, m, entries[..|at|], at)
    requires forall k :: 0 <= k < |entries| ==> entries[k].fileRank == if k < |at| then k + 1 else 0
    ensures FilesInOrder(adj, ids, entries)
  {
    hide IsReadingOrder, Reach, Mutual, RanksFiles;
    var files := entries[..|at|];
    forall r, s | 0 <= r < |entries| && 0 <= s < |entries| && MustFollow(adj, ids, entries[r], entries[s])
      ensures entries[s].fileRank < entries[r].fileRank
    {
      RankedIsProjectFile(pass, names, m, files, at, r);
      RankedIsProjectFile(pass, names, m, files, at, s);
      DependencyHasSmallerRank(adj, keys, blocks, pass, names, m, files, at, r, s);
    }
  }

  lemma NamesDistinct(ids: map<string, nat>, names: seq<string>)
    requires Bijection(ids, names)
    ensures Distinct(names)
  {
    forall i, j | 0 <= i < j < |names|
      ensures names[i] != names[j]
    {
      assert ids[names[i]] == i && ids[names[j]] == j;
    }
  }

  lemma RankedEntities(adj: Adjacency, keys: Keys, blocks: seq<seq<nat>>, fp: PassResult, fileNames: seq<string>,
                       p: PassResult, g: FuncGraph, m: Metadata, entries: seq<Entry>, at: seq<nat>, rank: map<string, nat>,
                       groups: seq<Group>)
    requires WellFormed(adj) && IsReadingOrder(adj, keys, blocks) && p.order == Flat(blocks)
    requires Bijection(g.ids, g.names) && |g.names| == |adj|
    requires IsMerged(fp, fileNames, p, g, m, entries, at, rank, groups)
    requires forall k :: 0 <= k < |entries| ==> entries[k].fileRank == if k < |at| then k + 1 else 0
    requires IsPermutationOf(|adj|, p.order) && |p.pr| == |p.bc| == |p.sc| == |g.names|
    ensures EntitiesInOrder(adj, g.ids, entries) && EntitiesRanked(g.ids, m, entries)
    ensures EntitiesCarry(g.ids, m, p, entries) && EntitiesAsRead(g.ids, p.order, entries)
  {
    hide IsReadingOrder, IsGlobalRank, AreGroups, HasGroup, EntitiesOf, EntitiesInOrder, EntitiesListed, EntitiesNumbered,
      Bijection, Distinct, WellFormed, IsMerged, Flat, FlatGroups, EntitiesCarry, EntitiesAsRead, IsPermutationOf;
    MergedParts(fp, fileNames, p, g, m, entries, at, rank, groups);
    NamesDistinct(g.ids, g.names);
    GroupedListed(p, g, rank, m, groups);
    GroupedNumbered(p, g, rank, m, groups);
    GroupedInOrder(adj, keys, blocks, p, g, rank, m, groups);
    GroupedCarry(p, g, rank, m, groups);
    GroupedAsRead(adj, p, g, rank, m, groups);
    BehindFiles(adj, g.ids, m, entries[..|at|], FlatGroups(groups));
    CarriedBehind(g.ids, m, p, entries[..|at|], FlatGroups(groups), entries);
  }

  lemma MergedParts(fp: PassResult, fileNames: seq<string>, p: PassResult, g: FuncGraph, m: Metadata, entries: seq<Entry>,
                    at: seq<nat>, rank: map<string, nat>, groups: seq<Group>)
    requires IsMerged(fp, fileNames, p, g, m, entries, at, rank, groups)
    ensures |at| <= |entries| && entries == entries[..|at|] + FlatGroups(groups)
    ensures AreGroups(p, g, rank, m, groups) && IsGlobalRank(p.order, g.names, rank)
    ensures forall f :: EntitiesOf(g.names, m, f) != [] ==> HasGroup(groups, f)
  {
    hide RanksFiles, AreGroups, IsGlobalRank, HasGroup, EntitiesOf, FlatGroups;
    assert entries == entries[..|at|] + entries[|at|..];
  }

  /** AlgoRunner::run between loading the graphs and writing the result: in the merged entries every project file comes
      after the files it needs outside its own cycle, and inside each file the same holds of functions and classes. */
  method Run(fileGraph: Graph, funcGraph: Graph, cfg: Config, complexity: seq<real>, m: Metadata)
      returns (entries: seq<Entry>, ghost files: PassResult, ghost fileTrace: Trace, ghost functions: PassResult,
               ghost functionTrace: Trace)
    requires fileGraph.Valid() && funcGraph.Valid()
    ensures AreScores(fileGraph, cfg, complexity, File, files, fileTrace) && IsOrdered(fileGraph, complexity, files, fileTrace)
    ensures AreScores(funcGraph, cfg, [], Function, functions, functionTrace) && IsOrdered(funcGraph, [], functions, functionTrace)
    ensures FilesCarry(fileGraph.idToNode, files, entries) && FilesAsRead(fileGraph.idToNode, files.order, entries)
    ensures EntitiesCarry(funcGraph.idToNode, m, functions, entries)
    ensures EntitiesAsRead(funcGraph.idToNode, functions.order, entries)
    ensures FilesInOrder(fileGraph.adj, fileGraph.idToNode, entries)
    ensures FilesRanked(fileGraph.idToNode, m, entries)
    ensures EntitiesInOrder(funcGraph.adj, funcGraph.idToNode, entries)
    ensures EntitiesRanked(funcGraph.idToNode, m, entries)
  {
    hide IsReadingOrder, RanksFiles, FilesInOrder, FilesRanked, EntitiesInOrder, EntitiesListed, EntitiesNumbered, AreScores,
      IsOrdered, FilesCarry, FilesAsRead, EntitiesCarry, EntitiesAsRead, IsMerged, IndexOk, TransposeOk, Bijection;
    var filePass, functionPass;
    filePass, fileTrace := RunPass(fileGraph, cfg, complexity, File);
    functionPass, functionTrace := RunPass(funcGraph, cfg, [], Function);
    files, functions := filePass.value, functionPass.value;
    var g := FuncGraph(funcGraph.nodeToId, funcGraph.idToNode);
    ghost var at, rank, groups;
    entries, at, rank, groups := Merge(filePass.value, fileGraph.nodeToId, functionPass.value, g, m);
    FileRankIsPosition(files, fileGraph.nodeToId, functions, g, m, entries, at, rank, groups);
    PassFacts(fileGraph, cfg, complexity, File, files, fileTrace);
    PassFacts(funcGraph, cfg, [], Function, functions, functionTrace);
    MergedFiles(files, fileGraph.nodeToId, functions, g, m, entries, at, rank, groups);
    RankedEntities(funcGraph.adj, Keys(functions.sc, [], funcGraph.nodeToId), functionTrace.blocks, files, fileGraph.nodeToId,
                   functions, g, m, entries, at, rank, groups);
    RankedFiles(fileGraph.adj, Keys(files.sc, complexity, fileGraph.nodeToId), fileTrace.blocks, fileGraph.idToNode,
                fileGraph.nodeToId, files, m, entries, at);
    FilesCarried(files, fileGraph.idToNode, fileGraph.nodeToId, m, entries, at);
  }

  lemma PassFacts(g: Graph, cfg: Config, complexity: seq<real>, level: PassLevel, pass: PassResult, t: Trace)
    requires g.Valid() && AreScores(g, cfg, complexity, level, pass, t) && IsOrdered(g, complexity, pass, t)
    ensures WellFormed(g.adj) && Bijection(g.idToNode, g.nodeToId) && |g.nodeToId| == |g.adj|
    ensures IsReadingOrder(g.adj, Keys(pass.sc, complexity, g.nodeToId), t.blocks) && pass.order == Flat(t.blocks)
    ensures |pass.pr| == |pass.bc| == |pass.sc| == |g.nodeToId|
    ensures IsPermutationOf(|g.adj|, pass.order) && Distinct(pass.order)
  {
    hide IsReadingOrder, CyclesInOrder, IsCentrality, IsPageRankRun, S.NormalizedAs, S.IsMean;
    ReadsEveryNodeOnce(g.adj, Keys(pass.sc, complexity, g.nodeToId), t.blocks);
  }

  lemma MergedFiles(fp: PassResult, fileNames: seq<string>, p: PassResult, g: FuncGraph, m: Metadata, entries: seq<Entry>,
                    at: seq<nat>, rank: map<string, nat>, groups: seq<Group>)
    requires IsMerged(fp, fileNames, p, g, m, entries, at, rank, groups)
    ensures |at| <= |entries| && RanksFiles(fp, fileNames, m, entries[..|at|], at)
  {
    hide RanksFiles, AreGroups, IsGlobalRank, HasGroup, EntitiesOf, FlatGroups;
  }
}
