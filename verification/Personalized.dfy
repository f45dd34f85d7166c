/** AlgoRunner::personalizedPageRank: from the seeds to the list of project files by their rank. */
module Personalized {
  import opened Digraph
  import opened Sums
  import opened Sorting
  import opened MemberOrder
  import opened GraphModel
  import opened RandomWalk
  import opened PageRank
  import opened GraphWalk
  import opened Outcomes

  datatype PprEntry = PprEntry(fileId: string, ppr: real)

  /** Higher rank first; files of the same rank by name. */
  predicate Above(a: PprEntry, b: PprEntry) {
    if a.ppr != b.ppr then a.ppr > b.ppr else LexLess(a.fileId, b.fileId)
  }

  lemma AboveIsWeakOrder()
    ensures WeakOrder((a: PprEntry, b: PprEntry) => Above(a, b))
  {
    forall a: PprEntry, b: PprEntry
      ensures !(Above(a, b) && Above(b, a))
    {
      LexAsym(a.fileId, b.fileId);
    }
    forall a: PprEntry, b: PprEntry, c: PprEntry | !Above(b, a) && !Above(c, b)
      ensures !Above(c, a)
    {
      if a.ppr == b.ppr == c.ppr {
        LexNegTrans(a.fileId, b.fileId, c.fileId);
      }
    }
  }

  /** The entry that node i gives. */
  predicate EntryOf(names: seq<string>, x: seq<real>, i: nat, e: PprEntry) {
    i < |names| && i < |x| && e == PprEntry(names[i], x[i])
  }

  ghost predicate FromFirst(names: seq<string>, files: set<string>, x: seq<real>, k: nat, e: PprEntry) {
    e.fileId in files && exists i: nat :: i < k && EntryOf(names, x, i, e)
  }

  /** Exactly the project files of the graph, each once with the value of its node, from the highest value
      down and by name where values are equal. */
  ghost predicate RankedFiles(names: seq<string>, files: set<string>, x: seq<real>, out: seq<PprEntry>) {
    && (forall e :: e in out <==> FromFirst(names, files, x, |names|, e))
    && (forall r, s :: 0 <= r < s < |out| ==>
          out[r].ppr > out[s].ppr || (out[r].ppr == out[s].ppr && NameFirst(out[r].fileId, out[s].fileId)))
  }

  lemma AboveIff(a: PprEntry, b: PprEntry)
    ensures Above(a, b) <==> a.ppr > b.ppr || (a.ppr == b.ppr && NameFirst(a.fileId, b.fileId))
  {
    LexLessIff(a.fileId, b.fileId);
  }

  lemma ListedAbove(names: seq<string>, files: set<string>, x: seq<real>, out: seq<PprEntry>)
    requires RankedFiles(names, files, x, out)
    ensures forall r, s :: 0 <= r < s < |out| ==> Above(out[r], out[s])
  {
    forall r, s | 0 <= r < s < |out|
      ensures Above(out[r], out[s])
    {
      AboveIff(out[r], out[s]);
    }
  }

  /** Such a list is determined by the values. */
  lemma RankedFilesUnique(names: seq<string>, files: set<string>, x: seq<real>, a: seq<PprEntry>, b: seq<PprEntry>)
    requires RankedFiles(names, files, x, a) && RankedFiles(names, files, x, b)
    ensures a == b
  {
    hide FromFirst, LexLess, NameFirst;
    AboveIsWeakOrder();
    ListedAbove(names, files, x, a);
    ListedAbove(names, files, x, b);
    StrictDistinct(a);
    StrictDistinct(b);
    StrictIsOnlySort((p: PprEntry, q: PprEntry) => Above(p, q), a, b);
  }

  lemma StrictDistinct(a: seq<PprEntry>)
    requires forall r, s :: 0 <= r < s < |a| ==> Above(a[r], a[s])
    ensures Distinct(a) && SortedBy((p: PprEntry, q: PprEntry) => Above(p, q), a)
  {
    forall r, s | 0 <= r < s < |a|
      ensures a[r] != a[s] && !Above(a[s], a[r])
    {
      LexAsym(a[r].fileId, a[s].fileId);
    }
  }

  /** The entries of the project files among the first k nodes. */
  ghost predicate Collected(names: seq<string>, files: set<string>, x: seq<real>, k: nat, out: seq<PprEntry>) {
    && (forall e :: e in out <==> FromFirst(names, files, x, k, e))
    && (forall r, s :: 0 <= r < s < |out| ==> out[r].fileId != out[s].fileId)
  }

  method Collect(names: seq<string>, files: set<string>, x: seq<real>) returns (out: seq<PprEntry>)
    requires |x| == |names| && Distinct(names)
    ensures Collected(names, files, x, |names|, out)
  {
    hide FromFirst, Collected, Distinct;
    out := [];
    NoneYet(names, files, x);
    for i := 0 to |names|
      invariant Collected(names, files, x, i, out)
    {
      CollectStep(names, files, x, i, out);
      if names[i] !in files { continue; }
      out := out + [PprEntry(names[i], x[i])];
    }
  }

  lemma NoneYet(names: seq<string>, files: set<string>, x: seq<real>)
    ensures Collected(names, files, x, 0, [])
  {
  }

  lemma CollectStep(names: seq<string>, files: set<string>, x: seq<real>, i: nat, out: seq<PprEntry>)
    requires i < |names| == |x| && Distinct(names) && Collected(names, files, x, i, out)
    ensures Collected(names, files, x, i + 1, if names[i] in files then out + [PprEntry(names[i], x[i])] else out)
  {
    hide FromFirst;
    NextEntry(names, files, x, i);
    if names[i] in files {
      forall r | 0 <= r < |out|
        ensures out[r].fileId != names[i]
      {
        EarlierName(names, files, x, i, out[r]);
      }
      var entry := PprEntry(names[i], x[i]);
      var next := out + [entry];
      forall e
        ensures e in next <==> FromFirst(names, files, x, i + 1, e)
      {
        assert e in next <==> e in out || e == entry;
      }
    }
  }

  lemma EarlierName(names: seq<string>, files: set<string>, x: seq<real>, i: nat, e: PprEntry)
    requires Distinct(names) && i < |names| && FromFirst(names, files, x, i, e)
    ensures e.fileId != names[i]
  {
    var j: nat :| j < i && EntryOf(names, x, j, e);
  }

  lemma NextEntry(names: seq<string>, files: set<string>, x: seq<real>, i: nat)
    requires |x| == |names| && i < |names|
    ensures forall e :: FromFirst(names, files, x, i + 1, e) <==>
      FromFirst(names, files, x, i, e) || (names[i] in files && e == PprEntry(names[i], x[i]))
  {
    forall e
      ensures FromFirst(names, files, x, i + 1, e) <==>
        FromFirst(names, files, x, i, e) || (names[i] in files && e == PprEntry(names[i], x[i]))
    {
      if names[i] in files && e == PprEntry(names[i], x[i]) {
        assert EntryOf(names, x, i, e);
      }
    }
  }

  /** The final std::sort; file ids are different, so no two entries compare equal. */
  method SortEntries(entries: seq<PprEntry>) returns (out: seq<PprEntry>)
    requires forall r, s :: 0 <= r < s < |entries| ==> entries[r].fileId != entries[s].fileId
    ensures forall e :: e in out <==> e in entries
    ensures forall r, s :: 0 <= r < s < |out| ==> Above(out[r], out[s])
  {
    out := Sort((a: PprEntry, b: PprEntry) => Above(a, b), entries);
    AboveIsWeakOrder();
    SortSorted((a: PprEntry, b: PprEntry) => Above(a, b), entries);
    SameMembers(out, entries);
    PermutationDistinct(entries, out);
    ghost var sorted := out;
    forall r, s | 0 <= r < s < |sorted|
      ensures Above(sorted[r], sorted[s])
    {
      var a, b := sorted[r], sorted[s];
      assert a in entries && b in entries && a != b && !Above(b, a);
      if a.fileId == b.fileId {
        SameIdSameEntry(entries, a, b);
      } else if !LexLess(a.fileId, b.fileId) && !LexLess(b.fileId, a.fileId) {
        LexTotal(a.fileId, b.fileId);
      }
    }
  }

  lemma SameIdSameEntry(entries: seq<PprEntry>, a: PprEntry, b: PprEntry)
    requires forall r, s :: 0 <= r < s < |entries| ==> entries[r].fileId != entries[s].fileId
    requires a in entries && b in entries && a.fileId == b.fileId
    ensures a == b
  {
    var i :| 0 <= i < |entries| && entries[i] == a;
    var j :| 0 <= j < |entries| && entries[j] == b;
    if i < j { assert entries[i].fileId != entries[j].fileId; }
  }

  ghost predicate WeightsNonNeg(w: Walk) {
    forall u: nat, i: nat :: u < |w.adj| && i < |w.adj[u]| ==> w.WeightOf(u, i) >= 0.0
  }

  /** Each sweep brings the vector closer to every fixed point. */
  lemma {:induction false} IterateCloser(w: Walk, x: seq<real>, z: seq<real>, k: nat)
    requires w.Valid() && |x| == |z| == w.N() && w.Step(z) == z
    ensures L1(w.Iterate(x, k), z) <= Pow(Factor(w), k) * L1(x, z)
  {
    hide L1, Factor;
    if k > 0 {
      IterateCloser(w, x, z, k - 1);
      IterateSize(w, x, k - 1);
      Contraction(w, w.Iterate(x, k - 1), z);
      FactorNonNeg(w);
      Chain(Factor(w), L1(w.Iterate(x, k - 1), z), Pow(Factor(w), k - 1), L1(x, z));
    }
  }

  lemma Chain(c: real, a: real, p: real, l: real)
    requires c >= 0.0 && a <= p * l
    ensures c * a <= c * p * l
  {
    MulMono(c, a, p * l);
  }

  /** What the values of a personalised ranking are worth: a distribution, almost none of which is on files
      that no seed leads to, and close to every fixed point. */
  ghost predicate IsPersonalized(w: Walk, x: seq<real>, sweeps: nat) {
    && |x| == w.N() && NonNeg(x) && Mass(x) == 1.0
    && Leak(w, x) <= Pow(w.d, sweeps)
    && (forall v: nat :: v < w.N() && !Seeded(w, v) ==> x[v] <= Pow(w.d, sweeps))
    && (forall z :: |z| == w.N() && w.Step(z) == z ==> L1(x, z) <= Pow(w.d, sweeps) * L1(Uniform(w.N()), z))
  }

  lemma OutsideEntry(w: Walk, x: seq<real>, v: nat)
    requires |x| == w.N() && v < w.N() && !Seeded(w, v) && NonNeg(x)
    ensures x[v] <= Leak(w, x)
  {
    SumAtLeast(w.N(), Outside(w, x), v);
  }

  lemma StaysAtSeeds(w: Walk, x: seq<real>, k: nat)
    requires w.Valid() && |x| == w.N() && NonNeg(x) && Mass(x) == 1.0
    requires |w.Iterate(x, k)| == w.N() && NonNeg(w.Iterate(x, k))
    ensures Leak(w, w.Iterate(x, k)) <= Pow(w.d, k)
    ensures forall v: nat :: v < w.N() && !Seeded(w, v) ==> w.Iterate(x, k)[v] <= Pow(w.d, k)
  {
    hide Mass, Leak, Seeded, Pow;
    LeakVanishes(w, x, k);
    forall v: nat | v < w.N() && !Seeded(w, v)
      ensures w.Iterate(x, k)[v] <= Pow(w.d, k)
    {
      OutsideEntry(w, w.Iterate(x, k), v);
    }
  }

  lemma ClosesIn(w: Walk, x: seq<real>, z: seq<real>, k: nat)
    requires w.Valid() && Mass(w.p) == 1.0 && |x| == |z| == w.N() && w.Step(z) == z
    ensures L1(w.Iterate(x, k), z) <= Pow(w.d, k) * L1(x, z)
  {
    hide Mass, L1, Pow;
    IterateCloser(w, x, z, k);
    assert Factor(w) == w.d;
  }

  lemma IteratePersonalized(w: Walk, sweeps: nat)
    requires w.Valid() && w.N() > 0 && Mass(w.p) == 1.0
    ensures IsPersonalized(w, w.Iterate(Uniform(w.N()), sweeps), sweeps)
  {
    hide Mass, Leak, L1, Seeded, Uniform, Pow, Walk.Valid, Walk.Iterate, Walk.Step, NonNeg;
    var u := Uniform(w.N());
    UniformMass(w.N());
    UniformSize(w.N());
    IterateSize(w, u, sweeps);
    IterateMass(w, u, sweeps);
    StaysAtSeeds(w, u, sweeps);
    forall z | |z| == w.N() && w.Step(z) == z
      ensures L1(w.Iterate(u, sweeps), z) <= Pow(w.d, sweeps) * L1(u, z)
    {
      ClosesIn(w, u, z, sweeps);
    }
  }

  lemma UniformSize(n: nat)
    ensures |Uniform(n)| == n
  {
  }

  /** With the default constants: converged within 91 sweeps, and this close to every fixed point. */
  ghost predicate IsSharp(w: Walk, x: seq<real>, sweeps: nat) {
    && 0 < sweeps <= 91
    && forall z :: |z| == w.N() && w.Step(z) == z ==> 0.15 * L1(x, z) <= 0.85 * 0.000001
  }

  lemma DefaultsSharp(w: Walk, sweeps: nat)
    requires w.Valid() && w.N() > 0 && Mass(w.p) == 1.0 && w.d == 0.85
    requires StopsAt(w, Uniform(w.N()), 0.000001, 100, sweeps)
    ensures IsSharp(w, w.Iterate(Uniform(w.N()), sweeps), sweeps)
  {
    hide Mass, L1, Uniform, StopsAt, Change;
    DefaultsConverge(w, sweeps);
    forall z | |z| == w.N() && w.Step(z) == z
      ensures 0.15 * L1(w.Iterate(Uniform(w.N()), sweeps), z) <= 0.85 * 0.000001
    {
      ConvergedIsClose(w, sweeps, z, 0.000001);
    }
  }

  /** What the seeds put on node v: those of positive weight that name it. */
  function OnNode(ids: map<string, nat>, seeds: seq<SeedEntry>, v: nat): nat -> real {
    (i: nat) => if i < |seeds| && seeds[i].weight > 0.0 && seeds[i].fileId in ids && ids[seeds[i].fileId] == v
                then seeds[i].weight else 0.0
  }

  function OnGraph(ids: map<string, nat>, seeds: seq<SeedEntry>): nat -> real {
    (i: nat) => if i < |seeds| && seeds[i].weight > 0.0 && seeds[i].fileId in ids then seeds[i].weight else 0.0
  }

  /** The restart distribution of a ranking: the shares of the matching seeds, or uniform without any. */
  ghost predicate RestartsAtSeeds(ids: map<string, nat>, seeds: seq<SeedEntry>, matched: nat, p: seq<real>) {
    && (matched == 0 ==> forall v :: 0 <= v < |p| ==> p[v] == 1.0 / |p| as real)
    && (matched > 0 ==> Sum(|seeds|, OnGraph(ids, seeds)) > 0.0 && forall v: nat :: v < |p| ==>
          p[v] == Sum(|seeds|, OnNode(ids, seeds, v)) / Sum(|seeds|, OnGraph(ids, seeds)))
  }

  lemma {:induction false} SeedSums(ids: map<string, nat>, seeds: seq<SeedEntry>, k: nat, v: nat)
    requires k <= |seeds|
    ensures SeedWeight(ids, seeds, k, v) == Sum(k, OnNode(ids, seeds, v))
    ensures MatchedWeight(ids, seeds, k) == Sum(k, OnGraph(ids, seeds))
  {
    if k > 0 { SeedSums(ids, seeds, k - 1, v); }
  }

  /** The restart distribution of the seeds, as the walk uses it. */
  lemma SeedsRestart(n: nat, ids: map<string, nat>, seeds: seq<SeedEntry>, matched: nat, p: seq<real>)
    requires n > 0 && (p == [] <==> matched == 0) && (p == [] || (|p| == n && NonNeg(p) && Mass(p) == 1.0))
    requires p != [] ==> MatchedWeight(ids, seeds, |seeds|) > 0.0 && forall v: nat :: v < n ==>
      p[v] == SeedWeight(ids, seeds, |seeds|, v) / MatchedWeight(ids, seeds, |seeds|)
    ensures RestartsAtSeeds(ids, seeds, matched, Restart(n, p))
  {
    hide Sum, OnNode, OnGraph, Mass, MatchedWeight, SeedWeight;
    RestartOfSeeds(n, p);
    SeedSums(ids, seeds, |seeds|, 0);
    forall v: nat | v < n
      ensures SeedWeight(ids, seeds, |seeds|, v) == Sum(|seeds|, OnNode(ids, seeds, v))
    {
      SeedSums(ids, seeds, |seeds|, v);
    }
  }

  /** The teleport vector of the seeds is accepted and used as it is. */
  lemma RestartOfSeeds(n: nat, p: seq<real>)
    requires n > 0 && (p == [] || (|p| == n && NonNeg(p) && Mass(p) == 1.0))
    ensures |Restart(n, p)| == n && NonNeg(Restart(n, p)) && Mass(Restart(n, p)) == 1.0
    ensures Restart(n, p) == if p == [] then Uniform(n) else p
  {
    if p == [] { UniformMass(n); }
  }

  /** Main result on seeded ranks: the files are listed by the value of a walk that restarts at the seeds;
      the values are a distribution that no file beyond the seeds' reach has more than d^k of after k sweeps. */
  method PersonalizedPageRank(g: Graph, files: set<string>, seeds: seq<SeedEntry>, d: real, eps: real, maxIter: int)
    returns (out: seq<PprEntry>, matched: nat, ghost w: Walk, ghost x: seq<real>, ghost sweeps: nat, ghost xs: seq<seq<real>>)
    requires g.Valid()
    ensures RankedFiles(g.nodeToId, files, x, out)
    ensures matched == |Matching(g.idToNode, seeds, |seeds|)|
    ensures w.adj == g.adj && w.adjW == g.adjW && w.d == d
    ensures g.adj != [] ==> |w.p| == |g.adj| && RestartsAtSeeds(g.idToNode, seeds, matched, w.p)
    ensures g.adj != [] ==> |xs| == sweeps + 1 && x == xs[sweeps] && IsPageRankRun(g, w.p, d, eps, maxIter, xs)
    ensures g.adj != [] && 0.0 <= d < 1.0 && WeightsNonNeg(w) ==>
      IsPersonalized(w, x, sweeps) && (d == 0.85 && eps == 0.000001 && maxIter == 100 ==> IsSharp(w, x, sweeps))
  {
    hide RankedFiles, IsPersonalized, IsSharp, StopsAt, IsPageRankRun, RestartsAtSeeds, Uniform, Mass, IndexOk, TransposeOk,
      SeedWeight, MatchedWeight;
    var n := |g.adj|;
    xs := [];
    NamesOfGraph(g);
    var teleport := MakeTeleport(n, g.idToNode, seeds);
    var ranked;
    ranked, w, sweeps := Compute(g.adj, g.adjW, d, eps, maxIter, teleport);
    matched := MatchedSeeds(g.idToNode, seeds);
    x := ranked.value;
    if n > 0 {
      RestartOfSeeds(n, teleport);
      SeedsRestart(n, g.idToNode, seeds, matched, teleport);
      xs := Vectors(w, sweeps);
      WalkIsRun(g, w, eps, maxIter, sweeps);
      IterateSize(w, Uniform(n), sweeps) by { UniformSize(n); }
      if 0.0 <= d < 1.0 && WeightsNonNeg(w) {
        IteratePersonalized(w, sweeps);
        if d == 0.85 && eps == 0.000001 && maxIter == 100 { DefaultsSharp(w, sweeps); }
      }
    }
    var entries := Collect(g.nodeToId, files, ranked.value);
    out := SortEntries(entries);
    Listed(g.nodeToId, files, x, entries, out);
  }

  lemma Listed(names: seq<string>, files: set<string>, x: seq<real>, entries: seq<PprEntry>, out: seq<PprEntry>)
    requires Collected(names, files, x, |names|, entries)
    requires forall e :: e in out <==> e in entries
    requires forall r, s :: 0 <= r < s < |out| ==> Above(out[r], out[s])
    ensures RankedFiles(names, files, x, out)
  {
    hide FromFirst, NameFirst, Above;
    forall r, s | 0 <= r < s < |out|
      ensures out[r].ppr > out[s].ppr || (out[r].ppr == out[s].ppr && NameFirst(out[r].fileId, out[s].fileId))
    {
      AboveIff(out[r], out[s]);
    }
  }

  lemma NamesOfGraph(g: Graph)
    requires g.Valid()
    ensures |g.nodeToId| == |g.adj| && WellFormed(g.adj) && Distinct(g.nodeToId)
    ensures forall s :: s in g.idToNode ==> g.idToNode[s] < |g.adj|
  {
  }
}
