/** AlgoRunner::merge: node sequences of the file pass and the function pass become dense file
    ranks and, inside each file, dense local ranks. */
module Merging {
  import opened Digraph
  import opened Sorting
  import opened MemberOrder
  import opened TarjanInvariants
  import opened ReadingOrders

  const INT_MAX := 0x7fff_ffff

  datatype Entry = Entry(entityId: string, entityType: string, fileId: string, fileRank: nat, localRank: nat,
                         pagerank: real, bc: real, combined: real)

  /** The result of one pass: scores by node, and the reading order. */
  datatype PassResult = PassResult(pr: seq<real>, bc: seq<real>, sc: seq<real>, order: seq<nat>)

  /** What the graph builder knows of entities: their file, kind and first line, and the files there are. */
  datatype Metadata = Metadata(entityFile: map<string, string>, entityType: map<string, string>,
                               startLine: map<string, int>, fileLoc: map<string, int>)

  function At(v: seq<real>, n: nat): real {
    if n < |v| then v[n] else 0.0
  }

  // ---- Files -----------------------------------------------------------------------------

  /** The node is a file of the project. */
  predicate IsProjectFile(names: seq<string>, m: Metadata, nid: nat) {
    nid < |names| && names[nid] in m.fileLoc
  }

  function FileEntry(pass: PassResult, names: seq<string>, nid: nat, rank: nat): Entry
    requires nid < |names|
  {
    Entry(names[nid], "file", names[nid], rank, 0, At(pass.pr, nid), At(pass.bc, nid), At(pass.sc, nid))
  }

  /** Entry r is the file at position at[r] of the sequence and has rank r + 1; every position that
      holds a project file has an entry, and the entries keep the order of the sequence. */
  ghost predicate RanksFiles(pass: PassResult, names: seq<string>, m: Metadata, entries: seq<Entry>, at: seq<nat>) {
    && |at| == |entries|
    && (forall r :: 0 <= r < |at| ==>
          && at[r] < |pass.order| && IsProjectFile(names, m, pass.order[at[r]])
          && entries[r] == FileEntry(pass, names, pass.order[at[r]], r + 1))
    && (forall r, s :: 0 <= r < s < |at| ==> at[r] < at[s])
    && (forall p: nat :: p < |pass.order| && IsProjectFile(names, m, pass.order[p]) ==> p in at)
  }

  ghost predicate AreFileEntries(pass: PassResult, names: seq<string>, m: Metadata, entries: seq<Entry>) {
    exists at :: RanksFiles(pass, names, m, entries, at)
  }

  method FileEntries(pass: PassResult, names: seq<string>, m: Metadata)
    returns (entries: seq<Entry>, ghost at: seq<nat>)
    ensures RanksFiles(pass, names, m, entries, at) && AreFileEntries(pass, names, m, entries)
  {
    entries, at := [], [];
    var rank := 0;
    for i := 0 to |pass.order|
      invariant rank == |entries| == |at|
      invariant forall r :: 0 <= r < |at| ==>
          && at[r] < i && IsProjectFile(names, m, pass.order[at[r]])
          && entries[r] == FileEntry(pass, names, pass.order[at[r]], r + 1)
      invariant forall r, s :: 0 <= r < s < |at| ==> at[r] < at[s]
      invariant forall p: nat :: p < i && IsProjectFile(names, m, pass.order[p]) ==> p in at
    {
      var nid := pass.order[i];
      if nid >= |names| { continue; }
      if names[nid] !in m.fileLoc { continue; }
      rank := rank + 1;
      entries := entries + [FileEntry(pass, names, nid, rank)];
      at := at + [i];
    }
    assert RanksFiles(pass, names, m, entries, at);
  }

  /** Main result: with the sequence a reading order of the file graph, a project file that a file
      needs, directly or not, outside its own cycle gets a smaller rank. */
  lemma DependencyHasSmallerRank(adj: Adjacency, keys: Keys, blocks: seq<seq<nat>>, pass: PassResult,
                                 names: seq<string>, m: Metadata, entries: seq<Entry>, at: seq<nat>, r: nat, s: nat)
    requires WellFormed(adj) && IsReadingOrder(adj, keys, blocks) && pass.order == Flat(blocks)
    requires RanksFiles(pass, names, m, entries, at) && r < |entries| && s < |entries|
    requires Reach(adj, pass.order[at[r]], pass.order[at[s]]) && !Mutual(adj, pass.order[at[r]], pass.order[at[s]])
    ensures entries[s].fileRank < entries[r].fileRank
  {
    hide IsReadingOrder, Reach, Mutual;
    assert r <= s ==> at[r] <= at[s];
    DependenciesFirst(adj, keys, blocks, at[r], at[s]);
  }

  /** Every project file of the graph gets exactly one rank, and the ranks are 1..n without gaps. */
  lemma EveryFileRankedOnce(adj: Adjacency, keys: Keys, blocks: seq<seq<nat>>, pass: PassResult,
                            names: seq<string>, m: Metadata, entries: seq<Entry>, at: seq<nat>, nid: nat)
    requires IsReadingOrder(adj, keys, blocks) && pass.order == Flat(blocks) && |names| == |adj|
    requires Distinct(names) && RanksFiles(pass, names, m, entries, at)
    requires IsProjectFile(names, m, nid)
    ensures exists r :: 0 <= r < |entries| && entries[r].entityId == names[nid]
    ensures forall r, s :: 0 <= r < |entries| && 0 <= s < |entries| && entries[r].entityId == names[nid] == entries[s].entityId ==> r == s
    ensures forall r :: 0 <= r < |entries| ==> entries[r].fileRank == r + 1
  {
    hide IsReadingOrder;
    ReadsEveryNodeOnce(adj, keys, blocks);
    assert nid in pass.order;
    var p :| 0 <= p < |pass.order| && pass.order[p] == nid;
    var r0 :| 0 <= r0 < |at| && at[r0] == p;
    assert entries[r0].entityId == names[nid];
    forall r, s | 0 <= r < |entries| && 0 <= s < |entries| && entries[r].entityId == names[nid] == entries[s].entityId
      ensures r == s
    {
      assert pass.order[at[r]] == nid && pass.order[at[s]] == nid;
      assert at[r] == at[s];
    }
  }

  // ---- Functions and classes -------------------------------------------------------------

  function RankOf(rank: map<string, nat>, e: string): int {
    if e in rank then rank[e] else INT_MAX
  }

  function LineOf(m: Metadata, e: string): int {
    if e in m.startLine then m.startLine[e] else 0
  }

  predicate EntityBefore(rank: map<string, nat>, m: Metadata, a: string, b: string) {
    if RankOf(rank, a) != RankOf(rank, b) then RankOf(rank, a) < RankOf(rank, b)
    else LineOf(m, a) < LineOf(m, b)
  }

  lemma EntityOrder(rank: map<string, nat>, m: Metadata)
    ensures WeakOrder((a: string, b: string) => EntityBefore(rank, m, a, b))
  {
  }

  /** The last position of each name in the sequence of the function pass. */
  ghost predicate IsGlobalRank(order: seq<nat>, names: seq<string>, rank: map<string, nat>) {
    && (forall e :: e in rank ==> rank[e] < |order| && order[rank[e]] < |names| && names[order[rank[e]]] == e)
    && (forall p: nat :: p < |order| && order[p] < |names| ==> names[order[p]] in rank && p <= rank[names[order[p]]])
  }

  method GlobalRank(order: seq<nat>, names: seq<string>) returns (rank: map<string, nat>)
    ensures IsGlobalRank(order, names, rank)
  {
    rank := map[];
    for i := 0 to |order|
      invariant forall e :: e in rank ==> rank[e] < i && order[rank[e]] < |names| && names[order[rank[e]]] == e
      invariant forall p: nat :: p < i && order[p] < |names| ==> names[order[p]] in rank && p <= rank[names[order[p]]]
    {
      var nid := order[i];
      if nid < |names| {
        rank := rank[names[nid] := i];
      }
    }
  }

  /** The entities of a file, in node order. */
  function EntitiesOf(names: seq<string>, m: Metadata, file: string): seq<string> {
    if names == [] then []
    else
      var e := names[|names| - 1];
      var before := EntitiesOf(names[..|names| - 1], m, file);
      if e in m.entityFile && m.entityFile[e] == file then before + [e] else before
  }

  lemma {:induction false} EntitiesOfFile(names: seq<string>, m: Metadata, file: string)
    ensures forall e :: e in EntitiesOf(names, m, file) <==> e in names && e in m.entityFile && m.entityFile[e] == file
    ensures Distinct(names) ==> Distinct(EntitiesOf(names, m, file))
  {
    if names != [] {
      var n := |names| - 1;
      EntitiesOfFile(names[..n], m, file);
      assert names == names[..n] + [names[n]];
    }
  }

  method GroupByFile(names: seq<string>, m: Metadata) returns (groups: map<string, seq<string>>)
    ensures forall f :: f in groups ==> groups[f] != [] && groups[f] == EntitiesOf(names, m, f)
    ensures forall f :: f !in groups ==> EntitiesOf(names, m, f) == []
  {
    groups := map[];
    for i := 0 to |names|
      invariant forall f :: f in groups ==> groups[f] != [] && groups[f] == EntitiesOf(names[..i], m, f)
      invariant forall f :: f !in groups ==> EntitiesOf(names[..i], m, f) == []
    {
      var e := names[i];
      assert names[..i + 1][..i] == names[..i];
      if e in m.entityFile {
        var f := m.entityFile[e];
        groups := groups[f := (if f in groups then groups[f] else []) + [e]];
      }
    }
    assert names[..|names|] == names;
  }

  function LocalEntry(pass: PassResult, ids: map<string, nat>, nNames: nat, m: Metadata, file: string, e: string,
                      rank: nat): Entry {
    var nid := if e in ids then ids[e] else nNames;
    Entry(e, if e in m.entityType then m.entityType[e] else "function", file, 0, rank,
          At(pass.pr, nid), At(pass.bc, nid), At(pass.sc, nid))
  }

  datatype FuncGraph = FuncGraph(names: seq<string>, ids: map<string, nat>)

  /** The entries of one file: its entities, once each, numbered from 1 in the order of EntityBefore. */
  ghost predicate RanksEntities(pass: PassResult, g: FuncGraph, rank: map<string, nat>, m: Metadata, file: string,
                                entities: seq<string>, entries: seq<Entry>) {
    && |entries| == |entities|
    && multiset(entities) == multiset(EntitiesOf(g.names, m, file))
    && SortedBy((a: string, b: string) => EntityBefore(rank, m, a, b), entities)
    && forall k :: 0 <= k < |entries| ==> entries[k] == LocalEntry(pass, g.ids, |g.names|, m, file, entities[k], k + 1)
  }

  ghost predicate AreLocalEntries(pass: PassResult, g: FuncGraph, rank: map<string, nat>, m: Metadata, file: string,
                                  entries: seq<Entry>) {
    exists entities :: RanksEntities(pass, g, rank, m, file, entities, entries)
  }

  method LocalEntries(pass: PassResult, g: FuncGraph, rank: map<string, nat>, m: Metadata, file: string,
                      unsorted: seq<string>)
    returns (entries: seq<Entry>, ghost entities: seq<string>)
    requires unsorted == EntitiesOf(g.names, m, file)
    ensures RanksEntities(pass, g, rank, m, file, entities, entries)
    ensures AreLocalEntries(pass, g, rank, m, file, entries)
    ensures InPlace(rank, m, entries)
  {
    hide InPlace, SortedBy, Sort, LocalEntry, EntitiesOf, WeakOrder;
    var sorted := Sort((a: string, b: string) => EntityBefore(rank, m, a, b), unsorted);
    EntityOrder(rank, m);
    SortSorted((a: string, b: string) => EntityBefore(rank, m, a, b), unsorted);
    entries, entities := [], sorted;
    for local := 0 to |sorted|
      invariant |entries| == local
      invariant forall k :: 0 <= k < local ==> entries[k] == LocalEntry(pass, g.ids, |g.names|, m, file, sorted[k], k + 1)
    {
      entries := entries + [LocalEntry(pass, g.ids, |g.names|, m, file, sorted[local], local + 1)];
    }
    EntitiesInPlace(pass, g, rank, m, file, entities, entries);
  }

  /** Of two entities of a file the first has the smaller position, the largest int standing for none; with equal positions
      the line that is not greater, 0 standing for none. */
  ghost predicate InPlace(rank: map<string, nat>, m: Metadata, entries: seq<Entry>) {
    forall k, l :: 0 <= k < l < |entries| ==> PairInPlace(rank, m, entries[k].entityId, entries[l].entityId)
  }

  predicate PairInPlace(rank: map<string, nat>, m: Metadata, a: string, b: string) {
    var ra: int, rb: int := if a in rank then rank[a] else 0x7fff_ffff, if b in rank then rank[b] else 0x7fff_ffff;
    var la, lb := if a in m.startLine then m.startLine[a] else 0, if b in m.startLine then m.startLine[b] else 0;
    ra < rb || (ra == rb && la <= lb)
  }

  lemma EntitiesInPlace(pass: PassResult, g: FuncGraph, rank: map<string, nat>, m: Metadata, file: string,
                        entities: seq<string>, entries: seq<Entry>)
    requires RanksEntities(pass, g, rank, m, file, entities, entries)
    ensures InPlace(rank, m, entries)
  {
    hide EntitiesOf;
    forall k, l | 0 <= k < l < |entries|
      ensures PairInPlace(rank, m, entries[k].entityId, entries[l].entityId)
    {
      assert !EntityBefore(rank, m, entities[l], entities[k]);
    }
  }

  /** The entries of one file as they stand in the output. */
  datatype Group = Group(file: string, entities: seq<string>, entries: seq<Entry>)

  function FlatGroups(groups: seq<Group>): seq<Entry> {
    if groups == [] then [] else FlatGroups(groups[..|groups| - 1]) + groups[|groups| - 1].entries
  }

  ghost predicate HasGroup(groups: seq<Group>, file: string) {
    exists i :: 0 <= i < |groups| && groups[i].file == file
  }

  /** One group for each file that has entities, holding exactly its entries. */
  ghost predicate AreGroups(p: PassResult, g: FuncGraph, rank: map<string, nat>, m: Metadata, groups: seq<Group>) {
    && (forall i :: 0 <= i < |groups| ==> RanksEntities(p, g, rank, m, groups[i].file, groups[i].entities, groups[i].entries))
    && (forall i, j :: 0 <= i < j < |groups| ==> groups[i].file != groups[j].file)
  }

  lemma GroupAppended(p: PassResult, g: FuncGraph, rank: map<string, nat>, m: Metadata, groups: seq<Group>,
                      group: Group)
    requires AreGroups(p, g, rank, m, groups) && !HasGroup(groups, group.file)
    requires RanksEntities(p, g, rank, m, group.file, group.entities, group.entries)
    ensures AreGroups(p, g, rank, m, groups + [group])
    ensures FlatGroups(groups + [group]) == FlatGroups(groups) + group.entries
    ensures forall f :: HasGroup(groups + [group], f) <==> HasGroup(groups, f) || f == group.file
  {
    hide RanksEntities;
    var next := groups + [group];
    assert next[..|groups|] == groups;
    forall f
      ensures HasGroup(next, f) <==> HasGroup(groups, f) || f == group.file
    {
      if HasGroup(groups, f) {
        var i :| 0 <= i < |groups| && groups[i].file == f;
        assert next[i].file == f;
      }
      assert next[|groups|].file == group.file;
    }
  }

  /** The output of merge: the ranked files, then the entities file by file, the files in any order. */
  ghost predicate IsMerged(fp: PassResult, fileNames: seq<string>, p: PassResult, g: FuncGraph, m: Metadata,
                           entries: seq<Entry>, at: seq<nat>, rank: map<string, nat>, groups: seq<Group>) {
    && |at| <= |entries|
    && RanksFiles(fp, fileNames, m, entries[..|at|], at)
    && entries[|at|..] == FlatGroups(groups)
    && IsGlobalRank(p.order, g.names, rank)
    && AreGroups(p, g, rank, m, groups)
    && (forall f :: EntitiesOf(g.names, m, f) != [] ==> HasGroup(groups, f))
  }

  method EntityEntries(pass: PassResult, g: FuncGraph, rank: map<string, nat>, m: Metadata,
                       byFile: map<string, seq<string>>)
    returns (entries: seq<Entry>, ghost groups: seq<Group>)
    requires forall f :: f in byFile ==> byFile[f] == EntitiesOf(g.names, m, f)
    ensures entries == FlatGroups(groups)
    ensures AreGroups(pass, g, rank, m, groups)
    ensures forall f :: f in byFile ==> HasGroup(groups, f)
  {
    entries, groups := [], [];
    var left := byFile.Keys;
    while left != {}
      invariant left <= byFile.Keys
      invariant entries == FlatGroups(groups) && AreGroups(pass, g, rank, m, groups)
      invariant forall f :: HasGroup(groups, f) <==> f in byFile && f !in left
      decreases |left|
    {
      hide RanksEntities, HasGroup, AreGroups;
      var f :| f in left;
      left := left - {f};
      ghost var entities;
      var local;
      local, entities := LocalEntries(pass, g, rank, m, f, byFile[f]);
      GroupAppended(pass, g, rank, m, groups, Group(f, entities, local));
      entries := entries + local;
      groups := groups + [Group(f, entities, local)];
    }
  }

  ghost predicate Merged(fp: PassResult, fileNames: seq<string>, p: PassResult, g: FuncGraph, m: Metadata,
                         entries: seq<Entry>) {
    exists at, rank, groups :: IsMerged(fp, fileNames, p, g, m, entries, at, rank, groups)
  }

  method Merge(fp: PassResult, fileNames: seq<string>, p: PassResult, g: FuncGraph, m: Metadata)
    returns (entries: seq<Entry>, ghost at: seq<nat>, ghost rank: map<string, nat>, ghost groups: seq<Group>)
    ensures IsMerged(fp, fileNames, p, g, m, entries, at, rank, groups)
    ensures Merged(fp, fileNames, p, g, m, entries)
  {
    hide RanksFiles, RanksEntities, IsGlobalRank;
    var files;
    files, at := FileEntries(fp, fileNames, m);
    assert |at| == |files| by { RankCount(fp, fileNames, m, files, at); }
    var globalRank := GlobalRank(p.order, g.names);
    var byFile := GroupByFile(g.names, m);
    var rest;
    rest, groups := EntityEntries(p, g, globalRank, m, byFile);
    entries, rank := files + rest, globalRank;
    assert entries[..|at|] == files && entries[|at|..] == rest;
  }

  lemma RankCount(pass: PassResult, names: seq<string>, m: Metadata, entries: seq<Entry>, at: seq<nat>)
    requires RanksFiles(pass, names, m, entries, at)
    ensures |at| == |entries|
  {
  }

  /** With distinct names and a permutation as sequence, the global rank is the position. */
  lemma GlobalRankIsPosition(order: seq<nat>, names: seq<string>, rank: map<string, nat>, p: nat)
    requires IsGlobalRank(order, names, rank) && Distinct(names) && Distinct(order)
    requires p < |order| && order[p] < |names|
    ensures names[order[p]] in rank && rank[names[order[p]]] == p
  {
    var q := rank[names[order[p]]];
    assert order[q] == order[p];
  }

  /** Within one file too: an entity that another one needs outside its cycle gets a smaller local rank. */
  lemma DependencyHasSmallerLocalRank(adj: Adjacency, keys: Keys, blocks: seq<seq<nat>>, pass: PassResult, g: FuncGraph,
                                      rank: map<string, nat>, m: Metadata, group: Group, a: nat, b: nat, p: nat, q: nat)
    requires WellFormed(adj) && IsReadingOrder(adj, keys, blocks) && pass.order == Flat(blocks) && |g.names| == |adj|
    requires Distinct(g.names) && IsGlobalRank(pass.order, g.names, rank)
    requires RanksEntities(pass, g, rank, m, group.file, group.entities, group.entries)
    requires a < |group.entries| && b < |group.entries| && p < |pass.order| && q < |pass.order|
    requires pass.order[p] < |g.names| && pass.order[q] < |g.names|
    requires g.names[pass.order[p]] == group.entities[a] && g.names[pass.order[q]] == group.entities[b]
    requires Reach(adj, pass.order[p], pass.order[q]) && !Mutual(adj, pass.order[p], pass.order[q])
    ensures group.entries[b].localRank < group.entries[a].localRank
  {
    hide IsReadingOrder, Reach, Mutual, IsGlobalRank;
    assert a < b ==> !EntityBefore(rank, m, group.entities[b], group.entities[a]);
    ReadsEveryNodeOnce(adj, keys, blocks);
    DependenciesFirst(adj, keys, blocks, p, q);
    GlobalRankIsPosition(pass.order, g.names, rank, p);
    GlobalRankIsPosition(pass.order, g.names, rank, q);
    assert EntityBefore(rank, m, group.entities[b], group.entities[a]);
  }

  /** Every entity that belongs to a file gets exactly one local rank there; the ranks are 1..m. */
  lemma EveryEntityRankedOnce(pass: PassResult, g: FuncGraph, rank: map<string, nat>, m: Metadata, group: Group,
                              e: string)
    requires Distinct(g.names) && RanksEntities(pass, g, rank, m, group.file, group.entities, group.entries)
    ensures Distinct(group.entities)
    ensures e in group.entities <==> e in g.names && e in m.entityFile && m.entityFile[e] == group.file
    ensures forall k :: 0 <= k < |group.entries| ==> group.entries[k].localRank == k + 1 && group.entries[k].entityId == group.entities[k]
  {
    EntitiesOfFile(g.names, m, group.file);
    SameMembers(group.entities, EntitiesOf(g.names, m, group.file));
    PermutationDistinct(EntitiesOf(g.names, m, group.file), group.entities);
  }

  /** Only the entries of files have a file rank. */
  lemma {:induction false} NoFileRank(p: PassResult, g: FuncGraph, rank: map<string, nat>, m: Metadata,
                                      groups: seq<Group>)
    requires AreGroups(p, g, rank, m, groups)
    ensures forall k :: 0 <= k < |FlatGroups(groups)| ==> FlatGroups(groups)[k].fileRank == 0
  {
    hide EntitiesOf, SortedBy;
    if groups != [] {
      var n := |groups| - 1;
      NoFileRank(p, g, rank, m, groups[..n]);
      assert RanksEntities(p, g, rank, m, groups[n].file, groups[n].entities, groups[n].entries);
    }
  }

  lemma FileRankIsPosition(fp: PassResult, fileNames: seq<string>, p: PassResult, g: FuncGraph, m: Metadata,
                           entries: seq<Entry>, at: seq<nat>, rank: map<string, nat>, groups: seq<Group>)
    requires IsMerged(fp, fileNames, p, g, m, entries, at, rank, groups)
    ensures |at| <= |entries|
    ensures forall k :: 0 <= k < |entries| ==> entries[k].fileRank == if k < |at| then k + 1 else 0
  {
    NoFileRank(p, g, rank, m, groups);
    hide AreGroups, FlatGroups;
    forall k | 0 <= k < |entries|
      ensures entries[k].fileRank == if k < |at| then k + 1 else 0
    {
      if k < |at| {
        assert entries[k] == entries[..|at|][k];
      } else {
        assert entries[k] == entries[|at|..][k - |at|];
      }
    }
  }
}
