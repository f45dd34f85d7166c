/** The second part of the merged entries: functions and classes, ranked inside their files. */
module LocalRanks {
  import opened Digraph
  import opened Sorting
  import opened MemberOrder
  import opened TarjanInvariants
  import opened ReadingOrders
  import opened GraphModel
  import opened Merging

  /** One name needs the other, directly or not, and is not needed by it. */
  ghost predicate NeedsOutsideCycle(adj: Adjacency, ids: map<string, nat>, a: string, b: string) {
    a in ids && b in ids && Reach(adj, ids[a], ids[b]) && !Mutual(adj, ids[a], ids[b])
  }

  /** The entry is one of a file, not of a function or class. */
  predicate IsFileEntry(e: Entry) {
    e.fileRank > 0
  }

  /** Both are entries of functions or classes of one file. */
  predicate Siblings(a: Entry, b: Entry) {
    !IsFileEntry(a) && !IsFileEntry(b) && a.fileId == b.fileId
  }

  /** The entry of an entity stands under the file the entity belongs to. */
  predicate IsEntityEntry(ids: map<string, nat>, m: Metadata, e: Entry) {
    e.entityId in ids && e.entityId in m.entityFile && m.entityFile[e.entityId] == e.fileId
  }

  ghost predicate HasEntity(entries: seq<Entry>, id: string) {
    exists r :: 0 <= r < |entries| && !IsFileEntry(entries[r]) && entries[r].entityId == id
  }

  /** Each entity of the graph that belongs to a file has one entry, under that file. */
  ghost predicate EntitiesListed(ids: map<string, nat>, m: Metadata, entries: seq<Entry>) {
    && (forall r :: 0 <= r < |entries| && !IsFileEntry(entries[r]) ==> IsEntityEntry(ids, m, entries[r]))
    && (forall e :: e in ids && e in m.entityFile ==> HasEntity(entries, e))
    && (forall r, s :: 0 <= r < s < |entries| && !IsFileEntry(entries[r]) && !IsFileEntry(entries[s]) ==>
          entries[r].entityId != entries[s].entityId)
  }

  /** The entries of a file stand together and have the local ranks 1, 2, 3 and so on. */
  ghost predicate EntitiesNumbered(entries: seq<Entry>) {
    && (forall r :: 0 <= r < |entries| && !IsFileEntry(entries[r]) ==> entries[r].localRank > 0)
    && (forall r, s :: 0 <= r < s < |entries| && Siblings(entries[r], entries[s]) ==>
          entries[s].localRank == entries[r].localRank + (s - r))
    && (forall r :: 0 <= r < |entries| && !IsFileEntry(entries[r]) && entries[r].localRank > 1 ==> FollowsSibling(entries, r))
  }

  predicate FollowsSibling(entries: seq<Entry>, r: int) {
    0 < r < |entries| && Siblings(entries[r - 1], entries[r])
  }

  ghost predicate EntitiesRanked(ids: map<string, nat>, m: Metadata, entries: seq<Entry>) {
    EntitiesListed(ids, m, entries) && EntitiesNumbered(entries)
  }

  /** Inside a file, what an entity needs outside its own cycle has a smaller local rank. */
  ghost predicate EntitiesInOrder(adj: Adjacency, ids: map<string, nat>, entries: seq<Entry>) {
    forall r, s :: 0 <= r < |entries| && 0 <= s < |entries| && Siblings(entries[r], entries[s]) &&
                   NeedsOutsideCycle(adj, ids, entries[r].entityId, entries[s].entityId) ==>
      entries[s].localRank < entries[r].localRank
  }

  /** The entry has the scores of its own node. */
  predicate Carries(ids: map<string, nat>, pass: PassResult, e: Entry) {
    && e.entityId in ids
    && var n := ids[e.entityId];
       n < |pass.pr| && n < |pass.bc| && n < |pass.sc| &&
       e.pagerank == pass.pr[n] && e.bc == pass.bc[n] && e.combined == pass.sc[n]
  }

  ghost predicate FilesCarry(ids: map<string, nat>, pass: PassResult, entries: seq<Entry>) {
    forall r :: 0 <= r < |entries| && IsFileEntry(entries[r]) ==>
      Carries(ids, pass, entries[r]) && entries[r].fileId == entries[r].entityId && entries[r].entityType == "file" &&
      entries[r].localRank == 0
  }

  ghost predicate EntitiesCarry(ids: map<string, nat>, m: Metadata, pass: PassResult, entries: seq<Entry>) {
    forall r :: 0 <= r < |entries| && !IsFileEntry(entries[r]) ==>
      var e := entries[r];
      Carries(ids, pass, e) && e.entityType == if e.entityId in m.entityType then m.entityType[e.entityId] else "function"
  }

  /** The first name is read before the second. */
  ghost predicate ReadBefore(ids: map<string, nat>, order: seq<nat>, a: string, b: string) {
    a in ids && b in ids && exists p, q :: 0 <= p < q < |order| && order[p] == ids[a] && order[q] == ids[b]
  }

  /** Files are ranked as the pass over the files reads them. */
  ghost predicate FilesAsRead(ids: map<string, nat>, order: seq<nat>, entries: seq<Entry>) {
    forall r, s :: 0 <= r < |entries| && 0 <= s < |entries| && IsFileEntry(entries[r]) && IsFileEntry(entries[s]) &&
                   ReadBefore(ids, order, entries[r].entityId, entries[s].entityId) ==>
      entries[r].fileRank < entries[s].fileRank
  }

  /** Inside a file, functions and classes are ranked as the pass over them reads them. */
  ghost predicate EntitiesAsRead(ids: map<string, nat>, order: seq<nat>, entries: seq<Entry>) {
    forall r, s :: 0 <= r < |entries| && 0 <= s < |entries| && Siblings(entries[r], entries[s]) &&
                   ReadBefore(ids, order, entries[r].entityId, entries[s].entityId) ==>
      entries[r].localRank < entries[s].localRank
  }

  // ---- Positions of grouped entries ------------------------------------------------------

  function GroupStart(groups: seq<Group>, i: nat): nat
    requires i <= |groups|
  {
    if i == 0 then 0 else GroupStart(groups, i - 1) + |groups[i - 1].entries|
  }

  lemma {:induction false} GroupStartOfPrefix(groups: seq<Group>, n: nat, i: nat)
    requires i <= n <= |groups|
    ensures GroupStart(groups[..n], i) == GroupStart(groups, i)
  {
    if i > 0 { GroupStartOfPrefix(groups, n, i - 1); }
  }

  lemma {:induction false} FlatGroupsLength(groups: seq<Group>)
    ensures |FlatGroups(groups)| == GroupStart(groups, |groups|)
  {
    if groups != [] {
      var n := |groups| - 1;
      FlatGroupsLength(groups[..n]);
      GroupStartOfPrefix(groups, n, n);
    }
  }

  lemma {:induction false} GroupEntryAt(groups: seq<Group>, i: nat, a: nat)
    requires i < |groups| && a < |groups[i].entries|
    ensures GroupStart(groups, i) + a < |FlatGroups(groups)|
    ensures FlatGroups(groups)[GroupStart(groups, i) + a] == groups[i].entries[a]
  {
    var n := |groups| - 1;
    FlatGroupsLength(groups[..n]);
    GroupStartOfPrefix(groups, n, n);
    GroupStartOfPrefix(groups, n, i);
    if i < n { GroupEntryAt(groups[..n], i, a); }
  }

  /** Every position of the list lies in one group. */
  lemma {:induction false} GroupOf(groups: seq<Group>, k: nat) returns (i: nat, a: nat)
    requires k < |FlatGroups(groups)|
    ensures i < |groups| && a < |groups[i].entries| && k == GroupStart(groups, i) + a
    ensures FlatGroups(groups)[k] == groups[i].entries[a]
  {
    var n := |groups| - 1;
    FlatGroupsLength(groups[..n]);
    GroupStartOfPrefix(groups, n, n);
    if k < |FlatGroups(groups[..n])| {
      i, a := GroupOf(groups[..n], k);
      GroupStartOfPrefix(groups, n, i);
    } else {
      i, a := n, k - |FlatGroups(groups[..n])|;
    }
  }

  /** What is known of the a-th entry of a group. */
  lemma GroupEntry(p: PassResult, g: FuncGraph, rank: map<string, nat>, m: Metadata, groups: seq<Group>, i: nat, a: nat)
    requires AreGroups(p, g, rank, m, groups) && Bijection(g.ids, g.names) && Distinct(g.names)
    requires i < |groups| && a < |groups[i].entries|
    ensures RanksEntities(p, g, rank, m, groups[i].file, groups[i].entities, groups[i].entries)
    ensures var e := groups[i].entries[a];
      |groups[i].entities| == |groups[i].entries| && e.entityId == groups[i].entities[a] &&
      !IsFileEntry(e) && e.fileId == groups[i].file && e.localRank == a + 1 && IsEntityEntry(g.ids, m, e)
  {
    var group := groups[i];
    assert RanksEntities(p, g, rank, m, group.file, group.entities, group.entries);
    EveryEntityRankedOnce(p, g, rank, m, group, group.entities[a]);
    hide SortedBy, EntitiesOf;
    assert group.entries[a] == LocalEntry(p, g.ids, |g.names|, m, group.file, group.entities[a], a + 1);
    InNames(g.ids, g.names, group.entities[a]);
  }

  lemma InNames(ids: map<string, nat>, names: seq<string>, e: string)
    requires Bijection(ids, names)
    ensures e in names <==> e in ids
  {
    if e in names {
      var i :| 0 <= i < |names| && names[i] == e;
    }
    if e in ids { assert names[ids[e]] == e; }
  }

  /** Two entries of functions or classes: which groups they are in, and where. */
  lemma TwoEntries(p: PassResult, g: FuncGraph, rank: map<string, nat>, m: Metadata, groups: seq<Group>, r: nat, s: nat)
    requires AreGroups(p, g, rank, m, groups) && Bijection(g.ids, g.names) && Distinct(g.names)
    requires r < s < |FlatGroups(groups)|
    ensures var x, y := FlatGroups(groups)[r], FlatGroups(groups)[s];
      x.entityId != y.entityId && (x.fileId == y.fileId ==> y.localRank == x.localRank + (s - r))
  {
    hide AreGroups, RanksEntities, FlatGroups, GroupStart, IsEntityEntry;
    var i, a := GroupOf(groups, r);
    var j, b := GroupOf(groups, s);
    GroupEntry(p, g, rank, m, groups, i, a);
    GroupEntry(p, g, rank, m, groups, j, b);
    if i != j {
      DifferentFiles(p, g, rank, m, groups, i, j);
      DifferentEntities(g.ids, m, groups[i].entries[a], groups[j].entries[b]);
    } else {
      EveryEntityRankedOnce(p, g, rank, m, groups[i], "");
      assert groups[i].entities[a] != groups[i].entities[b];
    }
  }

  lemma DifferentFiles(p: PassResult, g: FuncGraph, rank: map<string, nat>, m: Metadata, groups: seq<Group>, i: nat, j: nat)
    requires AreGroups(p, g, rank, m, groups) && i < |groups| && j < |groups| && i != j
    ensures groups[i].file != groups[j].file
  {
    assert if i < j then groups[i].file != groups[j].file else groups[j].file != groups[i].file;
  }

  lemma DifferentEntities(ids: map<string, nat>, m: Metadata, x: Entry, y: Entry)
    requires IsEntityEntry(ids, m, x) && IsEntityEntry(ids, m, y) && x.fileId != y.fileId
    ensures x.entityId != y.entityId
  {
  }

  /** The entry before one that is not the first of its file is of the same file. */
  lemma EntryBefore(p: PassResult, g: FuncGraph, rank: map<string, nat>, m: Metadata, groups: seq<Group>, r: nat)
    requires AreGroups(p, g, rank, m, groups) && Bijection(g.ids, g.names) && Distinct(g.names)
    requires r < |FlatGroups(groups)| && FlatGroups(groups)[r].localRank > 1
    ensures FollowsSibling(FlatGroups(groups), r)
  {
    hide AreGroups, RanksEntities, FlatGroups, IsEntityEntry;
    var i, a := GroupOf(groups, r);
    GroupEntry(p, g, rank, m, groups, i, a);
    GroupEntry(p, g, rank, m, groups, i, a - 1);
    GroupEntryAt(groups, i, a - 1);
  }

  lemma EntityListed(p: PassResult, g: FuncGraph, rank: map<string, nat>, m: Metadata, groups: seq<Group>, e: string)
    requires AreGroups(p, g, rank, m, groups) && Bijection(g.ids, g.names) && Distinct(g.names)
    requires forall f :: EntitiesOf(g.names, m, f) != [] ==> HasGroup(groups, f)
    requires e in g.ids && e in m.entityFile
    ensures HasEntity(FlatGroups(groups), e)
  {
    hide AreGroups, RanksEntities, FlatGroups, IsEntityEntry;
    var f := m.entityFile[e];
    InNames(g.ids, g.names, e);
    EntitiesOfFile(g.names, m, f);
    assert e in EntitiesOf(g.names, m, f);
    assert HasGroup(groups, f);
    var i: nat :| i < |groups| && groups[i].file == f;
    assert RanksEntities(p, g, rank, m, groups[i].file, groups[i].entities, groups[i].entries) by { GroupAt(p, g, rank, m, groups, i); }
    EveryEntityRankedOnce(p, g, rank, m, groups[i], e);
    var a: nat :| a < |groups[i].entities| && groups[i].entities[a] == e;
    assert |groups[i].entries| == |groups[i].entities| by { GroupAt(p, g, rank, m, groups, i); }
    GroupEntry(p, g, rank, m, groups, i, a);
    GroupEntryAt(groups, i, a);
    assert !IsFileEntry(FlatGroups(groups)[GroupStart(groups, i) + a]);
  }

  lemma GroupAt(p: PassResult, g: FuncGraph, rank: map<string, nat>, m: Metadata, groups: seq<Group>, i: nat)
    requires AreGroups(p, g, rank, m, groups) && i < |groups|
    ensures RanksEntities(p, g, rank, m, groups[i].file, groups[i].entities, groups[i].entries)
    ensures |groups[i].entries| == |groups[i].entities|
  {
    hide EntitiesOf, SortedBy;
  }

  lemma GroupedListed(p: PassResult, g: FuncGraph, rank: map<string, nat>, m: Metadata, groups: seq<Group>)
    requires AreGroups(p, g, rank, m, groups) && Bijection(g.ids, g.names) && Distinct(g.names)
    requires forall f :: EntitiesOf(g.names, m, f) != [] ==> HasGroup(groups, f)
    ensures EntitiesListed(g.ids, m, FlatGroups(groups))
  {
    hide AreGroups, RanksEntities, FlatGroups, IsEntityEntry, HasGroup, EntitiesOf, HasEntity, Bijection, Distinct;
    var entries := FlatGroups(groups);
    forall r: nat | r < |entries|
      ensures IsEntityEntry(g.ids, m, entries[r])
    {
      var i, a := GroupOf(groups, r);
      GroupEntry(p, g, rank, m, groups, i, a);
    }
    forall e | e in g.ids && e in m.entityFile
      ensures HasEntity(entries, e)
    {
      EntityListed(p, g, rank, m, groups, e);
    }
    forall r: nat, s: nat | r < s < |entries|
      ensures entries[r].entityId != entries[s].entityId
    {
      TwoEntries(p, g, rank, m, groups, r, s);
    }
  }

  lemma GroupedNumbered(p: PassResult, g: FuncGraph, rank: map<string, nat>, m: Metadata, groups: seq<Group>)
    requires AreGroups(p, g, rank, m, groups) && Bijection(g.ids, g.names) && Distinct(g.names)
    ensures EntitiesNumbered(FlatGroups(groups))
  {
    hide AreGroups, RanksEntities, FlatGroups, IsEntityEntry, Bijection, Distinct, IsFileEntry, FollowsSibling;
    var entries := FlatGroups(groups);
    forall r: nat | r < |entries|
      ensures entries[r].localRank > 0
    {
      var i, a := GroupOf(groups, r);
      GroupEntry(p, g, rank, m, groups, i, a);
    }
    forall r: nat, s: nat | r < s < |entries| && entries[r].fileId == entries[s].fileId
      ensures entries[s].localRank == entries[r].localRank + (s - r)
    {
      TwoEntries(p, g, rank, m, groups, r, s);
    }
    forall r: nat | r < |entries| && entries[r].localRank > 1
      ensures FollowsSibling(entries, r)
    {
      EntryBefore(p, g, rank, m, groups, r);
    }
  }

  /** The order inside the files. */
  lemma GroupedInOrder(adj: Adjacency, keys: Keys, blocks: seq<seq<nat>>, p: PassResult, g: FuncGraph,
                       rank: map<string, nat>, m: Metadata, groups: seq<Group>)
    requires WellFormed(adj) && IsReadingOrder(adj, keys, blocks) && p.order == Flat(blocks) && |g.names| == |adj|
    requires AreGroups(p, g, rank, m, groups) && Bijection(g.ids, g.names) && Distinct(g.names)
    requires IsGlobalRank(p.order, g.names, rank)
    ensures EntitiesInOrder(adj, g.ids, FlatGroups(groups))
  {
    hide AreGroups, RanksEntities, FlatGroups, IsReadingOrder, IsGlobalRank, Reach, Mutual, IsPermutationOf;
    var entries := FlatGroups(groups);
    ReadsEveryNodeOnce(adj, keys, blocks);
    forall r: nat, s: nat | r < |entries| && s < |entries| && Siblings(entries[r], entries[s]) &&
                            NeedsOutsideCycle(adj, g.ids, entries[r].entityId, entries[s].entityId)
      ensures entries[s].localRank < entries[r].localRank
    {
      var i, a := GroupOf(groups, r);
      var j, b := GroupOf(groups, s);
      GroupEntry(p, g, rank, m, groups, i, a);
      GroupEntry(p, g, rank, m, groups, j, b);
      if i != j { DifferentFiles(p, g, rank, m, groups, i, j); }
      var x := ReadAt(adj, p.order, g, entries[r].entityId);
      var y := ReadAt(adj, p.order, g, entries[s].entityId);
      DependencyHasSmallerLocalRank(adj, keys, blocks, p, g, rank, m, groups[i], a, b, x, y);
    }
  }

  /** The position at which a name is read. */
  lemma ReadAt(adj: Adjacency, order: seq<nat>, g: FuncGraph, e: string) returns (x: nat)
    requires IsPermutationOf(|adj|, order) && |g.names| == |adj| && Bijection(g.ids, g.names) && e in g.ids
    ensures x < |order| && order[x] < |g.names| && order[x] == g.ids[e] && g.names[order[x]] == e
  {
    var i: nat := g.ids[e];
    assert i in order;
    var y: nat :| y < |order| && order[y] == i;
    x := y;
  }

  /** The scores of the entries of functions and classes. */
  lemma GroupedCarry(p: PassResult, g: FuncGraph, rank: map<string, nat>, m: Metadata, groups: seq<Group>)
    requires AreGroups(p, g, rank, m, groups) && Bijection(g.ids, g.names) && Distinct(g.names)
    requires |p.pr| == |p.bc| == |p.sc| == |g.names|
    ensures EntitiesCarry(g.ids, m, p, FlatGroups(groups))
  {
    hide AreGroups, RanksEntities, FlatGroups, Bijection, Distinct;
    var entries := FlatGroups(groups);
    forall r: nat | r < |entries|
      ensures Carries(g.ids, p, entries[r])
      ensures var e := entries[r];
        e.entityType == if e.entityId in m.entityType then m.entityType[e.entityId] else "function"
    {
      var i, a := GroupOf(groups, r);
      GroupEntry(p, g, rank, m, groups, i, a);
      GroupCarries(p, g, rank, m, groups[i], a);
    }
  }

  lemma GroupCarries(p: PassResult, g: FuncGraph, rank: map<string, nat>, m: Metadata, group: Group, a: nat)
    requires RanksEntities(p, g, rank, m, group.file, group.entities, group.entries) && a < |group.entries|
    requires Bijection(g.ids, g.names) && group.entries[a].entityId in g.ids
    requires |p.pr| == |p.bc| == |p.sc| == |g.names|
    ensures Carries(g.ids, p, group.entries[a])
    ensures var e := group.entries[a];
      e.entityType == if e.entityId in m.entityType then m.entityType[e.entityId] else "function"
  {
    hide EntitiesOf, SortedBy;
  }

  lemma GroupedAsRead(adj: Adjacency, p: PassResult, g: FuncGraph, rank: map<string, nat>, m: Metadata, groups: seq<Group>)
    requires AreGroups(p, g, rank, m, groups) && Bijection(g.ids, g.names) && Distinct(g.names) && |g.names| == |adj|
    requires IsPermutationOf(|adj|, p.order) && IsGlobalRank(p.order, g.names, rank)
    ensures EntitiesAsRead(g.ids, p.order, FlatGroups(groups))
  {
    hide AreGroups, RanksEntities, FlatGroups, Distinct, IsGlobalRank, Bijection, IsPermutationOf;
    var entries := FlatGroups(groups);
    forall r: nat, s: nat | r < |entries| && s < |entries| && Siblings(entries[r], entries[s]) &&
                            ReadBefore(g.ids, p.order, entries[r].entityId, entries[s].entityId)
      ensures entries[r].localRank < entries[s].localRank
    {
      var i, a := GroupOf(groups, r);
      var j, b := GroupOf(groups, s);
      GroupEntry(p, g, rank, m, groups, i, a);
      GroupEntry(p, g, rank, m, groups, j, b);
      if i != j { DifferentFiles(p, g, rank, m, groups, i, j); }
      var x: nat, y: nat :| x < y < |p.order| && p.order[x] == g.ids[entries[r].entityId] && p.order[y] == g.ids[entries[s].entityId];
      PositionRank(adj, p.order, g, rank, x, entries[r].entityId);
      PositionRank(adj, p.order, g, rank, y, entries[s].entityId);
      SmallerRankFirst(p, g, rank, m, groups[i], a, b);
    }
  }

  lemma PositionRank(adj: Adjacency, order: seq<nat>, g: FuncGraph, rank: map<string, nat>, x: nat, e: string)
    requires IsPermutationOf(|adj|, order) && |g.names| == |adj| && Bijection(g.ids, g.names) && e in g.ids && Distinct(g.names)
    requires IsGlobalRank(order, g.names, rank) && x < |order| && order[x] == g.ids[e]
    ensures e in rank && rank[e] == x
  {
    hide IsGlobalRank;
    GlobalRankIsPosition(order, g.names, rank, x);
  }

  lemma SmallerRankFirst(p: PassResult, g: FuncGraph, rank: map<string, nat>, m: Metadata, group: Group, a: nat, b: nat)
    requires RanksEntities(p, g, rank, m, group.file, group.entities, group.entries) && a < |group.entries| && b < |group.entries|
    requires |group.entities| == |group.entries| && group.entities[a] in rank && group.entities[b] in rank
    requires rank[group.entities[a]] < rank[group.entities[b]]
    ensures a < b
  {
    hide EntitiesOf, LocalEntry;
    if b < a { NotLess(rank, m, group.entities, b, a); }
  }

  lemma NotLess(rank: map<string, nat>, m: Metadata, entities: seq<string>, b: nat, a: nat)
    requires SortedBy((x: string, y: string) => EntityBefore(rank, m, x, y), entities) && b < a < |entities|
    ensures !EntityBefore(rank, m, entities[a], entities[b])
  {
  }

  // ---- In the whole list -----------------------------------------------------------------

  ghost predicate Behind(files: seq<Entry>, locals: seq<Entry>, all: seq<Entry>) {
    && all == files + locals
    && (forall r :: 0 <= r < |files| ==> IsFileEntry(files[r]))
  }

  lemma NotInFront(files: seq<Entry>, locals: seq<Entry>, all: seq<Entry>)
    requires Behind(files, locals, all)
    ensures forall r :: 0 <= r < |all| && !IsFileEntry(all[r]) ==> r >= |files| && all[r] == locals[r - |files|]
  {
  }

  lemma ListedBehind(ids: map<string, nat>, m: Metadata, files: seq<Entry>, locals: seq<Entry>, all: seq<Entry>)
    requires Behind(files, locals, all) && EntitiesListed(ids, m, locals)
    ensures EntitiesListed(ids, m, all)
  {
    NotInFront(files, locals, all);
    hide IsEntityEntry, IsFileEntry, HasEntity;
    forall e | e in ids && e in m.entityFile
      ensures HasEntity(all, e)
    {
      EntityBehind(files, locals, all, e);
    }
  }

  lemma EntityBehind(files: seq<Entry>, locals: seq<Entry>, all: seq<Entry>, e: string)
    requires Behind(files, locals, all) && HasEntity(locals, e)
    ensures HasEntity(all, e)
  {
    var r :| 0 <= r < |locals| && !IsFileEntry(locals[r]) && locals[r].entityId == e;
    assert all[|files| + r] == locals[r];
  }

  lemma NumberedBehind(files: seq<Entry>, locals: seq<Entry>, all: seq<Entry>)
    requires Behind(files, locals, all) && EntitiesNumbered(locals)
    ensures EntitiesNumbered(all)
  {
    NotInFront(files, locals, all);
    hide IsFileEntry;
    var n := |files|;
    forall r | 0 <= r < |all| && !IsFileEntry(all[r]) && all[r].localRank > 1
      ensures FollowsSibling(all, r)
    {
      assert FollowsSibling(locals, r - n);
      assert all[r - 1] == locals[r - n - 1];
    }
  }

  lemma OrderBehind(adj: Adjacency, ids: map<string, nat>, files: seq<Entry>, locals: seq<Entry>, all: seq<Entry>)
    requires Behind(files, locals, all) && EntitiesInOrder(adj, ids, locals)
    ensures EntitiesInOrder(adj, ids, all)
  {
    NotInFront(files, locals, all);
    hide IsFileEntry, NeedsOutsideCycle;
  }

  lemma CarriedBehind(ids: map<string, nat>, m: Metadata, pass: PassResult, files: seq<Entry>, locals: seq<Entry>, all: seq<Entry>)
    requires Behind(files, locals, all) && EntitiesCarry(ids, m, pass, locals) && EntitiesAsRead(ids, pass.order, locals)
    ensures EntitiesCarry(ids, m, pass, all) && EntitiesAsRead(ids, pass.order, all)
  {
    NotInFront(files, locals, all);
    hide IsFileEntry, Carries, ReadBefore;
  }

  /** Files in front have no effect on the entries of functions and classes. */
  lemma BehindFiles(adj: Adjacency, ids: map<string, nat>, m: Metadata, files: seq<Entry>, locals: seq<Entry>)
    requires EntitiesRanked(ids, m, locals) && EntitiesInOrder(adj, ids, locals)
    requires forall r :: 0 <= r < |files| ==> IsFileEntry(files[r])
    ensures EntitiesRanked(ids, m, files + locals) && EntitiesInOrder(adj, ids, files + locals)
  {
    hide EntitiesInOrder, EntitiesListed, EntitiesNumbered;
    ListedBehind(ids, m, files, locals, files + locals);
    NumberedBehind(files, locals, files + locals);
    OrderBehind(adj, ids, files, locals, files + locals);
  }

  // ---- The entries of files --------------------------------------------------------------

  /** An entry of the file part, and the node it is for. */
  lemma FileEntryAt(pass: PassResult, ids: map<string, nat>, names: seq<string>, m: Metadata, files: seq<Entry>, at: seq<nat>, r: nat)
    requires RanksFiles(pass, names, m, files, at) && Bijection(ids, names) && r < |files|
    requires |pass.pr| == |pass.bc| == |pass.sc| == |names|
    ensures |at| == |files| && at[r] < |pass.order|
    ensures var e := files[r];
      Carries(ids, pass, e) && e.fileId == e.entityId && e.entityType == "file" && e.localRank == 0 && e.fileRank == r + 1 &&
      ids[e.entityId] == pass.order[at[r]]
  {
  }

  lemma FilesCarried(pass: PassResult, ids: map<string, nat>, names: seq<string>, m: Metadata, entries: seq<Entry>, at: seq<nat>)
    requires |at| <= |entries| && RanksFiles(pass, names, m, entries[..|at|], at) && Bijection(ids, names)
    requires |pass.pr| == |pass.bc| == |pass.sc| == |names| && Distinct(pass.order)
    requires forall k :: 0 <= k < |entries| ==> entries[k].fileRank == if k < |at| then k + 1 else 0
    ensures FilesCarry(ids, pass, entries) && FilesAsRead(ids, pass.order, entries)
  {
    hide RanksFiles, Bijection, Carries;
    var files := entries[..|at|];
    forall r: nat | r < |at|
      ensures var e := entries[r];
        Carries(ids, pass, e) && e.fileId == e.entityId && e.entityType == "file" && e.localRank == 0
    {
      FileEntryAt(pass, ids, names, m, files, at, r);
    }
    forall r: nat, s: nat | r < |at| && s < |at| && ReadBefore(ids, pass.order, entries[r].entityId, entries[s].entityId)
      ensures r < s
    {
      FileEntryAt(pass, ids, names, m, files, at, r);
      FileEntryAt(pass, ids, names, m, files, at, s);
      FirstReadFirst(pass, ids, names, m, files, at, r, s);
    }
  }

  lemma FirstReadFirst(pass: PassResult, ids: map<string, nat>, names: seq<string>, m: Metadata, files: seq<Entry>,
                       at: seq<nat>, r: nat, s: nat)
    requires RanksFiles(pass, names, m, files, at) && r < |files| && s < |files| && Distinct(pass.order)
    requires |at| == |files| && at[r] < |pass.order| && at[s] < |pass.order|
    requires files[r].entityId in ids && ids[files[r].entityId] == pass.order[at[r]]
    requires files[s].entityId in ids && ids[files[s].entityId] == pass.order[at[s]]
    requires ReadBefore(ids, pass.order, files[r].entityId, files[s].entityId)
    ensures r < s
  {
    var p, q :| 0 <= p < q < |pass.order| && pass.order[p] == ids[files[r].entityId] && pass.order[q] == ids[files[s].entityId];
    SamePlace(pass.order, p, at[r]);
    SamePlace(pass.order, q, at[s]);
    hide Distinct;
    Increasing(at, r, s);
  }

  lemma Increasing(at: seq<nat>, r: nat, s: nat)
    requires forall i, j :: 0 <= i < j < |at| ==> at[i] < at[j]
    requires r < |at| && s < |at|
    ensures at[r] < at[s] <==> r < s
  {
    if s < r { assert at[s] < at[r]; }
  }

  lemma SamePlace(order: seq<nat>, p: nat, q: nat)
    requires Distinct(order) && p < |order| && q < |order| && order[p] == order[q]
    ensures p == q
  {
  }
}
