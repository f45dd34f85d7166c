/** Sorting a list by a "less than" test, as std::sort does: the result is a reordering in which
    no element is less than one before it. */
module Sorting {

  /** What std::sort asks of its comparison: "not less" is a total preorder. */
  ghost predicate WeakOrder<T(!new)>(lt: (T, T) -> bool) {
    && (forall a, b :: !(lt(a, b) && lt(b, a)))
    && (forall a, b, c :: !lt(b, a) && !lt(c, b) ==> !lt(c, a))
  }

  ghost predicate SortedBy<T>(lt: (T, T) -> bool, s: seq<T>) {
    forall i, j :: 0 <= i < j < |s| ==> !lt(s[j], s[i])
  }

  function Insert<T>(lt: (T, T) -> bool, x: T, s: seq<T>): (r: seq<T>)
    ensures multiset(r) == multiset{x} + multiset(s)
    ensures |r| == |s| + 1
  {
    if s == [] || !lt(s[0], x) then [x] + s
    else
      assert s == [s[0]] + s[1..];
      [s[0]] + Insert(lt, x, s[1..])
  }

  function Sort<T>(lt: (T, T) -> bool, s: seq<T>): (r: seq<T>)
    ensures multiset(r) == multiset(s)
    ensures |r| == |s|
  {
    if s == [] then []
    else
      assert s == [s[0]] + s[1..];
      Insert(lt, s[0], Sort(lt, s[1..]))
  }

  lemma SameMembers<T>(a: seq<T>, b: seq<T>)
    requires multiset(a) == multiset(b)
    ensures forall x :: x in a <==> x in b
  {
    forall x
      ensures x in a <==> x in b
    {
      assert x in multiset(a) <==> x in a;
      assert x in multiset(b) <==> x in b;
    }
  }

  lemma {:induction false} InsertSorted<T(!new)>(lt: (T, T) -> bool, x: T, s: seq<T>)
    requires WeakOrder(lt) && SortedBy(lt, s)
    ensures SortedBy(lt, Insert(lt, x, s))
  {
    var r := Insert(lt, x, s);
    if s == [] {
    } else if !lt(s[0], x) {
      forall i, j | 0 <= i < j < |r|
        ensures !lt(r[j], r[i])
      {
        if i == 0 && j > 1 {
          assert !lt(s[j - 1], s[0]);
        }
      }
    } else {
      InsertSorted(lt, x, s[1..]);
      var t := Insert(lt, x, s[1..]);
      forall j | 0 <= j < |t|
        ensures !lt(t[j], s[0])
      {
        assert t[j] in multiset(t);
        if t[j] != x {
          assert t[j] in multiset(s[1..]);
          var k :| 0 <= k < |s[1..]| && s[1..][k] == t[j];
          assert t[j] == s[k + 1];
        }
      }
    }
  }

  lemma {:induction false} SortSorted<T(!new)>(lt: (T, T) -> bool, s: seq<T>)
    requires WeakOrder(lt)
    ensures SortedBy(lt, Sort(lt, s))
  {
    if s != [] {
      SortSorted(lt, s[1..]);
      InsertSorted(lt, s[0], Sort(lt, s[1..]));
    }
  }

  /** No element occurs twice. */
  ghost predicate Distinct<T>(s: seq<T>) {
    forall i, j :: 0 <= i < j < |s| ==> s[i] != s[j]
  }

  lemma {:induction false} DistinctCounts<T>(s: seq<T>, x: T)
    requires Distinct(s)
    ensures multiset(s)[x] <= 1
  {
    if s != [] {
      var t := s[1..];
      assert s == [s[0]] + t;
      forall i, j | 0 <= i < j < |t|
        ensures t[i] != t[j]
      {
        assert s[i + 1] != s[j + 1];
      }
      DistinctCounts(t, x);
      forall i | 0 <= i < |t|
        ensures t[i] != s[0]
      {
        assert s[0] != s[i + 1];
      }
      assert s[0] !in multiset(t);
    }
  }

  lemma CountsDistinct<T>(s: seq<T>, i: nat, j: nat)
    requires i < j < |s| && multiset(s)[s[i]] <= 1
    ensures s[i] != s[j]
  {
    assert s == s[..j] + s[j..];
    assert s[..j][i] == s[i] && s[i] in multiset(s[..j]);
    assert s[j..][0] == s[j] && s[j] in multiset(s[j..]);
  }

  lemma PermutationDistinct<T>(a: seq<T>, b: seq<T>)
    requires multiset(a) == multiset(b) && Distinct(a)
    ensures Distinct(b)
  {
    forall i, j | 0 <= i < j < |b|
      ensures b[i] != b[j]
    {
      DistinctCounts(a, b[i]);
      CountsDistinct(b, i, j);
    }
  }

  lemma TailMembers<T(!new)>(s: seq<T>)
    requires Distinct(s) && s != []
    ensures Distinct(s[1..]) && forall x :: x in s[1..] <==> x in s && x != s[0]
  {
    assert s == [s[0]] + s[1..];
  }

  /** A strictly sorted list is the only sorted list of its elements. */
  lemma {:induction false} StrictIsOnlySort<T(!new)>(lt: (T, T) -> bool, a: seq<T>, b: seq<T>)
    requires forall p, q :: 0 <= p < q < |a| ==> lt(a[p], a[q])
    requires SortedBy(lt, b)
    requires Distinct(a) && Distinct(b) && forall x :: x in a <==> x in b
    ensures a == b
  {
    assert a != [] ==> a[0] in a;
    assert b != [] ==> b[0] in b;
    if a != [] && b != [] {
      assert a[0] in b && b[0] in a;
      var q :| 0 <= q < |b| && b[q] == a[0];
      var p :| 0 <= p < |a| && a[p] == b[0];
      assert !(p > 0 && q > 0);
      TailMembers(a);
      TailMembers(b);
      StrictIsOnlySort(lt, a[1..], b[1..]);
    }
  }

  /** A list without repetitions is as long as the set of its elements. */
  lemma {:induction false} DistinctSize<T>(s: seq<T>, S: set<T>)
    requires Distinct(s) && forall x :: x in S <==> x in s
    ensures |S| == |s|
  {
    if s != [] {
      var t, z := s[..|s| - 1], s[|s| - 1];
      forall x
        ensures x in S - {z} <==> x in t
      {
        assert s == t + [z];
        assert z !in t;
      }
      DistinctSize(t, S - {z});
    }
  }

  lemma {:induction false} SubsetSize<T>(a: set<T>, b: set<T>)
    requires a <= b
    ensures |a| <= |b|
  {
    if a != {} {
      var x :| x in a;
      SubsetSize(a - {x}, b - {x});
    }
  }
}
