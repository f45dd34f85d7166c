/** Counting the elements of a list that satisfy a test. */
module Counting {

  function Count<T>(s: seq<T>, p: T -> bool): (c: nat)
    ensures c <= |s|
  {
    if s == [] then 0 else (if p(s[0]) then 1 else 0) + Count(s[1..], p)
  }

  lemma {:induction false} CountConcat<T>(a: seq<T>, b: seq<T>, p: T -> bool)
    ensures Count(a + b, p) == Count(a, p) + Count(b, p)
  {
    if a == [] {
      assert a + b == b;
    } else {
      assert (a + b)[1..] == a[1..] + b;
      CountConcat(a[1..], b, p);
    }
  }

  lemma CountSplit<T>(s: seq<T>, k: nat, p: T -> bool)
    requires k <= |s|
    ensures Count(s, p) == Count(s[..k], p) + Count(s[k..], p)
  {
    assert s == s[..k] + s[k..];
    CountConcat(s[..k], s[k..], p);
  }

  lemma CountRemove<T>(s: seq<T>, i: nat, p: T -> bool)
    requires i < |s|
    ensures Count(s, p) == (if p(s[i]) then 1 else 0) + Count(s[..i] + s[i + 1..], p)
  {
    CountSplit(s, i, p);
    CountConcat(s[..i], s[i + 1..], p);
    assert s[i..][1..] == s[i + 1..];
  }

  lemma RemoveCounts<T>(s: seq<T>, i: nat)
    requires i < |s|
    ensures multiset(s[..i] + s[i + 1..]) == multiset(s) - multiset{s[i]}
  {
    assert s == s[..i] + ([s[i]] + s[i + 1..]);
  }

  lemma HeadCounts<T>(s: seq<T>)
    requires s != []
    ensures multiset(s[1..]) == multiset(s) - multiset{s[0]}
  {
    assert s == [s[0]] + s[1..];
  }

  lemma IndexOf<T>(s: seq<T>, x: T) returns (i: nat)
    requires x in multiset(s)
    ensures i < |s| && s[i] == x
  {
    i :| i < |s| && s[i] == x;
  }

  lemma {:induction false} CountPermutation<T>(a: seq<T>, b: seq<T>, p: T -> bool)
    requires multiset(a) == multiset(b)
    ensures Count(a, p) == Count(b, p)
  {
    if a == [] {
      assert |multiset(b)| == 0;
    } else {
      HeadCounts(a);
      assert a[0] in multiset(a);
      var i := IndexOf(b, a[0]);
      RemoveCounts(b, i);
      CountRemove(b, i, p);
      CountPermutation(a[1..], b[..i] + b[i + 1..], p);
    }
  }

  lemma {:induction false} CountLeq<T>(s: seq<T>, p: T -> bool, q: T -> bool)
    requires forall i :: 0 <= i < |s| && p(s[i]) ==> q(s[i])
    ensures Count(s, p) <= Count(s, q)
  {
    if s != [] {
      forall i | 0 <= i < |s[1..]| && p(s[1..][i])
        ensures q(s[1..][i])
      {
        assert s[1..][i] == s[i + 1];
      }
      CountLeq(s[1..], p, q);
    }
  }

  lemma {:induction false} CountIsAll<T>(s: seq<T>, p: T -> bool)
    ensures Count(s, p) == |s| <==> forall i :: 0 <= i < |s| ==> p(s[i])
  {
    if s != [] {
      CountIsAll(s[1..], p);
      assert forall i :: 0 <= i < |s[1..]| ==> s[1..][i] == s[i + 1];
      assert forall i :: 0 < i < |s| ==> s[i] == s[1..][i - 1];
    }
  }

  lemma {:induction false} CountIsZero<T>(s: seq<T>, p: T -> bool)
    ensures Count(s, p) == 0 <==> forall i :: 0 <= i < |s| ==> !p(s[i])
  {
    if s != [] {
      CountIsZero(s[1..], p);
      assert forall i :: 0 <= i < |s[1..]| ==> s[1..][i] == s[i + 1];
      assert forall i :: 0 < i < |s| ==> s[i] == s[1..][i - 1];
    }
  }

  /** An element satisfies the test or its negation. */
  lemma {:induction false} CountNot<T>(s: seq<T>, p: T -> bool, q: T -> bool)
    requires forall i :: 0 <= i < |s| ==> q(s[i]) == !p(s[i])
    ensures Count(s, p) + Count(s, q) == |s|
  {
    if s != [] {
      forall i | 0 <= i < |s[1..]|
        ensures q(s[1..][i]) == !p(s[1..][i])
      {
        assert s[1..][i] == s[i + 1];
      }
      CountNot(s[1..], p, q);
    }
  }

  /** Tests that no element meets both of add up. */
  lemma {:induction false} CountDisjoint<T>(s: seq<T>, p: T -> bool, q: T -> bool, either: T -> bool)
    requires forall i :: 0 <= i < |s| ==> !(p(s[i]) && q(s[i])) && (either(s[i]) <==> p(s[i]) || q(s[i]))
    ensures Count(s, either) == Count(s, p) + Count(s, q)
  {
    if s != [] {
      forall i | 0 <= i < |s[1..]|
        ensures !(p(s[1..][i]) && q(s[1..][i])) && (either(s[1..][i]) <==> p(s[1..][i]) || q(s[1..][i]))
      {
        assert s[1..][i] == s[i + 1];
      }
      CountDisjoint(s[1..], p, q, either);
    }
  }

  /** The elements that satisfy the test, in their order. */
  function Keep<T>(s: seq<T>, p: T -> bool): (r: seq<T>)
    ensures |r| == Count(s, p)
    ensures forall i :: 0 <= i < |r| ==> p(r[i]) && r[i] in s
  {
    if s == [] then []
    else (if p(s[0]) then [s[0]] else []) + Keep(s[1..], p)
  }

  lemma {:induction false} KeepSplits<T>(s: seq<T>, p: T -> bool, q: T -> bool)
    requires forall i :: 0 <= i < |s| ==> q(s[i]) == !p(s[i])
    ensures multiset(Keep(s, p) + Keep(s, q)) == multiset(s)
  {
    if s != [] {
      forall i | 0 <= i < |s[1..]|
        ensures q(s[1..][i]) == !p(s[1..][i])
      {
        assert s[1..][i] == s[i + 1];
      }
      KeepSplits(s[1..], p, q);
      assert s == [s[0]] + s[1..];
      assert q(s[0]) == !p(s[0]);
    }
  }

  /** The positions of the elements that pass. */
  ghost function Passing<T>(s: seq<T>, p: T -> bool): set<nat> {
    set i: nat | i < |s| && p(s[i])
  }

  /** The count is the number of these positions. */
  lemma {:induction false} CountIsSize<T>(s: seq<T>, p: T -> bool)
    ensures Count(s, p) == |Passing(s, p)|
  {
    if s == [] {
      assert Passing(s, p) == {};
    } else {
      var n := |s| - 1;
      var front := s[..n];
      CountIsSize(front, p);
      assert s == front + [s[n]];
      CountConcat(front, [s[n]], p);
      assert Count([s[n]], p) == if p(s[n]) then 1 else 0;
      assert Passing(s, p) == Passing(front, p) + if p(s[n]) then {n} else {};
    }
  }
}
