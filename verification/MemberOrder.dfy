/** The order of reading inside one component: score descending, then cost ascending, then name
    ascending. */
module MemberOrder {
  import opened Sorting

  /** `na < nb` on std::string: the first difference decides, a proper prefix comes first. */
  predicate LexLess(a: string, b: string) {
    if b == [] then false
    else if a == [] then true
    else if a[0] != b[0] then a[0] < b[0]
    else LexLess(a[1..], b[1..])
  }

  /** The same without recursion: after a common part the first name ends, or has the smaller character. */
  ghost predicate NameFirst(a: string, b: string) {
    exists k: nat :: k <= |a| && k < |b| && a[..k] == b[..k] && (k < |a| ==> a[k] < b[k])
  }

  lemma SameFirst(a: string, b: string, k: nat)
    requires 0 < k <= |a| && k <= |b| && a[..k] == b[..k]
    ensures a[0] == b[0]
  {
    assert a[..k][0] == b[..k][0];
  }

  lemma TailFirst(a: string, b: string)
    requires a != [] && b != [] && a[0] == b[0]
    ensures NameFirst(a, b) <==> NameFirst(a[1..], b[1..])
  {
    if NameFirst(a, b) {
      var k: nat :| k <= |a| && k < |b| && a[..k] == b[..k] && (k < |a| ==> a[k] < b[k]);
      assert k > 0;
      assert a[1..][..k - 1] == a[..k][1..] && b[1..][..k - 1] == b[..k][1..];
    }
    if NameFirst(a[1..], b[1..]) {
      var k: nat :| k <= |a[1..]| && k < |b[1..]| && a[1..][..k] == b[1..][..k] && (k < |a[1..]| ==> a[1..][k] < b[1..][k]);
      var n: nat := k + 1;
      assert a[..n] == [a[0]] + a[1..][..k] && b[..n] == [b[0]] + b[1..][..k];
    }
  }

  lemma {:induction false} LexLessIff(a: string, b: string)
    ensures LexLess(a, b) <==> NameFirst(a, b)
  {
    if b == [] {
    } else if a == [] {
      assert a[..0] == b[..0];
    } else if a[0] != b[0] {
      assert a[..0] == b[..0];
      if NameFirst(a, b) {
        var k: nat :| k <= |a| && k < |b| && a[..k] == b[..k] && (k < |a| ==> a[k] < b[k]);
        if k > 0 { SameFirst(a, b, k); }
      }
    } else {
      LexLessIff(a[1..], b[1..]);
      TailFirst(a, b);
    }
  }

  lemma LexAsym(a: string, b: string)
    ensures !(LexLess(a, b) && LexLess(b, a))
  {
  }

  lemma {:induction false} LexNegTrans(a: string, b: string, c: string)
    requires !LexLess(b, a) && !LexLess(c, b)
    ensures !LexLess(c, a)
  {
    if a != [] && c != [] && b != [] && a[0] == b[0] == c[0] {
      LexNegTrans(a[1..], b[1..], c[1..]);
    }
  }

  lemma {:induction false} LexTotal(a: string, b: string)
    requires !LexLess(a, b) && !LexLess(b, a)
    ensures a == b
  {
    if a != [] && b != [] {
      LexTotal(a[1..], b[1..]);
    }
  }

  /** What the comparison reads: an index beyond the cost list costs 0, one beyond the names has
      the empty name. */
  datatype Keys = Keys(score: seq<real>, cost: seq<real>, names: seq<string>) {
    function Score(a: nat): real { if a < |score| then score[a] else 0.0 }
    function Cost(a: nat): real { if a < |cost| then cost[a] else 0.0 }
    function Name(a: nat): string { if a < |names| then names[a] else "" }

    predicate Before(a: nat, b: nat) {
      if Score(a) != Score(b) then Score(a) > Score(b)
      else if Cost(a) != Cost(b) then Cost(a) < Cost(b)
      else LexLess(Name(a), Name(b))
    }
  }

  /** Not having to come later: a score at least as high, then a cost at most as high, then the same name or one that
      comes first. */
  ghost predicate MayComeFirst(scoreA: real, costA: real, nameA: string, scoreB: real, costB: real, nameB: string) {
    && scoreA >= scoreB
    && (scoreA == scoreB ==> costA <= costB)
    && (scoreA == scoreB && costA == costB ==> nameA == nameB || NameFirst(nameA, nameB))
  }

  lemma NotBefore(k: Keys, a: nat, b: nat)
    ensures !k.Before(b, a) <==> MayComeFirst(k.Score(a), k.Cost(a), k.Name(a), k.Score(b), k.Cost(b), k.Name(b))
  {
    LexLessIff(k.Name(a), k.Name(b));
    LexLessIff(k.Name(b), k.Name(a));
    LexAsym(k.Name(a), k.Name(b));
    if !LexLess(k.Name(a), k.Name(b)) && !LexLess(k.Name(b), k.Name(a)) {
      LexTotal(k.Name(a), k.Name(b));
    }
  }

  lemma BeforeIsWeakOrder(k: Keys)
    ensures WeakOrder((a: nat, b: nat) => k.Before(a, b))
  {
    forall a: nat, b: nat
      ensures !(k.Before(a, b) && k.Before(b, a))
    {
      LexAsym(k.Name(a), k.Name(b));
    }
    forall a: nat, b: nat, c: nat | !k.Before(b, a) && !k.Before(c, b)
      ensures !k.Before(c, a)
    {
      if k.Score(a) == k.Score(b) == k.Score(c) && k.Cost(a) == k.Cost(b) == k.Cost(c) {
        LexNegTrans(k.Name(a), k.Name(b), k.Name(c));
      }
    }
  }
}
