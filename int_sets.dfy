/** Small facts about finite sets of integers used by the counting proofs
    and by the choice of the migration to roll back. */
module IntSets {

  /** A set other than the empty set has an element. */
  lemma NonEmptyHasElement(s: set<int>)
    requires s != {}
    ensures exists y :: y in s
  {
    if forall y :: y !in s {
      assert false;
    }
  }

  /** Every non-empty finite set of integers has a least element. */
  lemma {:induction false} MinExists(s: set<int>)
    requires s != {}
    ensures exists m :: m in s && forall x :: x in s ==> m <= x
  {
    NonEmptyHasElement(s);
    var y :| y in s;
    if s != {y} {
      MinExists(s - {y});
      var m :| m in s - {y} && forall x :: x in s - {y} ==> m <= x;
      var least := if y < m then y else m;
      forall x | x in s ensures least <= x {
        if x != y {
          assert x in s - {y};
        }
      }
    } else {
      assert forall x :: x in s ==> y <= x;
    }
  }

  /** The least element of a non-empty set of integers. */
  function Min(s: set<int>): (m: int)
    requires s != {}
    ensures m in s && forall x :: x in s ==> m <= x
  {
    MinExists(s);
    var m :| m in s && forall x :: x in s ==> m <= x;
    m
  }

  /** Every non-empty finite set of integers has a greatest element. */
  lemma {:induction false} MaxExists(s: set<int>)
    requires s != {}
    ensures exists m :: m in s && forall x :: x in s ==> x <= m
  {
    NonEmptyHasElement(s);
    var y :| y in s;
    if s != {y} {
      MaxExists(s - {y});
      var m :| m in s - {y} && forall x :: x in s - {y} ==> x <= m;
      var greatest := if y > m then y else m;
      forall x | x in s ensures x <= greatest {
        if x != y {
          assert x in s - {y};
        }
      }
    } else {
      assert forall x :: x in s ==> x <= y;
    }
  }

  /** The greatest element of a non-empty set of integers. */
  function Max(s: set<int>): (m: int)
    requires s != {}
    ensures m in s && forall x :: x in s ==> x <= m
  {
    MaxExists(s);
    var m :| m in s && forall x :: x in s ==> x <= m;
    m
  }

  /** The integers of `[0, n)` as a set. */
  function Range(n: nat): (r: set<int>)
    ensures forall x :: x in r <==> 0 <= x < n
    ensures |r| == n
  {
    if n == 0 then {}
    else
      var r := Range(n - 1) + {n - 1};
      assert n - 1 !in Range(n - 1);
      r
  }

  /** A subset is no larger than its superset. */
  lemma {:induction false} SubsetCard(a: set<int>, b: set<int>)
    requires a <= b
    ensures |a| <= |b|
  {
    if a != {} {
      NonEmptyHasElement(a);
      var x :| x in a;
      SubsetCard(a - {x}, b - {x});
    }
  }
}
