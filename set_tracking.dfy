/** Per-exercise set completion: a list of completed set indices per exercise
    id, toggled one index at a time. Both the session context and the plan
    editor use this same remove-if-present / append-if-absent rule. */
module SetTracking {

  /** The completed indices recorded for an exercise id, `[]` when it has no entry. */
  function Lookup(m: map<int, seq<int>>, exerciseId: int): (r: seq<int>)
    ensures exerciseId in m ==> r == m[exerciseId]
    ensures exerciseId !in m ==> r == []
  {
    if exerciseId in m then m[exerciseId] else []
  }

  /** `s.filter(x => x !== i)`: every occurrence of `i` dropped, the rest kept in order. */
  function Without(s: seq<int>, i: int): (r: seq<int>)
    ensures i !in r
    ensures forall x :: x != i ==> (x in r <==> x in s)
    ensures multiset(r) == multiset(s)[i := 0]
    ensures |r| <= |s|
  {
    if s == [] then []
    else
      assert s == [s[0]] + s[1..];
      if s[0] == i then Without(s[1..], i)
      else [s[0]] + Without(s[1..], i)
  }

  /** The filter works element by element: it distributes over concatenation,
      so the kept values stay in their order. */
  lemma {:induction false} WithoutAppend(a: seq<int>, b: seq<int>, i: int)
    ensures Without(a + b, i) == Without(a, i) + Without(b, i)
  {
    if a == [] {
      assert a + b == b;
    } else {
      assert (a + b)[1..] == a[1..] + b;
      WithoutAppend(a[1..], b, i);
    }
  }

  /** The toggle of one set index in an exercise's list. */
  function Toggle(s: seq<int>, i: int): (r: seq<int>)
    ensures i in r <==> i !in s
    ensures forall x :: x != i ==> (x in r <==> x in s)
    ensures i !in s ==> r == s + [i]
    ensures i in s ==> r == Without(s, i)
  {
    if i in s then Without(s, i) else s + [i]
  }

  /** The toggle applied to the entry of `exerciseId`, creating it when missing. */
  function ToggleEntry(m: map<int, seq<int>>, exerciseId: int, i: int): (r: map<int, seq<int>>)
    ensures r.Keys == m.Keys + {exerciseId}
    ensures Lookup(r, exerciseId) == Toggle(Lookup(m, exerciseId), i)
    ensures forall k :: k != exerciseId ==> Lookup(r, k) == Lookup(m, k)
  {
    m[exerciseId := Toggle(Lookup(m, exerciseId), i)]
  }

  /** No index is listed twice. */
  predicate NoDup(s: seq<int>)
  {
    forall p, q :: 0 <= p < q < |s| ==> s[p] != s[q]
  }

  /** Dropping an index that is absent changes nothing. */
  lemma {:induction false} WithoutAbsent(s: seq<int>, i: int)
    requires i !in s
    ensures Without(s, i) == s
  {
    if s != [] {
      WithoutAbsent(s[1..], i);
    }
  }

  /** Dropping `i` from a list that ends with a single new `i` restores the list. */
  lemma {:induction false} WithoutAppended(s: seq<int>, i: int)
    requires i !in s
    ensures Without(s + [i], i) == s
  {
    if s == [] {
      assert [i][1..] == [];
    } else {
      assert (s + [i])[1..] == s[1..] + [i];
      WithoutAppended(s[1..], i);
    }
  }

  /** Toggling an index that is not yet completed twice restores the exact list. */
  lemma ToggleTwiceAbsent(s: seq<int>, i: int)
    requires i !in s
    ensures Toggle(Toggle(s, i), i) == s
  {
    WithoutAppended(s, i);
  }

  /** Toggling any index twice restores the same set of completed indices;
      a present index ends up moved to the end of the list. */
  lemma ToggleTwiceSameIndices(s: seq<int>, i: int)
    ensures forall x :: x in Toggle(Toggle(s, i), i) <==> x in s
    ensures i in s ==> Toggle(Toggle(s, i), i) == Without(s, i) + [i]
  {
  }

  /** When the index occurs once and last, toggling twice restores the exact list. */
  lemma ToggleTwiceLast(s: seq<int>, i: int)
    requires i !in s
    ensures Toggle(Toggle(s + [i], i), i) == s + [i]
  {
    WithoutAppended(s, i);
  }

  /** Dropping a value from a list without duplicates keeps it duplicate-free
      and removes exactly one element when the value is present. */
  lemma {:induction false} WithoutNoDup(s: seq<int>, i: int)
    requires NoDup(s)
    ensures NoDup(Without(s, i))
    ensures |Without(s, i)| == if i in s then |s| - 1 else |s|
  {
    if s != [] {
      assert NoDup(s[1..]);
      WithoutNoDup(s[1..], i);
      if s[0] == i {
        assert i !in s[1..];
        WithoutAbsent(s[1..], i);
      } else {
        assert s[0] !in Without(s[1..], i) by {
          assert s[0] !in s[1..];
        }
        var r := [s[0]] + Without(s[1..], i);
        assert forall q :: 0 < q < |r| ==> r[q] == Without(s[1..], i)[q - 1];
      }
    }
  }

  /** Toggling keeps a duplicate-free list duplicate-free and moves its
      length by exactly one: down when the index was done, up otherwise. */
  lemma ToggleNoDup(s: seq<int>, i: int)
    requires NoDup(s)
    ensures NoDup(Toggle(s, i))
    ensures |Toggle(s, i)| == if i in s then |s| - 1 else |s| + 1
  {
    WithoutNoDup(s, i);
  }

  /** Every listed index lies in `[0, n)`. */
  predicate InRange(s: seq<int>, n: int)
  {
    forall k :: 0 <= k < |s| ==> 0 <= s[k] < n
  }

  /** Toggling an index of `[0, n)` keeps every listed index in `[0, n)`. */
  lemma ToggleInRange(s: seq<int>, i: int, n: int)
    requires InRange(s, n) && 0 <= i < n
    ensures InRange(Toggle(s, i), n)
  {
    var r := Toggle(s, i);
    forall k | 0 <= k < |r| ensures 0 <= r[k] < n {
      assert r[k] in r;
      if r[k] != i {
        assert r[k] in s;
      }
    }
  }

  /** Toggling an exercise's entry twice with an index it did not list leaves
      every exercise's completed list as it was (an absent entry reads as empty). */
  lemma ToggleEntryTwiceAbsent(m: map<int, seq<int>>, exerciseId: int, i: int)
    requires i !in Lookup(m, exerciseId)
    ensures forall k :: Lookup(ToggleEntry(ToggleEntry(m, exerciseId, i), exerciseId, i), k) == Lookup(m, k)
    ensures exerciseId in m ==> ToggleEntry(ToggleEntry(m, exerciseId, i), exerciseId, i) == m
    ensures exerciseId !in m ==> ToggleEntry(ToggleEntry(m, exerciseId, i), exerciseId, i) == m[exerciseId := []]
  {
    var s := Lookup(m, exerciseId);
    ToggleTwiceAbsent(s, i);
    var t := ToggleEntry(m, exerciseId, i);
    assert t == m[exerciseId := Toggle(s, i)];
    assert Lookup(t, exerciseId) == Toggle(s, i);
    var r := ToggleEntry(t, exerciseId, i);
    assert r == m[exerciseId := s];
    forall k ensures Lookup(r, k) == Lookup(m, k) {
      if k != exerciseId {
        assert Lookup(r, k) == Lookup(t, k) == Lookup(m, k);
      }
    }
    if exerciseId in m {
      assert m[exerciseId := m[exerciseId]] == m;
    } else {
      assert s == [];
    }
  }
}
