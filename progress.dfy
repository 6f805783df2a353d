/** Progress arithmetic shared by the plan editor and the active-workout
    view: total target sets, completed sets across all entries, percentage. */
module Progress {
  import opened WorkoutTypes
  import opened SetTracking
  import opened IntSets

  /** `exercises.reduce((sum, ex) => sum + (ex.sets || 1), 0)`. */
  function TotalSets(exercises: seq<Exercise>): (total: int)
    ensures (forall k :: 0 <= k < |exercises| ==> NonNegativeTarget(exercises[k].sets))
            ==> total >= |exercises|
  {
    if exercises == [] then 0
    else TargetSets(exercises[0].sets) + TotalSets(exercises[1..])
  }

  /** The sum of the lengths of all entries of the completion map, whether
      or not their key is an exercise of the plan. Entries are summed in
      ascending key order; the order does not matter (see CompletedCountRemove). */
  function CompletedCount(m: map<int, seq<int>>): (count: nat)
    ensures m == map[] ==> count == 0
    ensures (forall k :: k in m ==> m[k] == []) ==> count == 0
    decreases |m|
  {
    if m == map[] then 0
    else
      var k := Min(m.Keys);
      assert |m - {k}| < |m| by {
        assert (m - {k}).Keys == m.Keys - {k};
      }
      |m[k]| + CompletedCount(m - {k})
  }

  /** Any entry can be taken out of the sum first. */
  lemma {:induction false} CompletedCountRemove(m: map<int, seq<int>>, k: int)
    requires k in m
    ensures CompletedCount(m) == |m[k]| + CompletedCount(m - {k})
    decreases |m|
  {
    var j := Min(m.Keys);
    if j != k {
      assert |m - {j}| < |m| by {
        assert (m - {j}).Keys == m.Keys - {j};
      }
      assert |m - {k}| < |m| by {
        assert (m - {k}).Keys == m.Keys - {k};
      }
      CompletedCountRemove(m - {j}, k);
      CompletedCountRemove(m - {k}, j);
      assert m - {j} - {k} == m - {k} - {j};
    }
  }

  /** Summing over a map with an entry replaced or added. */
  lemma CompletedCountUpdate(m: map<int, seq<int>>, k: int, v: seq<int>)
    ensures CompletedCount(m[k := v]) == CompletedCount(m) - |Lookup(m, k)| + |v|
  {
    var m' := m[k := v];
    CompletedCountRemove(m', k);
    assert m' - {k} == m - {k};
    if k in m {
      CompletedCountRemove(m, k);
    } else {
      assert m - {k} == m;
    }
  }

  /** Toggling one set of a duplicate-free entry moves the completed count by
      exactly one, in the direction of the toggle. */
  lemma ToggleEntryCount(m: map<int, seq<int>>, exerciseId: int, i: int)
    requires NoDup(Lookup(m, exerciseId))
    ensures CompletedCount(ToggleEntry(m, exerciseId, i))
         == CompletedCount(m) + (if i in Lookup(m, exerciseId) then -1 else 1)
  {
    ToggleNoDup(Lookup(m, exerciseId), i);
    CompletedCountUpdate(m, exerciseId, Toggle(Lookup(m, exerciseId), i));
  }

  /** `total > 0 ? (completed / total) * 100 : 0`, as an exact rational. */
  function Percentage(completed: int, total: int): (p: real)
    ensures total <= 0 ==> p == 0.0
    ensures total > 0 ==> p * (total as real) == 100.0 * (completed as real)
    ensures total > 0 && 0 <= completed <= total ==> 0.0 <= p <= 100.0
    ensures total > 0 ==> (p == 100.0 <==> completed == total)
  {
    if total > 0 then
      var t := total as real;
      var p := (completed as real) / t * 100.0;
      assert p * t == 100.0 * (completed as real);
      assert p == 100.0 ==> completed as real == t by {
        if p == 100.0 {
          assert 100.0 * t == 100.0 * (completed as real);
        }
      }
      p
    else 0.0
  }

  // ---- Bounds under the well-formedness the editor intends but does not enforce ----

  /** The elements of a duplicate-free list form a set of the same size. */
  lemma {:induction false} NoDupCard(s: seq<int>)
    requires NoDup(s)
    ensures |set x | x in s| == |s|
  {
    if s != [] {
      assert NoDup(s[1..]);
      NoDupCard(s[1..]);
      assert (set x | x in s) == (set x | x in s[1..]) + {s[0]};
      assert s[0] !in s[1..];
    }
  }

  /** A duplicate-free list of indices of `[0, n)` has at most n entries,
      and exactly n when it lists every index. */
  lemma CompletedBound(s: seq<int>, n: int)
    requires NoDup(s) && InRange(s, n)
    ensures |s| <= (if n < 0 then 0 else n)
    ensures n >= 0 ==> (|s| == n <==> forall i :: 0 <= i < n ==> i in s)
  {
    NoDupCard(s);
    var e := set x | x in s;
    var n' := if n < 0 then 0 else n;
    var full := Range(n');
    assert e <= full;
    SubsetCard(e, full);
    if n >= 0 && |s| == n {
      forall i | 0 <= i < n ensures i in s {
        if i !in s {
          assert e <= full - {i};
          SubsetCard(e, full - {i});
        }
      }
    }
    if n >= 0 && forall i :: 0 <= i < n ==> i in s {
      assert full <= e;
      SubsetCard(full, e);
    }
  }

  /** The completion map matches the plan: its keys are exercise ids of the
      plan, ids are distinct, targets are non-negative or absent, and each
      entry lists distinct indices within its exercise's target. */
  predicate WellFormed(exercises: seq<Exercise>, m: map<int, seq<int>>)
  {
    && (forall p, q :: 0 <= p < q < |exercises| ==> exercises[p].id != exercises[q].id)
    && (forall k :: 0 <= k < |exercises| ==> NonNegativeTarget(exercises[k].sets))
    && (forall id :: id in m ==> exists k :: 0 <= k < |exercises| && exercises[k].id == id)
    && (forall k :: 0 <= k < |exercises| ==>
          NoDup(Lookup(m, exercises[k].id)) && InRange(Lookup(m, exercises[k].id), TargetSets(exercises[k].sets)))
  }

  /** Under that well-formedness, no more sets are completed than targeted,
      so the percentage never exceeds 100. */
  lemma {:induction false} CompletedWithinTotal(exercises: seq<Exercise>, m: map<int, seq<int>>)
    requires WellFormed(exercises, m)
    ensures CompletedCount(m) <= TotalSets(exercises)
    ensures Percentage(CompletedCount(m), TotalSets(exercises)) <= 100.0
  {
    if exercises != [] {
      var e := exercises[0];
      var rest := exercises[1..];
      var m' := m - {e.id};
      CompletedBound(Lookup(m, e.id), TargetSets(e.sets));
      if e.id in m {
        CompletedCountRemove(m, e.id);
      } else {
        assert m' == m;
      }
      WellFormedTail(exercises, m);
      CompletedWithinTotal(rest, m');
    }
  }

  /** Dropping the first exercise and its entry keeps the pair well formed. */
  lemma WellFormedTail(exercises: seq<Exercise>, m: map<int, seq<int>>)
    requires exercises != [] && WellFormed(exercises, m)
    ensures WellFormed(exercises[1..], m - {exercises[0].id})
  {
    var e := exercises[0];
    var rest := exercises[1..];
    var m' := m - {e.id};
    forall id | id in m' ensures exists k :: 0 <= k < |rest| && rest[k].id == id {
      var k :| 0 <= k < |exercises| && exercises[k].id == id;
      assert k != 0;
      assert rest[k - 1].id == id;
    }
    forall k | 0 <= k < |rest|
      ensures NoDup(Lookup(m', rest[k].id)) && InRange(Lookup(m', rest[k].id), TargetSets(rest[k].sets))
    {
      assert rest[k] == exercises[k + 1];
      assert Lookup(m', rest[k].id) == Lookup(m, rest[k].id);
    }
  }
}
