/** The schema-migration runner: applies the migrations missing from the
    `schema_migrations` table in ascending version order, stops at the first
    failure, and rolls back the highest applied version. The database is
    abstracted to the set of recorded versions; `up` and `down` are given as
    their success or failure. */
module Migrations {
  import opened WorkoutTypes
  import opened IntSets

  /** A migration: `upOk` is whether its `up` succeeds; `down` is absent, or
      whether it succeeds. */
  datatype Migration = Migration(version: int, name: string, upOk: bool, down: Option<bool>)

  // ---- Ordering: `[...migrations].sort((a, b) => a.version - b.version)` ----

  predicate SortedByVersion(ms: seq<Migration>)
  {
    forall p, q :: 0 <= p < q < |ms| ==> ms[p].version <= ms[q].version
  }

  /** Places `m` before the first element whose version is not smaller. */
  function Insert(m: Migration, sorted: seq<Migration>): (r: seq<Migration>)
    ensures multiset(r) == multiset(sorted) + multiset{m}
  {
    if sorted == [] || m.version <= sorted[0].version then [m] + sorted
    else
      assert sorted == [sorted[0]] + sorted[1..];
      [sorted[0]] + Insert(m, sorted[1..])
  }

  lemma {:induction false} InsertSorted(m: Migration, sorted: seq<Migration>)
    requires SortedByVersion(sorted)
    ensures SortedByVersion(Insert(m, sorted))
  {
    if sorted != [] && m.version > sorted[0].version {
      assert SortedByVersion(sorted[1..]);
      InsertSorted(m, sorted[1..]);
      var rest := Insert(m, sorted[1..]);
      forall x | x in rest ensures sorted[0].version <= x.version {
        assert x in multiset(rest);
        assert x == m || x in multiset(sorted[1..]);
      }
    }
  }

  /** A stable sort by version (insertion sort), standing for the runtime's
      `Array.prototype.sort`, which works on a copy here. */
  function SortByVersion(ms: seq<Migration>): (r: seq<Migration>)
    ensures SortedByVersion(r)
    ensures multiset(r) == multiset(ms)
  {
    if ms == [] then []
    else
      assert ms == [ms[0]] + ms[1..];
      InsertSorted(ms[0], SortByVersion(ms[1..]));
      Insert(ms[0], SortByVersion(ms[1..]))
  }

  /** The migrations of one version, in list order. */
  function WithVersion(ms: seq<Migration>, v: int): (r: seq<Migration>)
    ensures forall x :: x in r ==> x.version == v
  {
    if ms == [] then []
    else if ms[0].version == v then [ms[0]] + WithVersion(ms[1..], v)
    else WithVersion(ms[1..], v)
  }

  lemma {:induction false} InsertWithVersion(m: Migration, sorted: seq<Migration>, v: int)
    requires SortedByVersion(sorted)
    ensures WithVersion(Insert(m, sorted), v)
         == if m.version == v then [m] + WithVersion(sorted, v) else WithVersion(sorted, v)
  {
    if sorted == [] || m.version <= sorted[0].version {
      assert ([m] + sorted)[1..] == sorted;
    } else {
      assert SortedByVersion(sorted[1..]);
      InsertWithVersion(m, sorted[1..], v);
      var r := [sorted[0]] + Insert(m, sorted[1..]);
      assert r[1..] == Insert(m, sorted[1..]);
      if m.version == v {
        assert sorted[0].version != v;
      }
    }
  }

  /** The sort is stable: migrations sharing a version keep their list order. */
  lemma {:induction false} SortStable(ms: seq<Migration>, v: int)
    ensures WithVersion(SortByVersion(ms), v) == WithVersion(ms, v)
  {
    if ms != [] {
      SortStable(ms[1..], v);
      InsertWithVersion(ms[0], SortByVersion(ms[1..]), v);
    }
  }

  // ---- Running: the specification ----

  /** The recorded versions, how many were recorded in this run, and the
      versions whose `up` was attempted, in order. */
  datatype RunState = RunState(table: set<int>, count: nat, attempted: seq<int>)

  /** The loop over the sorted migrations, from the front: a version that was
      applied when the run started is skipped; otherwise `up` is attempted
      and the version recorded, and a failing `up` or a failing insert of a
      version already recorded ends the run with that version. */
  function Run(ms: seq<Migration>, start: set<int>, st: RunState): (r: (RunState, Option<int>))
    ensures st.table <= r.0.table && st.count <= r.0.count
    ensures r.1.Some? ==> r.1.value !in start
  {
    if ms == [] then (st, None)
    else
      var v := ms[0].version;
      if v in start then Run(ms[1..], start, st)
      else
        var tried := st.attempted + [v];
        if !ms[0].upOk || v in st.table then (st.(attempted := tried), Some(v))
        else Run(ms[1..], start, RunState(st.table + {v}, st.count + 1, tried))
  }

  /** The versions of `ms` not applied at the start, in list order. */
  function PendingVersions(ms: seq<Migration>, start: set<int>): (r: seq<int>)
    ensures forall v :: v in r <==> v !in start && exists x :: x in ms && x.version == v
  {
    if ms == [] then []
    else
      var rest := PendingVersions(ms[1..], start);
      assert forall x :: x in ms ==> x == ms[0] || x in ms[1..];
      if ms[0].version in start then rest else [ms[0].version] + rest
  }

  function Elements(s: seq<int>): set<int>
  {
    set v | v in s
  }

  /** The versions a run records: every attempt but a failing last one. */
  function Committed(attempts: seq<int>, failed: Option<int>): seq<int>
  {
    if failed.Some? && attempts != [] then attempts[..|attempts| - 1] else attempts
  }

  /** A run only adds to the attempts it is given. */
  lemma {:induction false} RunExtends(ms: seq<Migration>, start: set<int>, st: RunState)
    ensures st.attempted <= Run(ms, start, st).0.attempted
  {
    if ms != [] {
      var v := ms[0].version;
      var tried := st.attempted + [v];
      if v in start {
        RunExtends(ms[1..], start, st);
      } else if ms[0].upOk && v !in st.table {
        RunExtends(ms[1..], start, RunState(st.table + {v}, st.count + 1, tried));
      }
    }
  }

  /** What a run attempts is a prefix of the pending versions. */
  lemma {:induction false} RunAttempts(ms: seq<Migration>, start: set<int>, st: RunState)
    ensures |st.attempted| <= |Run(ms, start, st).0.attempted|
    ensures |Run(ms, start, st).0.attempted| - |st.attempted| <= |PendingVersions(ms, start)|
    ensures forall k :: |st.attempted| <= k < |Run(ms, start, st).0.attempted| ==>
              Run(ms, start, st).0.attempted[k] == PendingVersions(ms, start)[k - |st.attempted|]
  {
    RunExtends(ms, start, st);
    if ms != [] {
      var v := ms[0].version;
      var tried := st.attempted + [v];
      var pend := PendingVersions(ms, start);
      if v in start {
        RunAttempts(ms[1..], start, st);
      } else if ms[0].upOk && v !in st.table {
        var st' := RunState(st.table + {v}, st.count + 1, tried);
        RunAttempts(ms[1..], start, st');
        RunExtends(ms[1..], start, st');
        var att := Run(ms[1..], start, st').0.attempted;
        assert pend == [v] + PendingVersions(ms[1..], start);
        forall k | |st.attempted| <= k < |att| ensures att[k] == pend[k - |st.attempted|] {
          if k == |st.attempted| {
            assert att[k] == tried[k];
          }
        }
      }
    }
  }

  /** A run that does not fail attempts every pending version. */
  lemma {:induction false} RunAttemptsAll(ms: seq<Migration>, start: set<int>, st: RunState)
    requires Run(ms, start, st).1.None?
    ensures |st.attempted| <= |Run(ms, start, st).0.attempted|
    ensures Run(ms, start, st).0.attempted[|st.attempted|..] == PendingVersions(ms, start)
  {
    RunExtends(ms, start, st);
    if ms == [] {
      assert st.attempted[|st.attempted|..] == [];
    } else {
      var v := ms[0].version;
      var tried := st.attempted + [v];
      if v in start {
        RunAttemptsAll(ms[1..], start, st);
      } else {
        var st' := RunState(st.table + {v}, st.count + 1, tried);
        RunAttemptsAll(ms[1..], start, st');
        RunExtends(ms[1..], start, st');
        var att := Run(ms[1..], start, st').0.attempted;
        assert att[|st.attempted|..] == [v] + att[|tried|..];
      }
    }
  }

  /** A failing run ends with the failing version as its last attempt. */
  lemma {:induction false} RunFailsLast(ms: seq<Migration>, start: set<int>, st: RunState)
    requires Run(ms, start, st).1.Some?
    ensures |st.attempted| < |Run(ms, start, st).0.attempted|
    ensures Run(ms, start, st).1.value == Run(ms, start, st).0.attempted[|Run(ms, start, st).0.attempted| - 1]
  {
    var v := ms[0].version;
    var tried := st.attempted + [v];
    if v in start {
      RunFailsLast(ms[1..], start, st);
    } else if ms[0].upOk && v !in st.table {
      RunFailsLast(ms[1..], start, RunState(st.table + {v}, st.count + 1, tried));
    }
  }

  /** What a run records: the start table plus its recorded attempts, with
      the counter advanced once per recorded attempt. */
  lemma {:induction false} RunRecords(ms: seq<Migration>, start: set<int>, st: RunState)
    ensures |st.attempted| <= |Run(ms, start, st).0.attempted|
    ensures var r := Run(ms, start, st);
            var x := Committed(r.0.attempted[|st.attempted|..], r.1);
            r.0.table == st.table + Elements(x) && r.0.count == st.count + |x|
  {
    if ms == [] {
      assert st.attempted[|st.attempted|..] == [];
    } else {
      var v := ms[0].version;
      var tried := st.attempted + [v];
      if v in start {
        assert Run(ms, start, st) == Run(ms[1..], start, st);
        RunRecords(ms[1..], start, st);
      } else if !ms[0].upOk || v in st.table {
        assert Run(ms, start, st) == (st.(attempted := tried), Some(v));
        assert tried[|st.attempted|..] == [v];
        assert Committed([v], Some(v)) == [];
      } else {
        var st' := RunState(st.table + {v}, st.count + 1, tried);
        assert Run(ms, start, st) == Run(ms[1..], start, st');
        RunRecords(ms[1..], start, st');
        RunExtends(ms[1..], start, st');
        var r := Run(ms[1..], start, st');
        if r.1.Some? {
          RunFailsLast(ms[1..], start, st');
        }
        var y := r.0.attempted[|tried|..];
        var x := r.0.attempted[|st.attempted|..];
        assert x == [v] + y;
        CommittedCons(v, y, r.1);
      }
    }
  }

  lemma CommittedCons(v: int, y: seq<int>, failed: Option<int>)
    requires failed.Some? ==> y != []
    ensures Committed([v] + y, failed) == [v] + Committed(y, failed)
    ensures Elements([v] + Committed(y, failed)) == {v} + Elements(Committed(y, failed))
  {
    if failed.Some? {
      assert ([v] + y)[..|y|] == [v] + y[..|y| - 1];
    }
  }

  /** The counter equals the number of versions newly recorded, the start
      versions stay recorded, and a run is "up to date" (counter 0) exactly
      when it records nothing. */
  lemma {:induction false} RunCount(ms: seq<Migration>, start: set<int>, st: RunState)
    requires start <= st.table && st.count == |st.table - start|
    ensures var fin := Run(ms, start, st).0;
            && st.table <= fin.table
            && fin.count == |fin.table - start|
            && (fin.count == st.count <==> fin.table == st.table)
  {
    if ms != [] {
      var v := ms[0].version;
      if v in start {
        RunCount(ms[1..], start, st);
      } else if ms[0].upOk && v !in st.table {
        var st' := RunState(st.table + {v}, st.count + 1, st.attempted + [v]);
        assert st'.table - start == (st.table - start) + {v};
        RunCount(ms[1..], start, st');
        var fin := Run(ms, start, st).0;
        assert fin.table != st.table by {
          assert v in fin.table;
        }
        assert st.count < fin.count by {
          SubsetCard(st'.table - start, fin.table - start);
        }
      }
    }
  }

  /** A list that is ordered by version gives its pending versions in
      ascending order. */
  lemma {:induction false} PendingAscending(ms: seq<Migration>, start: set<int>)
    requires SortedByVersion(ms)
    ensures forall p, q :: 0 <= p < q < |PendingVersions(ms, start)| ==>
              PendingVersions(ms, start)[p] <= PendingVersions(ms, start)[q]
  {
    if ms != [] {
      assert SortedByVersion(ms[1..]);
      PendingAscending(ms[1..], start);
      var rest := PendingVersions(ms[1..], start);
      forall q | 0 <= q < |rest| ensures ms[0].version <= rest[q] {
        assert rest[q] in rest;
        var x :| x in ms[1..] && x.version == rest[q];
        var k :| 0 <= k < |ms[1..]| && ms[1..][k] == x;
        assert ms[k + 1] == x;
      }
    }
  }

  /** Over a version-ordered list, a run from the start state attempts
      pending versions of the list only, in ascending order. */
  lemma RunOrdered(ms: seq<Migration>, applied: set<int>)
    requires SortedByVersion(ms)
    ensures var att := Run(ms, applied, RunState(applied, 0, [])).0.attempted;
            forall p, q :: 0 <= p < q < |att| ==> att[p] <= att[q]
    ensures var att := Run(ms, applied, RunState(applied, 0, [])).0.attempted;
            forall v :: v in att ==> v !in applied && exists m :: m in ms && m.version == v
  {
    var st := RunState(applied, 0, []);
    var att := Run(ms, applied, st).0.attempted;
    var pend := PendingVersions(ms, applied);
    RunAttempts(ms, applied, st);
    assert forall k :: 0 <= k < |att| ==> att[k] == pend[k - |st.attempted|];
    PendingAscending(ms, applied);
    PrefixOfAscending(att, pend);
  }

  /** A run from the start state over the sorted list attempts versions in
      ascending order, each one pending and named by some migration. */
  lemma RunMigrationsOrder(migrations: seq<Migration>, applied: set<int>)
    ensures var r := Run(SortByVersion(migrations), applied, RunState(applied, 0, []));
            forall p, q :: 0 <= p < q < |r.0.attempted| ==> r.0.attempted[p] <= r.0.attempted[q]
    ensures var r := Run(SortByVersion(migrations), applied, RunState(applied, 0, []));
            forall v :: v in r.0.attempted ==> v !in applied && exists m :: m in migrations && m.version == v
  {
    var sorted := SortByVersion(migrations);
    RunOrdered(sorted, applied);
    var att := Run(sorted, applied, RunState(applied, 0, [])).0.attempted;
    forall v | v in att ensures exists m :: m in migrations && m.version == v {
      var x :| x in sorted && x.version == v;
      assert x in multiset(sorted);
    }
  }

  /** A prefix of an ascending sequence is ascending and draws its elements from it. */
  lemma PrefixOfAscending(a: seq<int>, b: seq<int>)
    requires |a| <= |b| && forall k :: 0 <= k < |a| ==> a[k] == b[k]
    requires forall p, q :: 0 <= p < q < |b| ==> b[p] <= b[q]
    ensures forall p, q :: 0 <= p < q < |a| ==> a[p] <= a[q]
    ensures forall v :: v in a ==> v in b
  {
  }

  /** A run from the start state attempts every pending version unless one
      fails, and then the failing version is its last attempt. */
  lemma RunMigrationsStop(migrations: seq<Migration>, applied: set<int>)
    ensures var r := Run(SortByVersion(migrations), applied, RunState(applied, 0, []));
            r.1.None? ==> r.0.attempted == PendingVersions(SortByVersion(migrations), applied)
    ensures var r := Run(SortByVersion(migrations), applied, RunState(applied, 0, []));
            r.1.Some? ==> r.0.attempted != [] && r.1.value == r.0.attempted[|r.0.attempted| - 1]
  {
    var sorted := SortByVersion(migrations);
    var st := RunState(applied, 0, []);
    var r := Run(sorted, applied, st);
    if r.1.Some? {
      RunFailsLast(sorted, applied, st);
    } else {
      RunAttemptsAll(sorted, applied, st);
      assert r.0.attempted[0..] == r.0.attempted;
    }
  }

  /** A run from the start state records exactly the attempts that did not
      fail, and its counter is the number of versions it newly recorded, so
      it reports "up to date" exactly when it recorded nothing. */
  lemma RunMigrationsRecords(migrations: seq<Migration>, applied: set<int>)
    ensures var r := Run(SortByVersion(migrations), applied, RunState(applied, 0, []));
            && r.0.table == applied + Elements(Committed(r.0.attempted, r.1))
            && r.0.count == |r.0.table - applied|
            && (r.0.count == 0 <==> r.0.table == applied)
  {
    var sorted := SortByVersion(migrations);
    var st := RunState(applied, 0, []);
    RunRecords(sorted, applied, st);
    assert Run(sorted, applied, st).0.attempted[0..] == Run(sorted, applied, st).0.attempted;
    assert applied - applied == {};
    RunCount(sorted, applied, st);
  }

  /** Only a migration whose `up` succeeded is recorded: every version a run
      adds to the table was pending and belongs to a migration with a
      succeeding `up`. */
  lemma {:induction false} RunRecordsOnlyUp(ms: seq<Migration>, start: set<int>, st: RunState)
    ensures var r := Run(ms, start, st);
            forall v :: v in r.0.table - st.table ==>
              v !in start && exists m :: m in ms && m.version == v && m.upOk
  {
    if ms != [] {
      var v0 := ms[0].version;
      var r := Run(ms, start, st);
      assert forall m :: m in ms[1..] ==> m in ms;
      if v0 in start {
        RunRecordsOnlyUp(ms[1..], start, st);
      } else if ms[0].upOk && v0 !in st.table {
        var st' := RunState(st.table + {v0}, st.count + 1, st.attempted + [v0]);
        assert r == Run(ms[1..], start, st');
        RunRecordsOnlyUp(ms[1..], start, st');
        forall v | v in r.0.table - st.table
          ensures v !in start && exists m :: m in ms && m.version == v && m.upOk
        {
          if v == v0 {
            assert ms[0] in ms;
          } else {
            assert v in r.0.table - st'.table;
          }
        }
      }
    }
  }

  /** What makes a run fail: the failing version belongs to a migration whose
      `up` fails, or it is already in the table, so its insert fails. */
  lemma {:induction false} RunFailureCause(ms: seq<Migration>, start: set<int>, st: RunState)
    ensures var r := Run(ms, start, st);
            r.1.Some? ==> exists m :: m in ms && m.version == r.1.value && (!m.upOk || r.1.value in r.0.table)
  {
    if ms != [] {
      var v0 := ms[0].version;
      assert forall m :: m in ms[1..] ==> m in ms;
      if v0 in start {
        RunFailureCause(ms[1..], start, st);
      } else if !ms[0].upOk || v0 in st.table {
        assert ms[0] in ms;
      } else {
        RunFailureCause(ms[1..], start, RunState(st.table + {v0}, st.count + 1, st.attempted + [v0]));
      }
    }
  }

  /** No version not applied at `start` is carried by two migrations, nor
      twice by the same one. */
  predicate UniquePending(ms: multiset<Migration>, start: set<int>)
  {
    forall m, m' :: m in ms && m' in ms && m.version == m'.version && m.version !in start ==>
      m == m' && ms[m] == 1
  }

  /** A run in which every pending `up` succeeds, no pending version is listed
      twice and none is in the table yet, does not fail. */
  lemma {:induction false} RunSucceeds(ms: seq<Migration>, start: set<int>, st: RunState)
    requires forall m :: m in ms && m.version !in start ==> m.upOk && m.version !in st.table
    requires UniquePending(multiset(ms), start)
    ensures Run(ms, start, st).1.None?
  {
    if ms != [] {
      var v0 := ms[0].version;
      assert ms == [ms[0]] + ms[1..];
      assert forall m :: m in ms[1..] ==> m in ms;
      assert UniquePending(multiset(ms[1..]), start);
      if v0 in start {
        RunSucceeds(ms[1..], start, st);
      } else {
        assert ms[0] in ms;
        var st' := RunState(st.table + {v0}, st.count + 1, st.attempted + [v0]);
        forall m | m in ms[1..] && m.version !in start
          ensures m.upOk && m.version !in st'.table
        {
          assert m in ms;
        }
        RunSucceeds(ms[1..], start, st');
      }
    }
  }

  /** A run from the start state over the sorted list records a version only
      when it is pending and some migration with that version has a
      succeeding `up`; and when it fails, the failing version belongs to a
      migration whose `up` fails or was recorded earlier in the run. */
  lemma RunMigrationsCauses(migrations: seq<Migration>, applied: set<int>)
    ensures var r := Run(SortByVersion(migrations), applied, RunState(applied, 0, []));
            forall v :: v in r.0.table - applied ==>
              v !in applied && exists m :: m in migrations && m.version == v && m.upOk
    ensures var r := Run(SortByVersion(migrations), applied, RunState(applied, 0, []));
            r.1.Some? ==> exists m :: m in migrations && m.version == r.1.value && (!m.upOk || r.1.value in r.0.table)
  {
    var sorted := SortByVersion(migrations);
    var st := RunState(applied, 0, []);
    var r := Run(sorted, applied, st);
    RunRecordsOnlyUp(sorted, applied, st);
    RunFailureCause(sorted, applied, st);
    forall m | m in sorted ensures m in migrations {
      assert m in multiset(sorted);
    }
  }

  /** When every migration not yet applied has a succeeding `up` and no
      pending version is listed twice, a run from the start state completes. */
  lemma RunMigrationsSucceeds(migrations: seq<Migration>, applied: set<int>)
    requires forall m :: m in migrations && m.version !in applied ==> m.upOk
    requires UniquePending(multiset(migrations), applied)
    ensures Run(SortByVersion(migrations), applied, RunState(applied, 0, [])).1.None?
  {
    var sorted := SortByVersion(migrations);
    forall m | m in sorted ensures m in migrations {
      assert m in multiset(sorted);
    }
    RunSucceeds(sorted, applied, RunState(applied, 0, []));
  }

  // ---- Rolling back ----

  /** `migrations.find(m => m.version === v)`. */
  function FindMigration(ms: seq<Migration>, v: int): (r: Option<Migration>)
    ensures r.None? <==> forall m :: m in ms ==> m.version != v
    ensures r.Some? ==> r.value in ms && r.value.version == v
  {
    if ms == [] then None
    else if ms[0].version == v then Some(ms[0])
    else
      assert forall m :: m in ms ==> m == ms[0] || m in ms[1..];
      FindMigration(ms[1..], v)
  }

  /** The migration found is the first of its version in the list. */
  lemma {:induction false} FindMigrationFirst(ms: seq<Migration>, v: int, k: int)
    requires 0 <= k < |ms| && ms[k].version == v
    requires forall j :: 0 <= j < k ==> ms[j].version != v
    ensures FindMigration(ms, v) == Some(ms[k])
  {
    if k > 0 {
      FindMigrationFirst(ms[1..], v, k - 1);
    }
  }

  datatype RunOutcome = Completed(appliedCount: nat) | Failed(version: int)

  datatype RollbackOutcome =
    | NothingToRollback
    | NotFound(version: int)        // "Migration v not found"
    | NoDown(version: int)          // "Migration v has no down() function"
    | DownFailed(version: int)
    | RolledBack(version: int)

  /** The `schema_migrations` table, as the set of recorded versions. */
  class SchemaMigrations {
    var applied: set<int>

    constructor (applied: set<int>)
      ensures this.applied == applied
    {
      this.applied := applied;
    }

    /** `runMigrations`: the versions are read once, the sorted copy is
        walked, and every pending migration is applied and then recorded. */
    method RunMigrations(migrations: seq<Migration>) returns (outcome: RunOutcome)
      modifies this
      ensures var (fin, err) := Run(SortByVersion(migrations), old(applied), RunState(old(applied), 0, []));
              && applied == fin.table
              && outcome == if err.None? then Completed(fin.count) else Failed(err.value)
    {
      var appliedVersions := applied;
      var sorted := SortByVersion(migrations);
      var appliedCount: nat := 0;
      ghost var attempted: seq<int> := [];
      for i := 0 to |sorted|
        invariant Run(sorted[i..], appliedVersions, RunState(applied, appliedCount, attempted))
               == Run(sorted, appliedVersions, RunState(appliedVersions, 0, []))
      {
        var migration := sorted[i];
        assert sorted[i..][1..] == sorted[i + 1..];
        if migration.version !in appliedVersions {
          attempted := attempted + [migration.version];
          if !migration.upOk {
            return Failed(migration.version);
          }
          if migration.version in applied {
            return Failed(migration.version);
          }
          applied := applied + {migration.version};
          appliedCount := appliedCount + 1;
        }
      }
      outcome := Completed(appliedCount);
    }

    /** `rollbackLastMigration`: undoes the highest recorded version, when
        the list knows it and it has a `down`. */
    method RollbackLastMigration(migrations: seq<Migration>) returns (outcome: RollbackOutcome)
      modifies this
      ensures old(applied) == {} ==> outcome == NothingToRollback
      ensures old(applied) != {} ==>
                var v := Max(old(applied));
                var found := FindMigration(migrations, v);
                && (found.None? ==> outcome == NotFound(v))
                && (found.Some? && found.value.down.None? ==> outcome == NoDown(v))
                && (found.Some? && found.value.down == Some(false) ==> outcome == DownFailed(v))
                && (found.Some? && found.value.down == Some(true) ==> outcome == RolledBack(v))
      ensures outcome.RolledBack? ==> applied == old(applied) - {outcome.version}
      ensures !outcome.RolledBack? ==> applied == old(applied)
    {
      if applied == {} {
        return NothingToRollback;
      }
      var lastVersion := Max(applied);
      var migration := FindMigration(migrations, lastVersion);
      if migration.None? {
        return NotFound(lastVersion);
      }
      if migration.value.down.None? {
        return NoDown(lastVersion);
      }
      if !migration.value.down.value {
        return DownFailed(lastVersion);
      }
      applied := applied - {lastVersion};
      outcome := RolledBack(lastVersion);
    }
  }
}
