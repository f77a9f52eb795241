/** What the statements of several migrations have in common: picking, sorting and inserting rows. */
module Statements {
  import opened Basics

  // ---- ORDER BY ... LIMIT 1 ----

  /** Sort columns before the row id, which comes last. */
  datatype Rank = Rank(major: int, minor: int)

  predicate Precedes(a: Rank, i: int, b: Rank, j: int) {
    a.major < b.major || (a.major == b.major && (a.minor < b.minor || (a.minor == b.minor && i < j)))
  }

  predicate IsFirst(ranks: map<int, Rank>, k: int) {
    k in ranks && forall j :: j in ranks && j != k ==> Precedes(ranks[k], k, ranks[j], j)
  }

  lemma {:induction false} FirstExists(ranks: map<int, Rank>)
    requires ranks != map[]
    ensures exists k :: IsFirst(ranks, k)
    decreases |ranks|
  {
    assert (forall i :: i !in ranks) ==> ranks == map[];
    var i :| i in ranks;
    var rest := ranks - {i};
    if rest == map[] {
      assert forall j :: j in ranks ==> j == i || j in rest;
      assert IsFirst(ranks, i);
    } else {
      FirstExists(rest);
      var k :| IsFirst(rest, k);
      assert forall j :: j in ranks ==> j == i || j in rest;
      assert IsFirst(ranks, if Precedes(ranks[i], i, ranks[k], k) then i else k);
    }
  }

  lemma OneFirst(ranks: map<int, Rank>, j: int, k: int)
    requires IsFirst(ranks, j) && IsFirst(ranks, k)
    ensures j == k
  {
  }

  function First(ranks: map<int, Rank>): (r: Option<int>)
    ensures r.None? <==> ranks == map[]
    ensures r.Some? ==> IsFirst(ranks, r.value)
  {
    if ranks == map[] then None
    else
      FirstExists(ranks);
      var k :| IsFirst(ranks, k);
      Some(k)
  }

  // ---- inserts ----

  method PickOne<T>(s: set<T>) returns (x: T)
    requires s != {}
    ensures x in s
  {
    assert (forall y :: y !in s) ==> s == {};
    x :| x in s;
  }

  /**
   * The table holds exactly the rows in `done`, each once, under the ids a new identity column generates;
   * `source` says which row an id was generated for.
   */
  ghost predicate Stored<K, T>(table: map<int, T>, source: map<int, K>, rows: map<K, T>, done: set<K>) {
    && table.Keys == source.Keys && Numbered(table.Keys, |done|)
    && (forall k :: k in done ==> exists i :: i in source && source[i] == k)
    && (forall i :: i in source ==> source[i] in done)
    && (forall i, j :: i in source && j in source && source[i] == source[j] ==> i == j)
    && (forall i :: i in table ==> source[i] in rows && table[i] == rows[source[i]])
  }

  ghost predicate Numbered(ids: set<int>, n: nat) {
    forall i :: i in ids <==> 1 <= i <= n
  }

  lemma SameNumbers(a: set<int>, b: set<int>, n: nat)
    requires Numbered(a, n) && Numbered(b, n)
    ensures a == b
  {
    assert forall i :: i in a <==> i in b;
  }

  lemma StoreRow<K, T>(table: map<int, T>, source: map<int, K>, rows: map<K, T>, done: set<K>, k: K)
    requires Stored(table, source, rows, done) && k in rows && k !in done
    ensures Stored(table[|done| + 1 := rows[k]], source[|done| + 1 := k], rows, done + {k})
  {
    var added := source[|done| + 1 := k];
    assert |done + {k}| == |done| + 1;
    assert added[|done| + 1] == k;
    forall x | x in done + {k} ensures exists i :: i in added && added[i] == x {
      if x != k {
        var i :| i in source && source[i] == x;
        assert added[i] == x;
      }
    }
  }

  lemma StoredAt<K, T>(table: map<int, T>, source: map<int, K>, rows: map<K, T>, k: K) returns (i: int)
    requires Stored(table, source, rows, rows.Keys) && k in rows
    ensures i in table && source[i] == k && table[i] == rows[k]
  {
    i :| i in source && source[i] == k;
  }

  lemma StoredFrom<K, T>(table: map<int, T>, source: map<int, K>, rows: map<K, T>)
    requires Stored(table, source, rows, rows.Keys)
    ensures table.Keys == source.Keys && forall i :: i in table ==> source[i] in rows && table[i] == rows[source[i]]
    ensures forall i, j :: i in table && j in table && source[i] == source[j] ==> i == j
  {
  }

  lemma {:induction false} SomeOrder<K, T>(rows: map<K, T>, done: set<K>)
    returns (table: map<int, T>, source: map<int, K>)
    requires done <= rows.Keys
    ensures Stored(table, source, rows, done)
    decreases |done|
  {
    table, source := map[], map[];
    if done != {} {
      var k :| k in done;
      table, source := SomeOrder(rows, done - {k});
      table, source := StoreLast(table, source, rows, done, k);
    }
  }

  lemma StoreLast<K, T>(table: map<int, T>, source: map<int, K>, rows: map<K, T>, done: set<K>, k: K)
    returns (added: map<int, T>, addedFrom: map<int, K>)
    requires k in done && k in rows && Stored(table, source, rows, done - {k})
    ensures Stored(added, addedFrom, rows, done) && added == table[|done| := rows[k]]
  {
    hide Stored;
    StoreRow(table, source, rows, done - {k}, k);
    assert done - {k} + {k} == done && |done - {k}| + 1 == |done|;
    added, addedFrom := table[|done| := rows[k]], source[|done| := k];
  }

  /** Some order of the selected rows gives row `k` the id `n`. */
  lemma {:induction false} OrderWith<K, T>(rows: map<K, T>, done: set<K>, k: K, n: nat)
    returns (table: map<int, T>, source: map<int, K>)
    requires done <= rows.Keys && k in done && 1 <= n <= |done|
    ensures Stored(table, source, rows, done) && n in table && table[n] == rows[k]
    decreases |done|
  {
    if n == |done| {
      table, source := SomeOrder(rows, done - {k});
      table, source := StoreLast(table, source, rows, done, k);
    } else {
      assert done != {k};
      assert (forall y :: y in done ==> y == k) ==> done == {k};
      var x :| x in done && x != k;
      table, source := OrderWith(rows, done - {x}, k, n);
      table, source := StoreLast(table, source, rows, done, x);
    }
  }

  /** `INSERT ... SELECT` into a new table with generated ids, the selected rows read in any order. */
  method InsertSelected<K, T>(rows: map<K, T>) returns (table: map<int, T>, ghost source: map<int, K>)
    ensures Stored(table, source, rows, rows.Keys)
  {
    var done: set<K> := {};
    table, source := map[], map[];
    while done != rows.Keys
      invariant done <= rows.Keys && Stored(table, source, rows, done)
      decreases rows.Keys - done
    {
      assert forall k :: k in rows && k !in done ==> k in rows.Keys - done;
      var k := PickOne(rows.Keys - done);
      StoreRow(table, source, rows, done, k);
      table, source, done := table[|done| + 1 := rows[k]], source[|done| + 1 := k], done + {k};
    }
  }

  lemma {:induction false} InjectiveSize<K, V>(m: map<K, V>)
    requires forall j, k :: j in m && k in m && m[j] == m[k] ==> j == k
    ensures |m.Values| == |m|
    decreases |m|
  {
    if m != map[] {
      var k :| k in m;
      var rest := m - {k};
      InjectiveSize(rest);
      assert m.Values == rest.Values + {m[k]} by {
        assert forall j :: j in m ==> j == k || j in rest;
      }
      assert m[k] !in rest.Values;
    } else {
      assert m.Values == {};
    }
  }

  predicate Distinct(ids: map<int, string>) {
    forall f, g :: f in ids && g in ids && ids[f] == ids[g] ==> f == g
  }

  /** The table holds exactly the rows in `done`, each under its own id. */
  ghost predicate Inserted<T>(table: map<string, T>, ids: map<int, string>, rows: map<int, T>, done: set<int>)
    requires done <= ids.Keys && done <= rows.Keys
  {
    && (forall f :: f in done ==> ids[f] in table && table[ids[f]] == rows[f])
    && (forall id :: id in table ==> exists f :: f in done && ids[f] == id)
  }

  /** Inserting one more row never meets the primary key. */
  lemma InsertRow<T>(table: map<string, T>, ids: map<int, string>, rows: map<int, T>, done: set<int>, f: int)
    requires Distinct(ids) && done <= ids.Keys && done <= rows.Keys && f in ids && f in rows && f !in done
    requires Inserted(table, ids, rows, done)
    ensures ids[f] !in table
    ensures Inserted(table[ids[f] := rows[f]], ids, rows, done + {f})
  {
    var added := table[ids[f] := rows[f]];
    forall id | id in added ensures exists g :: g in done + {f} && ids[g] == id {
      if id == ids[f] {
        assert f in done + {f};
      } else {
        var g :| g in done && ids[g] == id;
        assert g in done + {f};
      }
    }
  }

  /** As many rows as were inserted: none overwrote another. */
  lemma InsertedCount<T>(table: map<string, T>, ids: map<int, string>, rows: map<int, T>, done: set<int>)
    requires Distinct(ids) && done <= ids.Keys && done <= rows.Keys && Inserted(table, ids, rows, done)
    ensures |table| == |done|
  {
    var used := map f | f in done :: ids[f];
    forall f, g | f in used && g in used && used[f] == used[g] ensures f == g {
      assert ids[f] == ids[g];
    }
    InjectiveSize(used);
    assert used.Values == table.Keys by {
      assert forall f :: f in used ==> used[f] == ids[f];
      forall id | id in table ensures id in used.Values {
        var f :| f in done && ids[f] == id;
        assert f in used && used[f] == id;
      }
    }
    assert used.Keys == done;
    assert |used| == |used.Keys| && |table| == |table.Keys|;
  }

  /** `INSERT ... SELECT` with the selected keys as ids. */
  method InsertKeyed<T>(ids: map<int, string>, rows: map<int, T>) returns (table: map<string, T>)
    requires Distinct(ids) && rows.Keys == ids.Keys
    ensures Inserted(table, ids, rows, ids.Keys)
  {
    var done: set<int> := {};
    table := map[];
    while done != ids.Keys
      invariant done <= ids.Keys
      invariant Inserted(table, ids, rows, done)
      decreases ids.Keys - done
    {
      assert forall f :: f in ids && f !in done ==> f in ids.Keys - done;
      var f := PickOne(ids.Keys - done);
      InsertRow(table, ids, rows, done, f);
      table, done := table[ids[f] := rows[f]], done + {f};
    }
  }
}
