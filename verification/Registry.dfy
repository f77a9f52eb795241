/**
 * The polymorphic registry: a reference names an entity type by code, and the registry says which
 * table its rows live in. No foreign key can express that, so it is checked when a reference is
 * written and swept for by a finder.
 */
module Registry {
  /** A row of `core.entity_types`; the code is the key (`uq_entity_types_code`). */
  datatype EntityType = EntityType(table: string, deleted: bool)

  type Types = map<string, EntityType>

  /** A row of some table: the table's name and the row's id. */
  type Row = (string, int)

  /** A polymorphic reference: an alias or a field value. */
  datatype Reference = Reference(typeCode: string, ownerId: int, deleted: bool)

  predicate Registered(types: Types, code: string) {
    code in types && !types[code].deleted
  }

  predicate OwnerExists(types: Types, rows: set<Row>, r: Reference) {
    Registered(types, r.typeCode) && (types[r.typeCode].table, r.ownerId) in rows
  }

  /** A live reference of a live registered type whose owner row is missing. */
  predicate Orphan(types: Types, rows: set<Row>, r: Reference) {
    !r.deleted && Registered(types, r.typeCode) && (types[r.typeCode].table, r.ownerId) !in rows
  }

  datatype Existence = Exists | NotRegistered | UndefinedTable | Missing

  /** `core.assert_entity_exists`; a registry row naming an unknown table makes the dynamic query fail. */
  method AssertEntityExists(types: Types, tables: set<string>, rows: set<Row>, code: string, id: int)
    returns (outcome: Existence)
    requires forall r :: r in rows ==> r.0 in tables
    ensures outcome.Exists? <==> code in types && !types[code].deleted && (types[code].table, id) in rows
    ensures outcome.NotRegistered? <==> code !in types || types[code].deleted
    ensures outcome.UndefinedTable? <==> code in types && !types[code].deleted && types[code].table !in tables
    ensures outcome.Missing? <==>
      code in types && !types[code].deleted && types[code].table in tables && (types[code].table, id) !in rows
  {
    if code !in types || types[code].deleted {
      return NotRegistered;
    }
    var target := types[code].table;
    if target !in tables {
      return UndefinedTable;
    }
    if (target, id) in rows {
      return Exists;
    }
    return Missing;
  }

  datatype Found = Found(id: int, typeCode: string, ownerId: int)

  datatype Sweep = Rows(found: seq<Found>) | UnknownTable(code: string)

  predicate DistinctCodes(registry: seq<(string, EntityType)>) {
    forall i, j :: 0 <= i < j < |registry| ==> registry[i].0 != registry[j].0
  }

  predicate DistinctIds(refs: seq<(int, Reference)>) {
    forall i, j :: 0 <= i < j < |refs| ==> refs[i].0 != refs[j].0
  }

  /** The reference at `i` dangles from the registry entry `entry`. */
  predicate Dangles(entry: (string, EntityType), rows: set<Row>, r: Reference) {
    r.typeCode == entry.0 && !r.deleted && (entry.1.table, r.ownerId) !in rows
  }

  /** `f` is reported for a live reference of the entry's type whose owner is missing from the entry's table. */
  predicate IsDangling(f: Found, ref: (int, Reference), entry: (string, EntityType), rows: set<Row>) {
    && f.id == ref.0 && f.typeCode == ref.1.typeCode && f.ownerId == ref.1.ownerId
    && !ref.1.deleted && ref.1.typeCode == entry.0 && (entry.1.table, f.ownerId) !in rows
  }

  /** The dynamic query for one registry entry, in table order. */
  method DanglingOf(entry: (string, EntityType), rows: set<Row>, refs: seq<(int, Reference)>)
    returns (found: seq<Found>)
    requires DistinctIds(refs)
    ensures forall f :: f in found <==> exists i :: 0 <= i < |refs| && IsDangling(f, refs[i], entry, rows)
    ensures forall x, y :: 0 <= x < y < |found| ==> found[x].id != found[y].id
  {
    found := [];
    for n := 0 to |refs|
      invariant forall f :: f in found <==> exists i :: 0 <= i < n && IsDangling(f, refs[i], entry, rows)
      invariant forall x, y :: 0 <= x < y < |found| ==> found[x].id != found[y].id
    {
      if Dangles(entry, rows, refs[n].1) {
        assert forall f :: f in found ==> f.id != refs[n].0;
        found := found + [Found(refs[n].0, refs[n].1.typeCode, refs[n].1.ownerId)];
      }
    }
  }

  /** `f` is reported for `ref` by the first `n` entries of the registry. */
  predicate ReportedBy(registry: seq<(string, EntityType)>, n: nat, rows: set<Row>, ref: (int, Reference), f: Found)
    requires n <= |registry|
  {
    exists k :: 0 <= k < n && !registry[k].1.deleted && IsDangling(f, ref, registry[k], rows)
  }

  /**
   * `find_orphan_field_values` and `find_orphan_entity_aliases`: one query per live registry row, in
   * any registry order. It reports each live reference of a live registered type whose owner row is
   * missing exactly once, and nothing else; it fails if a live registry row names an unknown table.
   */
  method FindOrphans(registry: seq<(string, EntityType)>, tables: set<string>, rows: set<Row>,
                     refs: seq<(int, Reference)>)
    returns (sweep: Sweep)
    requires DistinctCodes(registry) && DistinctIds(refs)
    ensures sweep.UnknownTable? <==>
              exists k :: 0 <= k < |registry| && !registry[k].1.deleted && registry[k].1.table !in tables
    ensures sweep.UnknownTable? ==>
      exists k :: 0 <= k < |registry| && !registry[k].1.deleted && registry[k].1.table !in tables
                  && registry[k].0 == sweep.code
    ensures sweep.Rows? ==>
      && (forall f :: f in sweep.found <==>
            exists i :: 0 <= i < |refs| && ReportedBy(registry, |registry|, rows, refs[i], f))
      && (forall x, y :: 0 <= x < y < |sweep.found| ==> sweep.found[x].id != sweep.found[y].id)
  {
    var found: seq<Found> := [];
    for n := 0 to |registry|
      invariant forall k :: 0 <= k < n && !registry[k].1.deleted ==> registry[k].1.table in tables
      invariant forall f :: f in found <==> exists i :: 0 <= i < |refs| && ReportedBy(registry, n, rows, refs[i], f)
      invariant forall x, y :: 0 <= x < y < |found| ==> found[x].id != found[y].id
    {
      var entry := registry[n];
      ReportedNext(registry, rows, n);
      if !entry.1.deleted {
        if entry.1.table !in tables {
          return UnknownTable(entry.0);
        }
        var more := DanglingOf(entry, rows, refs);
        FreshCodeFreshIds(registry, rows, refs, n, found, more);
        found := found + more;
      }
    }
    return Rows(found);
  }

  lemma ReportedNext(registry: seq<(string, EntityType)>, rows: set<Row>, n: nat)
    requires n < |registry|
    ensures forall ref, f :: ReportedBy(registry, n + 1, rows, ref, f) <==>
              || ReportedBy(registry, n, rows, ref, f)
              || (!registry[n].1.deleted && IsDangling(f, ref, registry[n], rows))
  {
  }

  /** Codes are unique, so no reference is reported under two registry rows. */
  lemma FreshCodeFreshIds(registry: seq<(string, EntityType)>, rows: set<Row>, refs: seq<(int, Reference)>, n: nat,
                          found: seq<Found>, more: seq<Found>)
    requires n < |registry| && DistinctCodes(registry) && DistinctIds(refs)
    requires forall f :: f in found ==> exists i :: 0 <= i < |refs| && ReportedBy(registry, n, rows, refs[i], f)
    requires forall f :: f in more ==> exists i :: 0 <= i < |refs| && IsDangling(f, refs[i], registry[n], rows)
    ensures forall f, g :: f in found && g in more ==> f.id != g.id
  {
    forall f, g | f in found && g in more
      ensures f.id != g.id
    {
      var i :| 0 <= i < |refs| && ReportedBy(registry, n, rows, refs[i], f);
      var j :| 0 <= j < |refs| && IsDangling(g, refs[j], registry[n], rows);
      var k :| 0 <= k < n && IsDangling(f, refs[i], registry[k], rows);
      assert registry[k].0 != registry[n].0;
      assert i != j;
    }
  }

  /** What the sweep reports is what the registry calls an orphan, whatever order its rows come in. */
  lemma ReportedIffOrphan(registry: seq<(string, EntityType)>, types: Types, rows: set<Row>, ref: (int, Reference),
                          f: Found)
    requires DistinctCodes(registry)
    requires forall k :: 0 <= k < |registry| ==> registry[k].0 in types && types[registry[k].0] == registry[k].1
    requires forall c :: c in types ==> exists k :: 0 <= k < |registry| && registry[k].0 == c
    ensures ReportedBy(registry, |registry|, rows, ref, f)
       <==> Orphan(types, rows, ref.1) && f == Found(ref.0, ref.1.typeCode, ref.1.ownerId)
  {
    if Orphan(types, rows, ref.1) && f == Found(ref.0, ref.1.typeCode, ref.1.ownerId) {
      var k :| 0 <= k < |registry| && registry[k].0 == ref.1.typeCode;
      assert IsDangling(f, ref, registry[k], rows);
    }
  }
}
