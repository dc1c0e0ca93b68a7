/** The migration of legacy documents into the typed tables: the order of the
  * collections, and the single pass in that order. Within a collection, and
  * within a layer of the order, rows and collections may come in any sequence. */
module Migration {
  import opened Wrappers
  import opened Keys
  import opened Relational
  import opened Sequences

  // ---- The order of the collections ----

  // The collections that live in a table.
  function InTable(schema: Schema, table: string): set<string> {
    set d | d in schema && schema[d].table == table
  }

  predicate PointsAt(schema: Schema, fks: map<string, Reference>, d: string)
    requires d in schema
  {
    exists column :: column in fks && fks[column].table == schema[d].table
  }

  // The collections these references point into.
  function Through(schema: Schema, fks: map<string, Reference>): set<string> {
    set d | d in schema && PointsAt(schema, fks, d)
  }

  function Targets(schema: Schema, c: string): set<string>
    requires c in schema
  {
    Through(schema, schema[c].fks)
  }

  function Elems(order: seq<string>): (r: set<string>)
    ensures forall c :: c in r <==> c in order
  {
    set c | c in order
  }

  // The collections can be ranked so that references only lead downwards.
  ghost predicate Acyclic(schema: Schema) {
    exists rank: string -> nat :: Ranked(schema, rank)
  }

  ghost predicate Ranked(schema: Schema, rank: string -> nat) {
    forall c, d :: c in schema && d in Targets(schema, c) ==> rank(d) < rank(c)
  }

  // Every collection at a position refers only to collections at earlier positions.
  ghost predicate ParentsFirst(schema: Schema, order: seq<string>) {
    forall i :: 0 <= i < |order| && order[i] in schema ==> Targets(schema, order[i]) <= Elems(order[..i])
  }

  function IndexIn(order: seq<string>, c: string): nat {
    if order == [] || order[0] == c then 0 else 1 + IndexIn(order[1..], c)
  }

  lemma {:induction false} IndexOfPosition(order: seq<string>, i: nat)
    requires Distinct(order) && i < |order|
    ensures IndexIn(order, order[i]) == i
  {
    if i > 0 {
      IndexOfPosition(order[1..], i - 1);
    }
  }

  lemma ParentsFirstIsAcyclic(schema: Schema, order: seq<string>)
    requires Distinct(order) && Elems(order) == schema.Keys && ParentsFirst(schema, order)
    ensures Acyclic(schema)
  {
    var rank := c => IndexIn(order, c);
    forall c, d | c in schema && d in Targets(schema, c) ensures rank(d) < rank(c) {
      assert c in Elems(order);
      var i :| 0 <= i < |order| && order[i] == c;
      assert d in Elems(order[..i]);
      var j :| 0 <= j < i && order[j] == d;
      IndexOfPosition(order, i);
      IndexOfPosition(order, j);
    }
    assert Ranked(schema, rank);
  }

  lemma {:induction false} LowestRank(cs: set<string>, rank: string -> nat) returns (c: string)
    requires cs != {}
    ensures c in cs && forall d :: d in cs ==> rank(c) <= rank(d)
  {
    c :| c in cs;
    if cs != {c} {
      var d := LowestRank(cs - {c}, rank);
      if rank(d) < rank(c) {
        c := d;
      }
    }
  }

  method TargetsOf(schema: Schema, c: string) returns (targets: set<string>)
    requires c in schema
    ensures targets == Targets(schema, c)
  {
    targets := {};
    var fks := schema[c].fks;
    var rest := fks.Keys;
    ghost var seen: map<string, Reference> := map[];
    while rest != {}
      invariant rest <= fks.Keys && seen == map column | column in fks && column !in rest :: fks[column]
      invariant targets == Through(schema, seen)
    {
      var column :| column in rest;
      rest := rest - {column};
      ghost var before := seen;
      seen := seen[column := fks[column]];
      targets := targets + InTable(schema, fks[column].table);
      forall d | d in schema
        ensures PointsAt(schema, seen, d) <==> PointsAt(schema, before, d) || d in InTable(schema, fks[column].table)
      {
        if PointsAt(schema, before, d) {
          var x :| x in before && before[x].table == schema[d].table;
          assert x in seen && seen[x] == before[x];
        }
        if d in InTable(schema, fks[column].table) {
          assert column in seen && seen[column].table == schema[d].table;
        }
      }
    }
    assert seen == fks;
  }

  method ComputeTargets(schema: Schema) returns (targets: map<string, set<string>>)
    ensures targets == map c | c in schema :: Targets(schema, c)
  {
    targets := map[];
    var rest := schema.Keys;
    while rest != {}
      invariant rest <= schema.Keys
      invariant targets == map c | c in schema && c !in rest :: Targets(schema, c)
    {
      var c :| c in rest;
      rest := rest - {c};
      var found := TargetsOf(schema, c);
      targets := targets[c := found];
    }
  }

  // Some enumeration of a set (the source sorts by name; nothing depends on it).
  method Enumerate(cs: set<string>) returns (order: seq<string>)
    ensures Distinct(order) && Elems(order) == cs
  {
    order := [];
    var rest := cs;
    while rest != {}
      invariant rest <= cs && Distinct(order) && Elems(order) == cs - rest
    {
      var c :| c in rest;
      rest := rest - {c};
      assert c !in Elems(order);
      LayerKeepsDistinct(order, [c]);
      order := order + [c];
    }
  }

  lemma LayerKeepsDistinct(placed: seq<string>, layer: seq<string>)
    requires Distinct(placed) && Distinct(layer) && Elems(placed) !! Elems(layer)
    ensures Distinct(placed + layer)
    ensures Elems(placed + layer) == Elems(placed) + Elems(layer)
  {
    forall i, j | 0 <= i < j < |placed + layer| ensures (placed + layer)[i] != (placed + layer)[j] {
      if j < |placed| {
        assert placed[i] != placed[j];
      } else if i < |placed| {
        assert placed[i] in Elems(placed) && layer[j - |placed|] in Elems(layer);
      }
    }
  }

  lemma LayerKeepsParentsFirst(schema: Schema, placed: seq<string>, layer: seq<string>)
    requires ParentsFirst(schema, placed)
    requires forall c :: c in layer && c in schema ==> Targets(schema, c) <= Elems(placed)
    ensures ParentsFirst(schema, placed + layer)
  {
    var order := placed + layer;
    forall i | 0 <= i < |order| && order[i] in schema
      ensures Targets(schema, order[i]) <= Elems(order[..i])
    {
      if i < |placed| {
        assert order[..i] == placed[..i];
      } else {
        assert order[i] == layer[i - |placed|];
        assert order[..i] == placed + layer[..i - |placed|];
      }
    }
  }

  // In an acyclic schema some remaining collection refers to no remaining one.
  lemma SomethingIsReady(schema: Schema, remaining: set<string>) returns (c: string)
    requires Acyclic(schema) && remaining != {} && remaining <= schema.Keys
    ensures c in remaining && Targets(schema, c) * remaining == {}
  {
    var rank: string -> nat :| Ranked(schema, rank);
    c := LowestRank(remaining, rank);
  }

  // Nothing in the layer refers to what remains, so all it refers to has been placed.
  lemma ReadyIsSettled(schema: Schema, remaining: set<string>, order: seq<string>, layer: seq<string>)
    requires Elems(order) == schema.Keys - remaining
    requires forall c :: c in Elems(layer) ==>
      c in schema && Targets(schema, c) <= schema.Keys && Targets(schema, c) * remaining == {}
    ensures forall c :: c in layer ==> c in schema && Targets(schema, c) <= Elems(order)
  {
    forall c | c in layer ensures c in schema && Targets(schema, c) <= Elems(order) {
      assert c in Elems(layer);
      forall d | d in Targets(schema, c) ensures d !in remaining {
        assert d !in Targets(schema, c) * remaining;
      }
    }
  }

  // What the loop over layers keeps: placed are all but the remaining ones, parents first.
  ghost predicate Placing(schema: Schema, remaining: set<string>, order: seq<string>) {
    remaining <= schema.Keys && Distinct(order) && Elems(order) == schema.Keys - remaining
    && (Acyclic(schema) ==> ParentsFirst(schema, order))
  }

  // The collections that refer to nothing that remains.
  function Free(targets: map<string, set<string>>, remaining: set<string>): (free: set<string>)
    requires remaining <= targets.Keys
    ensures free <= remaining && forall c :: c in remaining ==> (c in free <==> targets[c] * remaining == {})
  {
    set c | c in remaining && targets[c] * remaining == {}
  }

  lemma SomethingIsFree(schema: Schema, targets: map<string, set<string>>, remaining: set<string>)
    requires targets == (map c | c in schema :: Targets(schema, c)) && remaining <= schema.Keys && remaining != {}
    requires Acyclic(schema)
    ensures Free(targets, remaining) != {}
  {
    var c := SomethingIsReady(schema, remaining);
    assert c in Free(targets, remaining);
  }

  lemma PlaceLayer(schema: Schema, remaining: set<string>, order: seq<string>, ready: set<string>, layer: seq<string>)
    requires Placing(schema, remaining, order) && ready <= remaining && Distinct(layer) && Elems(layer) == ready
    requires Acyclic(schema) ==> forall c :: c in ready ==> Targets(schema, c) * remaining == {}
    ensures Placing(schema, remaining - ready, order + layer)
  {
    if Acyclic(schema) {
      ReadyIsSettled(schema, remaining, order, layer);
      LayerKeepsParentsFirst(schema, order, layer);
    }
    LayerKeepsDistinct(order, layer);
  }

  /** Every collection once; parents before children exactly when the references
    * have no cycle (otherwise the guard lets the remaining ones through). */
  method MigrationOrder(schema: Schema) returns (order: seq<string>)
    ensures Distinct(order) && Elems(order) == schema.Keys
    ensures ParentsFirst(schema, order) <==> Acyclic(schema)
  {
    var targets := ComputeTargets(schema);
    order := [];
    var remaining := schema.Keys;
    while remaining != {}
      invariant Placing(schema, remaining, order)
    {
      var ready := Free(targets, remaining);
      if Acyclic(schema) {
        SomethingIsFree(schema, targets, remaining);
      }
      if ready == {} {
        ready := remaining;
      }
      var layer := Enumerate(ready);
      PlaceLayer(schema, remaining, order, ready, layer);
      order := order + layer;
      remaining := remaining - ready;
    }
    if ParentsFirst(schema, order) {
      ParentsFirstIsAcyclic(schema, order);
    }
  }

  // ---- One pass ----

  // The legacy document has a typed table, a key that parses and values for its key columns.
  predicate Candidate(schema: Schema, docs: map<(string, string), Doc>, c: string, k: string) {
    c in schema && (c, k) in docs && ParseKey(k, schema[c].keys).Some? && KeyGiven(schema[c], docs[(c, k)])
  }

  // The typed key a candidate goes to.
  function TypedKey(schema: Schema, docs: map<(string, string), Doc>, c: string, k: string): seq<string>
    requires Candidate(schema, docs, c, k)
  {
    StoredKey(schema[c], ParseKey(k, schema[c].keys).value, docs[(c, k)])
  }

  // Keys per collection: which rows exist, whatever they hold.
  type KeySets = map<string, set<seq<string>>>

  function KeysOf(tables: Tables): KeySets {
    map c | c in tables :: tables[c].Keys
  }

  predicate PresentIn(schema: Schema, keys: KeySets, ref: Reference, v: string) {
    exists c :: c in keys && PointsTo(schema, ref, c) && [v] in keys[c]
  }

  // Every reference of the document names an existing row.
  predicate Satisfied(schema: Schema, keys: KeySets, spec: Spec, doc: Doc) {
    forall column :: column in spec.fks && RefValue(doc, column).Some? ==>
      PresentIn(schema, keys, spec.fks[column], RefValue(doc, column).value)
  }

  /** Nothing is left to migrate: every candidate whose references are satisfied
    * has a row. */
  ghost predicate Closed(schema: Schema, docs: map<(string, string), Doc>, keys: KeySets) {
    keys.Keys == schema.Keys
    && forall c, k :: Candidate(schema, docs, c, k) && Satisfied(schema, keys, schema[c], docs[(c, k)]) ==>
         TypedKey(schema, docs, c, k) in keys[c]
  }

  ghost predicate Within(a: KeySets, b: KeySets) {
    forall c :: c in a ==> c in b && a[c] <= b[c]
  }

  // Existing rows win, and every new row holds a legacy document under its own key.
  ghost predicate OnlyAdds(schema: Schema, docs: map<(string, string), Doc>, before: Tables, after: Tables) {
    before.Keys == after.Keys == schema.Keys
    && (forall c, key :: c in before && key in before[c] ==> key in after[c] && after[c][key] == before[c][key])
    && (forall c, key :: c in after && key in after[c] && key !in before[c] ==>
          exists k :: Candidate(schema, docs, c, k) && TypedKey(schema, docs, c, k) == key
            && after[c][key] == docs[(c, k)])
  }

  // No more rows than in any closed set of rows that holds the old ones.
  ghost predicate Least(schema: Schema, docs: map<(string, string), Doc>, before: Tables, after: Tables) {
    forall keys: KeySets :: Closed(schema, docs, keys) && Within(KeysOf(before), keys) ==> Within(KeysOf(after), keys)
  }

  /** What one pass must achieve: the least fixpoint of migrating, built without
    * ever breaking a reference and without touching an existing row. */
  ghost predicate Migrated(schema: Schema, docs: map<(string, string), Doc>, before: Tables, after: Tables) {
    Integrity(schema, after) && OnlyAdds(schema, docs, before, after) && Least(schema, docs, before, after)
    && Closed(schema, docs, KeysOf(after))
  }

  lemma SatisfiedIsRefsHold(schema: Schema, tables: Tables, spec: Spec, doc: Doc)
    ensures Satisfied(schema, KeysOf(tables), spec, doc) <==> RefsHold(schema, tables, spec, doc)
  {
    forall column | column in spec.fks && RefValue(doc, column).Some?
      ensures PresentIn(schema, KeysOf(tables), spec.fks[column], RefValue(doc, column).value)
         <==> Present(schema, tables, spec.fks[column], RefValue(doc, column).value)
    {
      var v := RefValue(doc, column).value;
      if Present(schema, tables, spec.fks[column], v) {
        var c :| c in tables && PointsTo(schema, spec.fks[column], c) && [v] in tables[c];
        assert c in KeysOf(tables) && [v] in KeysOf(tables)[c];
      }
    }
  }

  // ---- Why one pass in this order is enough ----

  lemma SatisfiedDependsOnTargets(schema: Schema, a: KeySets, b: KeySets, c: string, doc: Doc)
    requires c in schema && a.Keys == b.Keys == schema.Keys
    requires forall d :: d in Targets(schema, c) ==> a[d] <= b[d]
    requires Satisfied(schema, a, schema[c], doc)
    ensures Satisfied(schema, b, schema[c], doc)
  {
    var fks := schema[c].fks;
    forall column | column in fks && RefValue(doc, column).Some?
      ensures PresentIn(schema, b, fks[column], RefValue(doc, column).value)
    {
      var v := RefValue(doc, column).value;
      assert PresentIn(schema, a, fks[column], v);
      var d :| d in a && PointsTo(schema, fks[column], d) && [v] in a[d];
      assert PointsAt(schema, fks, d) && d in Targets(schema, c);
    }
  }

  lemma RankFalls(schema: Schema, rank: string -> nat, c: string, d: string)
    requires Ranked(schema, rank) && c in schema
    ensures d in Targets(schema, c) ==> rank(d) < rank(c)
  {
  }

  lemma NoSelfReference(schema: Schema, c: string)
    requires Acyclic(schema) && c in schema
    ensures c !in Targets(schema, c)
  {
    var rank: string -> nat :| Ranked(schema, rank);
    RankFalls(schema, rank, c, c);
  }

  // A row inserted for a satisfied candidate stays within every closed set of rows.
  lemma RowKeepsLeast(
    schema: Schema, docs: map<(string, string), Doc>, before: Tables, t: Tables, after: Tables, c: string,
    k: string)
    requires Acyclic(schema) && c in schema && before.Keys == t.Keys == after.Keys == schema.Keys
    requires Least(schema, docs, before, t)
    requires forall d :: d in t && d != c ==> after[d] == t[d]
    requires after[c].Keys <= t[c].Keys
      + (if Candidate(schema, docs, c, k) && Satisfied(schema, KeysOf(after), schema[c], docs[(c, k)])
                                           then {TypedKey(schema, docs, c, k)} else {})
    ensures Least(schema, docs, before, after)
  {
    NoSelfReference(schema, c);
    forall keys: KeySets | Closed(schema, docs, keys) && Within(KeysOf(before), keys)
      ensures Within(KeysOf(after), keys)
    {
      assert Within(KeysOf(t), keys);
      forall d | d in after ensures d in keys && after[d].Keys <= keys[d] {
        assert d in KeysOf(t) && KeysOf(t)[d] <= keys[d];
        if d == c && Candidate(schema, docs, c, k) && Satisfied(schema, KeysOf(after), schema[c], docs[(c, k)]) {
          SatisfiedDependsOnTargets(schema, KeysOf(after), keys, c, docs[(c, k)]);
        }
      }
    }
  }

  // The candidates among these keys whose references are satisfied have their rows.
  ghost predicate DoneWith(schema: Schema, docs: map<(string, string), Doc>, tables: Tables, c: string, ks: set<string>)
    requires c in schema && c in tables
  {
    forall k :: k in ks && Candidate(schema, docs, c, k) && Satisfied(schema, KeysOf(tables), schema[c], docs[(c, k)])
      ==> TypedKey(schema, docs, c, k) in tables[c]
  }

  // What the rows migrated so far in collection c leave: they started from tables `start`.
  ghost predicate Progress(
    schema: Schema, docs: map<(string, string), Doc>, before: Tables, start: Tables, tables: Tables, c: string,
    ks: set<string>)
    requires c in schema
  {
    OnlyAdds(schema, docs, before, tables) && OnlyAdds(schema, docs, start, tables)
    && (forall d :: d in tables && d != c ==> tables[d] == start[d])
    && (Acyclic(schema) ==> Least(schema, docs, before, tables) && DoneWith(schema, docs, tables, c, ks))
  }

  // What migrating one row of collection c does to the tables.
  ghost predicate RowStep(
    schema: Schema, docs: map<(string, string), Doc>, t: Tables, after: Tables, c: string, k: string)
    requires c in schema
  {
    OnlyAdds(schema, docs, t, after)
    && (forall d :: d in after && d != c ==> after[d] == t[d])
    && after[c].Keys <= t[c].Keys
       + (if Candidate(schema, docs, c, k) && Satisfied(schema, KeysOf(after), schema[c], docs[(c, k)])
                                     then {TypedKey(schema, docs, c, k)} else {})
    && (Candidate(schema, docs, c, k) && Satisfied(schema, KeysOf(t), schema[c], docs[(c, k)]) ==>
          TypedKey(schema, docs, c, k) in after[c])
  }

  // A row that does not parse, or that the database refuses, changes nothing.
  lemma RefusedRow(schema: Schema, docs: map<(string, string), Doc>, t: Tables, c: string, k: string)
    requires t.Keys == schema.Keys && c in schema && (c, k) in docs
    requires var parts := ParseKey(k, schema[c].keys);
      parts.None? || Backfill(schema, t, c, parts.value, docs[(c, k)]).None?
    ensures RowStep(schema, docs, t, t, c, k)
    ensures !(Candidate(schema, docs, c, k) && TypedKey(schema, docs, c, k) in t[c])
  {
    var doc := docs[(c, k)];
    SatisfiedIsRefsHold(schema, t, schema[c], doc);
    if Candidate(schema, docs, c, k) && RefsHold(schema, t, schema[c], doc) {
      RefsStay(schema, t, WithRow(t, c, TypedKey(schema, docs, c, k), doc), schema[c], doc);
    }
  }

  // A row that is inserted, or whose key is taken.
  lemma FilledRow(schema: Schema, docs: map<(string, string), Doc>, t: Tables, after: Tables, c: string, k: string)
    requires Integrity(schema, t) && c in schema && (c, k) in docs && ParseKey(k, schema[c].keys).Some?
    requires Backfill(schema, t, c, ParseKey(k, schema[c].keys).value, docs[(c, k)]) == Some(after)
    ensures Integrity(schema, after) && RowStep(schema, docs, t, after, c, k)
    ensures Candidate(schema, docs, c, k) && TypedKey(schema, docs, c, k) in after[c]
  {
    var parts, doc := ParseKey(k, schema[c].keys).value, docs[(c, k)];
    if TypedKey(schema, docs, c, k) !in t[c] {
      UpsertKeepsIntegrity(schema, t, c, parts, doc);
      InsertedRow(schema, docs, t, c, k);
    }
  }

  lemma InsertedRow(schema: Schema, docs: map<(string, string), Doc>, t: Tables, c: string, k: string)
    requires t.Keys == schema.Keys && Candidate(schema, docs, c, k) && TypedKey(schema, docs, c, k) !in t[c]
    requires RefsHold(schema, WithRow(t, c, TypedKey(schema, docs, c, k), docs[(c, k)]), schema[c], docs[(c, k)])
    ensures RowStep(schema, docs, t, WithRow(t, c, TypedKey(schema, docs, c, k), docs[(c, k)]), c, k)
  {
    SatisfiedIsRefsHold(schema, WithRow(t, c, TypedKey(schema, docs, c, k), docs[(c, k)]), schema[c], docs[(c, k)]);
  }

  lemma RowKeepsDone(
    schema: Schema, docs: map<(string, string), Doc>, t: Tables, after: Tables, c: string, k: string,
    ks: set<string>)
    requires Acyclic(schema) && c in schema && t.Keys == after.Keys == schema.Keys
    requires DoneWith(schema, docs, t, c, ks) && RowStep(schema, docs, t, after, c, k)
    ensures DoneWith(schema, docs, after, c, ks + {k})
  {
    NoSelfReference(schema, c);
    forall x | x in ks + {k} && Candidate(schema, docs, c, x)
      && Satisfied(schema, KeysOf(after), schema[c], docs[(c, x)])
      ensures TypedKey(schema, docs, c, x) in after[c]
    {
      SatisfiedDependsOnTargets(schema, KeysOf(after), KeysOf(t), c, docs[(c, x)]);
      var key := TypedKey(schema, docs, c, x);
      if x in ks {
        assert key in t[c] && key in after[c];
      }
    }
  }

  lemma RowKeepsProgress(
    schema: Schema, docs: map<(string, string), Doc>, before: Tables, start: Tables, t: Tables, after: Tables,
    c: string, k: string, ks: set<string>)
    requires c in schema && Progress(schema, docs, before, start, t, c, ks) && RowStep(schema, docs, t, after, c, k)
    ensures Progress(schema, docs, before, start, after, c, ks + {k})
  {
    OnlyAddsTwice(schema, docs, before, t, after);
    OnlyAddsTwice(schema, docs, start, t, after);
    if Acyclic(schema) {
      RowKeepsLeast(schema, docs, before, t, after, c, k);
      RowKeepsDone(schema, docs, t, after, c, k, ks);
    }
  }

  // ---- Counting ----

  // The legacy row is there under its typed key.
  ghost predicate IsThere(schema: Schema, docs: map<(string, string), Doc>, tables: Tables, ck: (string, string)) {
    Candidate(schema, docs, ck.0, ck.1) && ck.0 in tables && TypedKey(schema, docs, ck.0, ck.1) in tables[ck.0]
  }

  // A key that has come since has its counted legacy row.
  ghost predicate CameFrom(
    schema: Schema, docs: map<(string, string), Doc>, counted: set<(string, string)>, c: string, key: seq<string>) {
    exists k :: (c, k) in counted && Candidate(schema, docs, c, k) && TypedKey(schema, docs, c, k) == key
  }

  ghost predicate AllThere(
    schema: Schema, docs: map<(string, string), Doc>, tables: Tables, counted: set<(string, string)>) {
    forall ck :: ck in counted ==> IsThere(schema, docs, tables, ck)
  }

  ghost predicate OldOnesAmong(
    schema: Schema, docs: map<(string, string), Doc>, before: Tables, turned: set<(string, string)>,
    counted: set<(string, string)>) {
    forall ck :: ck in turned && IsThere(schema, docs, before, ck) ==> ck in counted
  }

  ghost predicate NewOnesCameFrom(
    schema: Schema, docs: map<(string, string), Doc>, before: Tables, tables: Tables,
    counted: set<(string, string)>) {
    forall c, key :: c in before && c in tables && key in tables[c] && key !in before[c] ==>
      CameFrom(schema, docs, counted, c, key)
  }

  /** Which of the legacy rows that had their turn the migration counts: rows that are there,
    * among them all that were there before, and for every new row one that it came from. */
  ghost predicate Counted(
    schema: Schema, docs: map<(string, string), Doc>, before: Tables, tables: Tables, turned: set<(string, string)>,
    counted: set<(string, string)>)
  {
    counted <= turned && AllThere(schema, docs, tables, counted) && OldOnesAmong(schema, docs, before, turned, counted)
    && NewOnesCameFrom(schema, docs, before, tables, counted)
  }

  lemma StaysThere(
    schema: Schema, docs: map<(string, string), Doc>, t: Tables, after: Tables, ck: (string, string))
    requires OnlyAdds(schema, docs, t, after) && IsThere(schema, docs, t, ck)
    ensures IsThere(schema, docs, after, ck)
  {
  }

  lemma StillCameFrom(
    schema: Schema, docs: map<(string, string), Doc>, counted: set<(string, string)>,
    more: set<(string, string)>, c: string, key: seq<string>)
    requires counted <= more && CameFrom(schema, docs, counted, c, key)
    ensures CameFrom(schema, docs, more, c, key)
  {
    var k :| (c, k) in counted && Candidate(schema, docs, c, k) && TypedKey(schema, docs, c, k) == key;
    assert (c, k) in more;
  }

  // A key that a row's turn adds came from that row.
  lemma AddedByItsRow(
    schema: Schema, docs: map<(string, string), Doc>, t: Tables, after: Tables, c: string, k: string, d: string,
    key: seq<string>)
    requires c in schema && RowStep(schema, docs, t, after, c, k) && d in t && d in after
    requires key in after[d] && key !in t[d]
    ensures d == c && IsThere(schema, docs, after, (c, k)) && TypedKey(schema, docs, c, k) == key
  {
  }

  lemma NewRowCameFrom(
    schema: Schema, docs: map<(string, string), Doc>, before: Tables, t: Tables, after: Tables, c: string, k: string,
    counted: set<(string, string)>, more: set<(string, string)>)
    requires c in schema && before.Keys == t.Keys && RowStep(schema, docs, t, after, c, k)
    requires NewOnesCameFrom(schema, docs, before, t, counted) && counted <= more
    requires IsThere(schema, docs, after, (c, k)) ==> (c, k) in more
    ensures NewOnesCameFrom(schema, docs, before, after, more)
  {
    forall d, key | d in before && d in after && key in after[d] && key !in before[d]
      ensures CameFrom(schema, docs, more, d, key)
    {
      if key in t[d] {
        StillCameFrom(schema, docs, counted, more, d, key);
      } else {
        AddedByItsRow(schema, docs, t, after, c, k, d, key);
      }
    }
  }

  lemma StillThere(
    schema: Schema, docs: map<(string, string), Doc>, t: Tables, after: Tables, counted: set<(string, string)>)
    requires OnlyAdds(schema, docs, t, after) && AllThere(schema, docs, t, counted)
    ensures AllThere(schema, docs, after, counted)
  {
    forall ck | ck in counted ensures IsThere(schema, docs, after, ck) {
      StaysThere(schema, docs, t, after, ck);
    }
  }

  lemma OldRowIsAmong(
    schema: Schema, docs: map<(string, string), Doc>, before: Tables, t: Tables, after: Tables,
    turned: set<(string, string)>, counted: set<(string, string)>, more: set<(string, string)>, ck: (string, string))
    requires OnlyAdds(schema, docs, before, t) && OnlyAdds(schema, docs, t, after)
    requires OldOnesAmong(schema, docs, before, turned, counted) && counted <= more
    requires IsThere(schema, docs, after, ck) ==> ck in more
    ensures OldOnesAmong(schema, docs, before, turned + {ck}, more)
  {
    if IsThere(schema, docs, before, ck) {
      StaysThere(schema, docs, before, t, ck);
      StaysThere(schema, docs, t, after, ck);
    }
  }

  lemma RowIsCounted(
    schema: Schema, docs: map<(string, string), Doc>, before: Tables, t: Tables, after: Tables, c: string, k: string,
    turned: set<(string, string)>, counted: set<(string, string)>)
    returns (more: set<(string, string)>)
    requires c in schema && OnlyAdds(schema, docs, before, t) && RowStep(schema, docs, t, after, c, k)
    requires Counted(schema, docs, before, t, turned, counted) && (c, k) !in turned
    ensures Counted(schema, docs, before, after, turned + {(c, k)}, more)
    ensures |more| == |counted| + if IsThere(schema, docs, after, (c, k)) then 1 else 0
  {
    var hit := if IsThere(schema, docs, after, (c, k)) then {(c, k)} else {};
    more := counted + hit;
    assert |more| == |counted| + |hit| by { assert counted !! hit; }
    StillThere(schema, docs, t, after, counted);
    OldRowIsAmong(schema, docs, before, t, after, turned, counted, more, (c, k));
    NewRowCameFrom(schema, docs, before, t, after, c, k, counted, more);
  }

  // No two legacy rows go to one typed key.
  ghost predicate OwnKeys(schema: Schema, docs: map<(string, string), Doc>) {
    forall c, j, k :: Candidate(schema, docs, c, j) && Candidate(schema, docs, c, k) && j != k ==>
      TypedKey(schema, docs, c, j) != TypedKey(schema, docs, c, k)
  }

  // The legacy rows of typed collections.
  function TypedRows(schema: Schema, docs: map<(string, string), Doc>): set<(string, string)> {
    set ck | ck in docs && ck.0 in schema
  }

  /** So the count is that of the legacy rows that are there afterwards, if no two of them go
    * to one typed key, and whenever the pass had nothing to do. */
  lemma CountedArePresent(
    schema: Schema, docs: map<(string, string), Doc>, before: Tables, after: Tables, counted: set<(string, string)>)
    requires before.Keys == after.Keys == schema.Keys
    requires Counted(schema, docs, before, after, TypedRows(schema, docs), counted)
    ensures OwnKeys(schema, docs) || before == after ==>
      counted == set ck | ck in docs && IsThere(schema, docs, after, ck)
  {
    if OwnKeys(schema, docs) {
      forall ck | IsThere(schema, docs, after, ck) ensures ck in counted {
        var key := TypedKey(schema, docs, ck.0, ck.1);
        if key !in before[ck.0] {
          assert CameFrom(schema, docs, counted, ck.0, key);
          var k :| (ck.0, k) in counted && Candidate(schema, docs, ck.0, k) && TypedKey(schema, docs, ck.0, k) == key;
          assert (ck.0, k) == ck;
        }
      }
    }
  }

  // Every candidate of the collection whose references are satisfied has its row.
  ghost predicate ClosedAt(schema: Schema, docs: map<(string, string), Doc>, tables: Tables, c: string)
    requires c in schema && c in tables
  {
    forall k :: Candidate(schema, docs, c, k) && Satisfied(schema, KeysOf(tables), schema[c], docs[(c, k)]) ==>
      TypedKey(schema, docs, c, k) in tables[c]
  }

  lemma ProgressStarts(schema: Schema, docs: map<(string, string), Doc>, before: Tables, t: Tables, c: string)
    requires c in schema && t.Keys == schema.Keys && OnlyAdds(schema, docs, before, t)
    requires Acyclic(schema) ==> Least(schema, docs, before, t)
    ensures Progress(schema, docs, before, t, t, c, {})
  {
  }

  lemma ProgressEnds(
    schema: Schema, docs: map<(string, string), Doc>, before: Tables, start: Tables, tables: Tables, c: string,
    ks: set<string>)
    requires c in schema && Progress(schema, docs, before, start, tables, c, ks)
    requires forall k :: (c, k) in docs ==> k in ks
    ensures c in tables && OnlyAdds(schema, docs, before, tables)
    ensures forall d :: d in tables && d != c ==> d in start && tables[d] == start[d]
    ensures Acyclic(schema) ==> Least(schema, docs, before, tables) && ClosedAt(schema, docs, tables, c)
  {
  }

  // A finished collection stays finished while later collections fill up.
  lemma ClosedAtStays(schema: Schema, docs: map<(string, string), Doc>, t: Tables, after: Tables, c: string)
    requires c in schema && t.Keys == after.Keys == schema.Keys && ClosedAt(schema, docs, t, c)
    requires t[c].Keys <= after[c].Keys && forall d :: d in Targets(schema, c) ==> after[d] == t[d]
    ensures ClosedAt(schema, docs, after, c)
  {
    forall k | Candidate(schema, docs, c, k) && Satisfied(schema, KeysOf(after), schema[c], docs[(c, k)])
      ensures TypedKey(schema, docs, c, k) in after[c]
    {
      SatisfiedDependsOnTargets(schema, KeysOf(after), KeysOf(t), c, docs[(c, k)]);
    }
  }

  lemma OnlyAddsTwice(schema: Schema, docs: map<(string, string), Doc>, a: Tables, b: Tables, c: Tables)
    requires OnlyAdds(schema, docs, a, b) && OnlyAdds(schema, docs, b, c)
    ensures OnlyAdds(schema, docs, a, c)
  {
    forall d, key | d in c && key in c[d] && key !in a[d]
      ensures exists k ::
        Candidate(schema, docs, d, k) && TypedKey(schema, docs, d, k) == key && c[d][key] == docs[(d, k)]
    {
      if key in b[d] {
        assert c[d][key] == b[d][key];
      }
    }
  }

  /** A second pass changes nothing, and neither does any later one. */
  lemma SecondPassChangesNothing(
    schema: Schema, docs: map<(string, string), Doc>, before: Tables, after: Tables, again: Tables)
    requires Migrated(schema, docs, before, after) && Migrated(schema, docs, after, again)
    ensures again == after
  {
    assert Within(KeysOf(after), KeysOf(after));
    assert Within(KeysOf(again), KeysOf(after));
    forall c | c in again ensures again[c] == after[c] {
      assert c in KeysOf(again) && KeysOf(again)[c] <= KeysOf(after)[c];
    }
  }

  /** Exactly the satisfiable rows are migrated: any two results of a pass hold
    * the same rows, and any closed set of rows holds them all. */
  lemma MigratedRowsAreDetermined(
    schema: Schema, docs: map<(string, string), Doc>, before: Tables, after: Tables, other: Tables)
    requires Migrated(schema, docs, before, after) && Migrated(schema, docs, before, other)
    ensures KeysOf(after) == KeysOf(other)
  {
    assert Within(KeysOf(before), KeysOf(after)) && Within(KeysOf(before), KeysOf(other));
    assert Within(KeysOf(after), KeysOf(other)) && Within(KeysOf(other), KeysOf(after));
    forall c | c in schema ensures KeysOf(after)[c] == KeysOf(other)[c] {
      assert c in KeysOf(after) && c in KeysOf(other);
    }
  }
}
