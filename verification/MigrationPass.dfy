/** One pass of the migration, row by row and collection by collection, and what it counts. */
module MigrationPass {
  import opened Keys
  import opened Relational
  import opened Migration
  import opened Sequences

  function RowAfter(schema: Schema, docs: map<(string, string), Doc>, t: Tables, c: string, k: string): Tables
    requires c in schema && c in t && (c, k) in docs
  {
    match ParseKey(k, schema[c].keys)
    case None => t
    case Some(parts) =>
      match Backfill(schema, t, c, parts, docs[(c, k)])
      case None => t
      case Some(after) => after
  }

  lemma RowIsAStep(schema: Schema, docs: map<(string, string), Doc>, t: Tables, c: string, k: string)
    requires Integrity(schema, t) && c in schema && (c, k) in docs
    ensures var after := RowAfter(schema, docs, t, c, k);
      var parts := ParseKey(k, schema[c].keys);
      Integrity(schema, after) && RowStep(schema, docs, t, after, c, k)
      && (IsThere(schema, docs, after, (c, k))
          <==> parts.Some? && Backfill(schema, t, c, parts.value, docs[(c, k)]).Some?)
  {
    var parts := ParseKey(k, schema[c].keys);
    if parts.None? || Backfill(schema, t, c, parts.value, docs[(c, k)]).None? {
      RefusedRow(schema, docs, t, c, k);
    } else {
      FilledRow(schema, docs, t, RowAfter(schema, docs, t, c, k), c, k);
    }
  }

  ghost predicate AllLegacy(docs: map<(string, string), Doc>, c: string, ks: seq<string>) {
    forall k :: k in ks ==> (c, k) in docs
  }

  // The tables after the turns of these rows.
  ghost function RowsAfter(
    schema: Schema, docs: map<(string, string), Doc>, t: Tables, c: string, ks: seq<string>): (after: Tables)
    requires Integrity(schema, t) && c in schema && AllLegacy(docs, c, ks)
    ensures Integrity(schema, after)
  {
    if ks == [] then t
    else
      var before := RowsAfter(schema, docs, t, c, ks[..|ks| - 1]);
      RowIsAStep(schema, docs, before, c, ks[|ks| - 1]);
      RowAfter(schema, docs, before, c, ks[|ks| - 1])
  }

  // How many of them are there when their turn is over.
  ghost function CountOf(
    schema: Schema, docs: map<(string, string), Doc>, t: Tables, c: string, ks: seq<string>): nat
    requires Integrity(schema, t) && c in schema && AllLegacy(docs, c, ks)
  {
    if ks == [] then 0
    else
      CountOf(schema, docs, t, c, ks[..|ks| - 1])
      + if IsThere(schema, docs, RowsAfter(schema, docs, t, c, ks), (c, ks[|ks| - 1])) then 1 else 0
  }

  // The keys of a collection's legacy rows.
  function LegacyKeys(docs: map<(string, string), Doc>, c: string): (ks: set<string>)
    ensures forall k :: k in ks <==> (c, k) in docs
  {
    Untyped(docs, c).Keys
  }

  // These legacy rows of the collection have had their turns, in this order; the rest have not.
  ghost predicate Turns(
    schema: Schema, docs: map<(string, string), Doc>, t: Tables, after: Tables, c: string, ks: seq<string>,
    rest: set<string>, count: nat)
  {
    Integrity(schema, t) && c in schema && AllLegacy(docs, c, ks) && Distinct(ks)
    && Elems(ks) + rest == LegacyKeys(docs, c) && Elems(ks) !! rest
    && after == RowsAfter(schema, docs, t, c, ks) && count == CountOf(schema, docs, t, c, ks)
  }

  lemma OneMoreKey(
    schema: Schema, docs: map<(string, string), Doc>, t: Tables, c: string, ks: seq<string>, k: string)
    requires Integrity(schema, t) && c in schema && AllLegacy(docs, c, ks) && (c, k) in docs && k !in ks
    ensures AllLegacy(docs, c, ks + [k]) && Elems(ks + [k]) == Elems(ks) + {k}
    ensures Distinct(ks) ==> Distinct(ks + [k])
    ensures RowsAfter(schema, docs, t, c, ks + [k])
         == RowAfter(schema, docs, RowsAfter(schema, docs, t, c, ks), c, k)
    ensures CountOf(schema, docs, t, c, ks + [k])
         == CountOf(schema, docs, t, c, ks)
            + if IsThere(schema, docs, RowsAfter(schema, docs, t, c, ks + [k]), (c, k)) then 1 else 0
  {
    assert (ks + [k])[..|ks + [k]| - 1] == ks;
  }

  lemma OneMoreTurn(
    schema: Schema, docs: map<(string, string), Doc>, t: Tables, u: Tables, c: string, ks: seq<string>,
    rest: set<string>, count: nat, k: string)
    requires Turns(schema, docs, t, u, c, ks, rest, count) && k in rest
    ensures (c, k) in docs && c in u
    ensures var after := RowAfter(schema, docs, u, c, k);
      Turns(schema, docs, t, after, c, ks + [k], rest - {k},
            count + if IsThere(schema, docs, after, (c, k)) then 1 else 0)
  {
    assert k in LegacyKeys(docs, c);
    OneMoreKey(schema, docs, t, c, ks, k);
    assert Elems(ks) + {k} + (rest - {k}) == Elems(ks) + rest;
  }

  ghost function RowsOf(c: string, ks: set<string>): set<(string, string)> {
    set k | k in ks :: (c, k)
  }

  // The legacy rows of these collections.
  ghost function LegacyRows(docs: map<(string, string), Doc>, cs: set<string>): set<(string, string)> {
    set ck | ck in docs && ck.0 in cs
  }

  lemma MoreRows(docs: map<(string, string), Doc>, order: seq<string>, i: nat)
    requires i < |order|
    ensures LegacyRows(docs, Elems(order[..i])) + RowsOf(order[i], LegacyKeys(docs, order[i]))
         == LegacyRows(docs, Elems(order[..i + 1]))
  {
    assert order[..i + 1] == order[..i] + [order[i]];
  }

  // What the pass has achieved and counted when these rows have had their turn.
  ghost predicate Under(
    schema: Schema, docs: map<(string, string), Doc>, before: Tables, tables: Tables, turned: set<(string, string)>,
    counted: set<(string, string)>, n: nat)
  {
    Integrity(schema, tables) && OnlyAdds(schema, docs, before, tables)
    && (Acyclic(schema) ==> Least(schema, docs, before, tables))
    && Counted(schema, docs, before, tables, turned, counted) && n == |counted|
  }

  // These rows of the collection have had their turn as well.
  ghost predicate Turning(
    schema: Schema, docs: map<(string, string), Doc>, before: Tables, start: Tables, tables: Tables, c: string,
    turned: set<(string, string)>, done: set<string>, counted: set<(string, string)>, n: nat)
    requires c in schema
  {
    Integrity(schema, tables) && Progress(schema, docs, before, start, tables, c, done)
    && Counted(schema, docs, before, tables, turned + RowsOf(c, done), counted) && n == |counted|
  }

  lemma TurningStarts(
    schema: Schema, docs: map<(string, string), Doc>, before: Tables, t: Tables, c: string,
    turned: set<(string, string)>, counted: set<(string, string)>, n: nat)
    requires c in schema && Under(schema, docs, before, t, turned, counted, n)
    ensures Turning(schema, docs, before, t, t, c, turned, {}, counted, n)
  {
    ProgressStarts(schema, docs, before, t, c);
    assert turned + RowsOf(c, {}) == turned;
  }

  lemma TurningEnds(
    schema: Schema, docs: map<(string, string), Doc>, before: Tables, start: Tables, tables: Tables, c: string,
    turned: set<(string, string)>, done: set<string>, counted: set<(string, string)>, n: nat)
    requires c in schema && Turning(schema, docs, before, start, tables, c, turned, done, counted, n)
    requires forall k :: (c, k) in docs ==> k in done
    ensures Under(schema, docs, before, tables, turned + RowsOf(c, done), counted, n)
    ensures forall d :: d in tables && d != c ==> d in start && tables[d] == start[d]
    ensures Acyclic(schema) ==> ClosedAt(schema, docs, tables, c)
  {
    ProgressEnds(schema, docs, before, start, tables, c, done);
  }

  lemma OneMoreCounted(
    schema: Schema, docs: map<(string, string), Doc>, before: Tables, start: Tables, t: Tables, after: Tables,
    c: string, k: string, turned: set<(string, string)>, done: set<string>, counted: set<(string, string)>,
    n: nat, count: nat)
    returns (more: set<(string, string)>)
    requires c in schema && Turning(schema, docs, before, start, t, c, turned, done, counted, n)
    requires Integrity(schema, after) && RowStep(schema, docs, t, after, c, k) && (c, k) !in turned && k !in done
    requires count == if IsThere(schema, docs, after, (c, k)) then 1 else 0
    ensures Turning(schema, docs, before, start, after, c, turned, done + {k}, more, n + count)
  {
    var turn := turned + RowsOf(c, done);
    more := RowIsCounted(schema, docs, before, t, after, c, k, turn, counted);
    RowKeepsProgress(schema, docs, before, start, t, after, c, k, done);
    OneMoreRow(c, k, turned, done);
  }

  lemma OneMoreRow(c: string, k: string, turned: set<(string, string)>, done: set<string>)
    ensures turned + RowsOf(c, done) + {(c, k)} == turned + RowsOf(c, done + {k})
    ensures (c, k) in turned + RowsOf(c, done) <==> (c, k) in turned || k in done
  {
  }

  // The pass is through with the first i collections.
  ghost predicate Passed(
    schema: Schema, docs: map<(string, string), Doc>, before: Tables, tables: Tables, order: seq<string>, i: nat,
    counted: set<(string, string)>, n: nat)
  {
    i <= |order| && Under(schema, docs, before, tables, LegacyRows(docs, Elems(order[..i])), counted, n)
    && (Acyclic(schema) ==> AllClosed(schema, docs, tables, Elems(order[..i])))
  }

  ghost predicate AllClosed(schema: Schema, docs: map<(string, string), Doc>, tables: Tables, cs: set<string>) {
    forall c :: c in cs ==> c in schema && c in tables && ClosedAt(schema, docs, tables, c)
  }

  lemma PassStarts(schema: Schema, docs: map<(string, string), Doc>, tables: Tables, order: seq<string>)
    requires Integrity(schema, tables)
    ensures Passed(schema, docs, tables, tables, order, 0, {}, 0)
  {
    assert order[..0] == [];
    assert LegacyRows(docs, Elems(order[..0])) == {};
  }

  // The i-th collection comes once, and on a schema without cycles none before it refers to it.
  ghost predicate Placed(schema: Schema, order: seq<string>, i: nat)
    requires i < |order|
  {
    order[i] in schema && order[i] !in Elems(order[..i])
    && (Acyclic(schema) ==>
          forall c :: c in Elems(order[..i]) && c in schema ==> order[i] !in Targets(schema, c))
  }

  lemma OrderPlaces(schema: Schema, order: seq<string>)
    requires Distinct(order) && Elems(order) == schema.Keys && (Acyclic(schema) ==> ParentsFirst(schema, order))
    ensures forall i: nat :: i < |order| ==> Placed(schema, order, i)
  {
    forall i: nat | i < |order| ensures Placed(schema, order, i) {
      assert order[i] in Elems(order);
      if Acyclic(schema) {
        forall c | c in Elems(order[..i]) && c in schema ensures order[i] !in Targets(schema, c) {
          var j :| 0 <= j < i && order[j] == c;
          assert forall d :: d in Elems(order[..j]) ==> d != order[i];
        }
      }
    }
  }

  // The order of the pass.
  method PassOrder(schema: Schema) returns (order: seq<string>)
    ensures Elems(order) == schema.Keys && forall i: nat :: i < |order| ==> Placed(schema, order, i)
  {
    order := MigrationOrder(schema);
    OrderPlaces(schema, order);
  }

  lemma NotTurnedYet(docs: map<(string, string), Doc>, order: seq<string>, i: nat)
    requires i < |order| && order[i] !in Elems(order[..i])
    ensures forall k :: (order[i], k) !in LegacyRows(docs, Elems(order[..i]))
  {
  }

  // The turns of one collection's rows.
  lemma {:induction false} RowsTakeTurns(
    schema: Schema, docs: map<(string, string), Doc>, before: Tables, t: Tables, c: string, ks: seq<string>,
    turned: set<(string, string)>, counted: set<(string, string)>, n: nat)
    returns (more: set<(string, string)>)
    requires c in schema && Under(schema, docs, before, t, turned, counted, n)
    requires AllLegacy(docs, c, ks) && Distinct(ks) && forall k :: (c, k) !in turned
    ensures var after := RowsAfter(schema, docs, t, c, ks);
      Turning(schema, docs, before, t, after, c, turned, Elems(ks), more, n + CountOf(schema, docs, t, c, ks))
  {
    if ks == [] {
      more := counted;
      TurningStarts(schema, docs, before, t, c, turned, counted, n);
      assert Elems(ks) == {};
    } else {
      var init, k := ks[..|ks| - 1], ks[|ks| - 1];
      assert ks == init + [k] && k !in init;
      more := RowsTakeTurns(schema, docs, before, t, c, init, turned, counted, n);
      OneMoreKey(schema, docs, t, c, init, k);
      var u, after := RowsAfter(schema, docs, t, c, init), RowsAfter(schema, docs, t, c, ks);
      RowIsAStep(schema, docs, u, c, k);
      var hit := if IsThere(schema, docs, after, (c, k)) then 1 else 0;
      more := OneMoreCounted(
        schema, docs, before, t, u, after, c, k, turned, Elems(init), more, n + CountOf(schema, docs, t, c, init), hit);
    }
  }

  lemma PassGoesOn(
    schema: Schema, docs: map<(string, string), Doc>, before: Tables, t: Tables, order: seq<string>, i: nat,
    after: Tables, ks: seq<string>, count: nat, counted: set<(string, string)>, n: nat)
    returns (more: set<(string, string)>)
    requires i < |order| && Placed(schema, order, i)
    requires Passed(schema, docs, before, t, order, i, counted, n)
    requires Turns(schema, docs, t, after, order[i], ks, {}, count)
    ensures Passed(schema, docs, before, after, order, i + 1, more, n + count)
  {
    var c, turned := order[i], LegacyRows(docs, Elems(order[..i]));
    assert Elems(ks) + {} == Elems(ks);
    NotTurnedYet(docs, order, i);
    more := RowsTakeTurns(schema, docs, before, t, c, ks, turned, counted, n);
    TurningEnds(schema, docs, before, t, after, c, turned, Elems(ks), more, n + count);
    MoreRows(docs, order, i);
    if Acyclic(schema) {
      CollectionIsClosed(schema, docs, order, i, t, after);
    }
  }

  lemma CollectionIsClosed(
    schema: Schema, docs: map<(string, string), Doc>, order: seq<string>, i: nat, t: Tables, after: Tables)
    requires i < |order| && Placed(schema, order, i) && Acyclic(schema)
    requires t.Keys == after.Keys == schema.Keys && AllClosed(schema, docs, t, Elems(order[..i]))
    requires forall d :: d in t && d != order[i] ==> after[d] == t[d]
    requires ClosedAt(schema, docs, after, order[i])
    ensures AllClosed(schema, docs, after, Elems(order[..i + 1]))
  {
    forall c | c in Elems(order[..i + 1]) ensures c in schema && c in after && ClosedAt(schema, docs, after, c) {
      if c != order[i] {
        assert c in Elems(order[..i]);
        ClosedAtStays(schema, docs, t, after, c);
      }
    }
  }

  lemma PassEnds(
    schema: Schema, docs: map<(string, string), Doc>, before: Tables, tables: Tables, order: seq<string>,
    counted: set<(string, string)>, n: nat)
    requires Elems(order) == schema.Keys && Passed(schema, docs, before, tables, order, |order|, counted, n)
    ensures OnlyAdds(schema, docs, before, tables)
    ensures Acyclic(schema) ==> Migrated(schema, docs, before, tables)
    ensures n == |counted| && Counted(schema, docs, before, tables, TypedRows(schema, docs), counted)
  {
    assert order[..|order|] == order;
    assert LegacyRows(docs, Elems(order)) == TypedRows(schema, docs);
  }
}
