/** The relational repository as the application uses it: the document contract
  * on typed tables, and the migration that runs on every start. */
module Repository {
  import opened Wrappers
  import opened Keys
  import opened Relational
  import opened Migration
  import opened MigrationPass

  class RelationalRepository {
    const schema: Schema
    var tables: Tables
    var docs: map<(string, string), Doc>

    ghost predicate Valid()
      reads this
    {
      WellFormed(schema) && Integrity(schema, tables)
    }

    function Now(): State
      reads this
    {
      State(tables, docs)
    }

    constructor (schema: Schema, docs: map<(string, string), Doc>)
      requires WellFormed(schema)
      ensures Valid() && this.schema == schema && this.docs == docs
      ensures forall c :: c in schema ==> tables[c] == map[]
    {
      this.schema := schema;
      this.tables := map c | c in schema :: map[];
      this.docs := docs;
    }

    method Put(c: string, key: string, doc: Doc) returns (reply: Reply)
      requires Valid()
      modifies this
      ensures Valid()
      ensures (Now(), reply) == PutEffect(schema, old(Now()), c, key, doc)
    {
      if c !in schema {
        docs := docs[(c, key) := doc];
        return Done;
      }
      var parts := ParseKey(key, schema[c].keys);
      if parts.None? {
        return BadKey;
      }
      var written := Upsert(schema, tables, c, parts.value, doc);
      if written.None? {
        return IntegrityError;
      }
      UpsertKeepsIntegrity(schema, tables, c, parts.value, doc);
      tables := written.value;
      reply := Done;
    }

    method Get(c: string, key: string) returns (doc: Option<Doc>)
      requires Valid()
      ensures doc == GetAnswer(schema, Now(), c, key)
    {
      if c !in schema {
        return if (c, key) in docs then Some(docs[(c, key)]) else None;
      }
      var parts := ParseKey(key, schema[c].keys);
      if parts.None? || parts.value !in tables[c] || tables[c][parts.value] == map[] {
        return None;
      }
      doc := Some(tables[c][parts.value]);
    }

    method Delete(c: string, key: string) returns (reply: Reply)
      requires Valid()
      modifies this
      ensures Valid()
      ensures (Now(), reply) == DeleteEffect(schema, old(Now()), c, key)
    {
      if c !in schema {
        docs := docs - {(c, key)};
        return Done;
      }
      var parts := ParseKey(key, schema[c].keys);
      if parts.None? || parts.value !in tables[c] {
        return Done;
      }
      if Referenced(schema, tables, c, parts.value) {
        return IntegrityError;
      }
      DeleteKeepsIntegrity(schema, tables, c, parts.value);
      tables := WithoutRow(tables, c, parts.value);
      reply := Done;
    }

    method Query(c: string, filter: map<string, Value>) returns (out: seq<Doc>)
      requires Valid()
      ensures c in schema ==> forall doc :: multiset(out)[doc] == Count(tables[c], filter, doc)
      ensures c !in schema ==> forall doc :: multiset(out)[doc] == Count(Untyped(docs, c), filter, doc)
    {
      if c in schema {
        out := Select(tables[c], filter);
      } else {
        out := Select(Untyped(docs, c), filter);
      }
    }

    /** One legacy row: parsed, then inserted unless its key is taken or the
      * database refuses it. Counts the rows the database did not refuse. */
    method MigrateRow(c: string, k: string) returns (count: nat)
      requires c in schema && (c, k) in docs && Integrity(schema, tables)
      modifies this`tables
      ensures tables == RowAfter(schema, docs, old(tables), c, k)
      ensures Integrity(schema, tables) && RowStep(schema, docs, old(tables), tables, c, k)
      ensures count == if IsThere(schema, docs, tables, (c, k)) then 1 else 0
    {
      RowIsAStep(schema, docs, tables, c, k);
      var parts := ParseKey(k, schema[c].keys);
      if parts.None? {
        return 0;
      }
      var filled := Backfill(schema, tables, c, parts.value, docs[(c, k)]);
      if filled.None? {
        return 0;
      }
      tables := filled.value;
      count := 1;
    }

    // All legacy rows of one collection, in some order.
    method MigrateCollection(c: string) returns (count: nat, ghost ks: seq<string>)
      requires c in schema && Integrity(schema, tables)
      modifies this`tables
      ensures Integrity(schema, tables) && Turns(schema, docs, old(tables), tables, c, ks, {}, count)
    {
      var rest := LegacyKeys(docs, c);
      count, ks := 0, [];
      assert Elems(ks) == {};
      while rest != {}
        invariant Integrity(schema, tables) && Turns(schema, docs, old(tables), tables, c, ks, rest, count)
      {
        var k :| k in rest;
        OneMoreTurn(schema, docs, old(tables), tables, c, ks, rest, count, k);
        var n := MigrateRow(c, k);
        count := count + n;
        rest, ks := rest - {k}, ks + [k];
      }
    }

    /** One pass over all legacy rows, parents before children. Integrity holds
      * after every row; on a schema without reference cycles the pass reaches the
      * least fixpoint. Returns how many legacy rows were there when their turn was over. */
    method MigrateFromDocs() returns (migrated: nat, ghost counted: set<(string, string)>)
      requires Valid()
      modifies this`tables
      ensures Valid() && OnlyAdds(schema, docs, old(tables), tables)
      ensures Acyclic(schema) ==> Migrated(schema, docs, old(tables), tables)
      ensures migrated == |counted|
      ensures Counted(schema, docs, old(tables), tables, TypedRows(schema, docs), counted)
    {
      var order := PassOrder(schema);
      migrated, counted := 0, {};
      PassStarts(schema, docs, tables, order);
      for i := 0 to |order|
        invariant Passed(schema, docs, old(tables), tables, order, i, counted, migrated)
      {
        assert Placed(schema, order, i);
        ghost var t := tables;
        var count; ghost var ks;
        count, ks := MigrateCollection(order[i]);
        counted := PassGoesOn(schema, docs, old(tables), t, order, i, tables, ks, count, counted, migrated);
        migrated := migrated + count;
      }
      PassEnds(schema, docs, old(tables), tables, order, counted, migrated);
    }
  }
}
