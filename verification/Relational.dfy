/** The relational repository: one table per collection of the schema, typed keys
  * and foreign keys checked by the database, and an untyped table for all other
  * collections. A reference names a row by the single key column of its table. */
module Relational {
  import opened Wrappers
  import opened Keys

  // A document field: absent and null read alike.
  datatype Value = Null | Text(text: string)
  type Doc = map<string, Value>

  datatype Reference = Reference(table: string, column: string)
  datatype Spec = Spec(table: string, keys: seq<string>, fks: map<string, Reference>)
  type Schema = map<string, Spec>

  // Rows by their key columns; the reference columns of a row are those of its document.
  type Rows = map<seq<string>, Doc>
  type Tables = map<string, Rows>

  datatype State = State(tables: Tables, docs: map<(string, string), Doc>)

  datatype Reply = Done | BadKey | IntegrityError

  function Field(doc: Doc, name: string): Value {
    if name in doc then doc[name] else Null
  }

  // The reference a document makes through a column; null and "" make none.
  function RefValue(doc: Doc, column: string): Option<string> {
    match Field(doc, column)
    case Null => None
    case Text(text) => if text == "" then None else Some(text)
  }

  // Every key column that is also a reference gets a value.
  predicate KeyGiven(spec: Spec, doc: Doc) {
    forall i :: 0 <= i < |spec.keys| && spec.keys[i] in spec.fks ==> RefValue(doc, spec.keys[i]).Some?
  }

  // The key columns as written: a column that is also a reference takes the document's value.
  function StoredKey(spec: Spec, parts: seq<string>, doc: Doc): (key: seq<string>)
    requires |parts| == |spec.keys| && KeyGiven(spec, doc)
    ensures |key| == |parts|
  {
    seq(|parts|, i requires 0 <= i < |parts| =>
      if spec.keys[i] in spec.fks then RefValue(doc, spec.keys[i]).value else parts[i])
  }

  // The collection a reference points into.
  predicate PointsTo(schema: Schema, ref: Reference, c: string) {
    c in schema && schema[c].table == ref.table && schema[c].keys == [ref.column]
  }

  predicate Present(schema: Schema, tables: Tables, ref: Reference, v: string) {
    exists c :: c in tables && PointsTo(schema, ref, c) && [v] in tables[c]
  }

  predicate RefsHold(schema: Schema, tables: Tables, spec: Spec, doc: Doc) {
    forall column :: column in spec.fks && RefValue(doc, column).Some? ==>
      Present(schema, tables, spec.fks[column], RefValue(doc, column).value)
  }

  // The document refers to the row of collection c with this key.
  predicate RefersTo(schema: Schema, spec: Spec, doc: Doc, c: string, key: seq<string>) {
    exists column :: column in spec.fks && PointsTo(schema, spec.fks[column], c)
                     && RefValue(doc, column).Some? && key == [RefValue(doc, column).value]
  }

  // Some other row refers to this one (ON DELETE RESTRICT).
  predicate Referenced(schema: Schema, tables: Tables, c: string, key: seq<string>)
    requires tables.Keys == schema.Keys
  {
    exists d, k | d in tables && k in tables[d]
      && (d != c || k != key) :: RefersTo(schema, schema[d], tables[d][k], c, key)
  }

  function WithRow(tables: Tables, c: string, key: seq<string>, doc: Doc): Tables
    requires c in tables
  {
    tables[c := tables[c][key := doc]]
  }

  // INSERT ... ON CONFLICT DO UPDATE, with the checks of the database.
  function Upsert(schema: Schema, tables: Tables, c: string, parts: seq<string>, doc: Doc): Option<Tables>
    requires c in schema && c in tables && |parts| == |schema[c].keys|
  {
    if !KeyGiven(schema[c], doc) then None
    else
      var t := WithRow(tables, c, StoredKey(schema[c], parts, doc), doc);
      if RefsHold(schema, t, schema[c], doc) then Some(t) else None
  }

  // INSERT ... ON CONFLICT DO NOTHING.
  function Backfill(schema: Schema, tables: Tables, c: string, parts: seq<string>, doc: Doc): Option<Tables>
    requires c in schema && c in tables && |parts| == |schema[c].keys|
  {
    if !KeyGiven(schema[c], doc) then None
    else if StoredKey(schema[c], parts, doc) in tables[c] then Some(tables)
    else Upsert(schema, tables, c, parts, doc)
  }

  ghost predicate WellFormed(schema: Schema) {
    (forall c :: c in schema ==> schema[c].keys != [])
    && (forall c, d :: c in schema && d in schema && schema[c].table == schema[d].table ==> c == d)
    && (forall c, column :: c in schema && column in schema[c].fks ==>
          exists d :: PointsTo(schema, schema[c].fks[column], d))
  }

  // Rows sit under the key their document and schema give, and every reference is satisfied.
  ghost predicate RowFits(schema: Schema, tables: Tables, c: string, key: seq<string>)
    requires c in schema && c in tables && key in tables[c]
  {
    var spec := schema[c];
    |key| == |spec.keys| && RefsHold(schema, tables, spec, tables[c][key])
    && forall i :: 0 <= i < |key| && spec.keys[i] in spec.fks ==> RefValue(tables[c][key], spec.keys[i]) == Some(key[i])
  }

  ghost predicate Integrity(schema: Schema, tables: Tables) {
    tables.Keys == schema.Keys
    && forall c, key :: c in tables && key in tables[c] ==> RowFits(schema, tables, c, key)
  }

  lemma RefsStay(schema: Schema, tables: Tables, more: Tables, spec: Spec, doc: Doc)
    requires RefsHold(schema, tables, spec, doc)
    requires forall c :: c in tables ==> c in more && tables[c].Keys <= more[c].Keys
    ensures RefsHold(schema, more, spec, doc)
  {
    forall column | column in spec.fks && RefValue(doc, column).Some?
      ensures Present(schema, more, spec.fks[column], RefValue(doc, column).value)
    {
      var v := RefValue(doc, column).value;
      assert Present(schema, tables, spec.fks[column], v);
      var c :| c in tables && PointsTo(schema, spec.fks[column], c) && [v] in tables[c];
      assert [v] in more[c];
    }
  }

  // A write the database accepts keeps every reference satisfied.
  lemma UpsertKeepsIntegrity(schema: Schema, tables: Tables, c: string, parts: seq<string>, doc: Doc)
    requires Integrity(schema, tables) && c in schema && |parts| == |schema[c].keys|
    requires Upsert(schema, tables, c, parts, doc).Some?
    ensures Integrity(schema, Upsert(schema, tables, c, parts, doc).value)
  {
    var t := Upsert(schema, tables, c, parts, doc).value;
    forall d, key | d in t && key in t[d] ensures RowFits(schema, t, d, key) {
      if d != c || key != StoredKey(schema[c], parts, doc) {
        assert RowFits(schema, tables, d, key);
        RefsStay(schema, tables, t, schema[d], tables[d][key]);
      }
    }
  }

  function WithoutRow(tables: Tables, c: string, key: seq<string>): Tables
    requires c in tables
  {
    tables[c := tables[c] - {key}]
  }

  lemma DeleteKeepsIntegrity(schema: Schema, tables: Tables, c: string, key: seq<string>)
    requires WellFormed(schema) && Integrity(schema, tables) && c in schema && !Referenced(schema, tables, c, key)
    ensures Integrity(schema, WithoutRow(tables, c, key))
  {
    var t := WithoutRow(tables, c, key);
    forall d, k | d in t && k in t[d] ensures RowFits(schema, t, d, k) {
      assert RowFits(schema, tables, d, k);
      var spec := schema[d];
      forall column | column in spec.fks && RefValue(tables[d][k], column).Some?
        ensures Present(schema, t, spec.fks[column], RefValue(tables[d][k], column).value)
      {
        var v := RefValue(tables[d][k], column).value;
        assert Present(schema, tables, spec.fks[column], v);
        var e :| e in tables && PointsTo(schema, spec.fks[column], e) && [v] in tables[e];
        assert [v] in t[e];
      }
    }
  }

  // ---- The repository operations ----

  function PutEffect(schema: Schema, s: State, c: string, key: string, doc: Doc): (State, Reply)
    requires s.tables.Keys == schema.Keys
  {
    if c !in schema then (s.(docs := s.docs[(c, key) := doc]), Done)
    else
      match ParseKey(key, schema[c].keys)
      case None => (s, BadKey)
      case Some(parts) =>
        match Upsert(schema, s.tables, c, parts, doc)
        case None => (s, IntegrityError)
        case Some(t) => (s.(tables := t), Done)
  }

  // The document names v through the column: a text that is not empty.
  predicate Names(doc: Doc, column: string, v: string) {
    column in doc && doc[column] == Text(v) && v != ""
  }

  lemma NamesIsRefValue(doc: Doc, column: string, v: string)
    ensures Names(doc, column, v) <==> RefValue(doc, column) == Some(v)
  {
  }

  // The typed row that a put writes is itself the one named v.
  predicate IsItself(spec: Spec, key: string, doc: Doc, v: string) {
    |spec.keys| == 1 && if spec.keys[0] in spec.fks then Names(doc, spec.keys[0], v) else key == v
  }

  // Each text the document names through a reference column is the key of a row stored
  // before, or of the row itself.
  ghost predicate ReferencesStored(schema: Schema, tables: Tables, c: string, key: string, doc: Doc)
    requires c in schema
  {
    forall column, v :: column in schema[c].fks && Names(doc, column, v) ==>
      exists d :: d in tables && PointsTo(schema, schema[c].fks[column], d)
                  && ([v] in tables[d] || (d == c && IsItself(schema[c], key, doc, v)))
  }

  // Each key column that is also a reference names something.
  ghost predicate KeyNamed(spec: Spec, doc: Doc) {
    forall i :: 0 <= i < |spec.keys| && spec.keys[i] in spec.fks ==> exists v :: Names(doc, spec.keys[i], v)
  }

  lemma KeyNamedIsGiven(spec: Spec, doc: Doc)
    ensures KeyNamed(spec, doc) <==> KeyGiven(spec, doc)
  {
    forall i | 0 <= i < |spec.keys| && spec.keys[i] in spec.fks
      ensures (exists v :: Names(doc, spec.keys[i], v)) <==> RefValue(doc, spec.keys[i]).Some?
    {
      if RefValue(doc, spec.keys[i]).Some? {
        NamesIsRefValue(doc, spec.keys[i], RefValue(doc, spec.keys[i]).value);
      }
    }
  }

  // The key of the row that a put writes, in a table of one key column.
  lemma StoredUnder(spec: Spec, key: string, doc: Doc, v: string)
    requires ParseKey(key, spec.keys).Some? && KeyGiven(spec, doc)
    ensures StoredKey(spec, ParseKey(key, spec.keys).value, doc) == [v] <==> IsItself(spec, key, doc, v)
  {
    var stored := StoredKey(spec, ParseKey(key, spec.keys).value, doc);
    if |spec.keys| == 1 {
      JoinUndoesSplit(key);
      NamesIsRefValue(doc, spec.keys[0], v);
      assert Split(key)[0] == key;
      assert stored == [stored[0]];
    } else {
      assert |stored| != |[v]|;
    }
  }

  lemma RefsHoldWhenStored(schema: Schema, tables: Tables, c: string, key: string, doc: Doc)
    requires tables.Keys == schema.Keys && c in schema
    requires ParseKey(key, schema[c].keys).Some? && KeyGiven(schema[c], doc)
    ensures var stored := StoredKey(schema[c], ParseKey(key, schema[c].keys).value, doc);
      RefsHold(schema, WithRow(tables, c, stored, doc), schema[c], doc)
      <==> ReferencesStored(schema, tables, c, key, doc)
  {
    var spec, stored := schema[c], StoredKey(schema[c], ParseKey(key, schema[c].keys).value, doc);
    var t := WithRow(tables, c, stored, doc);
    forall column, v | column in spec.fks && Names(doc, column, v)
      ensures Present(schema, t, spec.fks[column], v)
         <==> exists d :: d in tables && PointsTo(schema, spec.fks[column], d)
                          && ([v] in tables[d] || (d == c && IsItself(spec, key, doc, v)))
    {
      StoredUnder(spec, key, doc, v);
      forall d | d in tables ensures [v] in t[d] <==> [v] in tables[d] || (d == c && IsItself(spec, key, doc, v)) {
      }
    }
    forall column, v ensures Names(doc, column, v) <==> RefValue(doc, column) == Some(v) {
      NamesIsRefValue(doc, column, v);
    }
  }

  /** When a put is done: always in an untyped collection; in a typed one exactly when the key
    * parses, its columns are named, and whatever the document refers to is stored or is the row
    * itself. Whether the key is stored already plays no part. */
  lemma PutIsDoneExactly(schema: Schema, s: State, c: string, key: string, doc: Doc)
    requires s.tables.Keys == schema.Keys
    ensures var reply := PutEffect(schema, s, c, key, doc).1;
      if c !in schema then reply.Done?
      else if |Split(key)| != |schema[c].keys| then reply.BadKey?
      else if KeyNamed(schema[c], doc) && ReferencesStored(schema, s.tables, c, key, doc) then reply.Done?
      else reply.IntegrityError?
  {
    if c in schema && ParseKey(key, schema[c].keys).Some? {
      KeyNamedIsGiven(schema[c], doc);
      if KeyGiven(schema[c], doc) {
        RefsHoldWhenStored(schema, s.tables, c, key, doc);
      }
    }
  }

  // A typed row whose document is empty reads as missing.
  function GetAnswer(schema: Schema, s: State, c: string, key: string): Option<Doc>
    requires s.tables.Keys == schema.Keys
  {
    if c !in schema then (if (c, key) in s.docs then Some(s.docs[(c, key)]) else None)
    else
      match ParseKey(key, schema[c].keys)
      case None => None
      case Some(parts) =>
        if parts in s.tables[c] && s.tables[c][parts] != map[] then Some(s.tables[c][parts]) else None
  }

  function DeleteEffect(schema: Schema, s: State, c: string, key: string): (State, Reply)
    requires s.tables.Keys == schema.Keys
  {
    if c !in schema then (s.(docs := s.docs - {(c, key)}), Done)
    else
      match ParseKey(key, schema[c].keys)
      case None => (s, Done)
      case Some(parts) =>
        if parts !in s.tables[c] then (s, Done)
        else if Referenced(schema, s.tables, c, parts) then (s, IntegrityError)
        else (s.(tables := WithoutRow(s.tables, c, parts)), Done)
  }

  predicate Matches(doc: Doc, filter: map<string, Value>) {
    forall name :: name in filter ==> Field(doc, name) == filter[name]
  }

  // The document has every value the filter asks for; absent and null read alike.
  ghost predicate AnswersFilter(doc: Doc, filter: map<string, Value>) {
    forall name :: name in filter ==> (if name in doc then doc[name] else Null) == filter[name]
  }

  // How often a document is among those stored, if it answers the filter.
  ghost function Count<K(!new)>(rows: map<K, Doc>, filter: map<string, Value>, doc: Doc): nat {
    |set k | k in rows && rows[k] == doc && AnswersFilter(doc, filter)|
  }

  /** The matching documents of one table, in whatever order the rows come. */
  method Select<K(==, !new)>(rows: map<K, Doc>, filter: map<string, Value>) returns (out: seq<Doc>)
    ensures forall doc :: multiset(out)[doc] == Count(rows, filter, doc)
  {
    out := [];
    var rest := rows.Keys;
    ghost var seen: map<K, Doc> := map[];
    while rest != {}
      invariant rest <= rows.Keys && seen == map k | k in rows && k !in rest :: rows[k]
      invariant forall doc :: multiset(out)[doc] == Count(seen, filter, doc)
    {
      var k :| k in rest;
      rest := rest - {k};
      ghost var before, outBefore := seen, out;
      seen := seen[k := rows[k]];
      if Matches(rows[k], filter) {
        out := out + [rows[k]];
      }
      forall doc ensures multiset(out)[doc] == Count(seen, filter, doc) {
        OneMoreRow(before, k, rows[k], filter, doc);
        assert multiset(out)[doc] == multiset(outBefore)[doc]
          + (if Matches(doc, filter) && doc == rows[k] then 1 else 0);
      }
    }
    assert seen == rows;
  }

  lemma OneMoreRow<K(!new)>(rows: map<K, Doc>, k: K, d: Doc, filter: map<string, Value>, doc: Doc)
    requires k !in rows
    ensures Count(rows[k := d], filter, doc) == Count(rows, filter, doc)
      + (if d == doc && AnswersFilter(doc, filter) then 1 else 0)
  {
    var before := set x | x in rows && rows[x] == doc && AnswersFilter(doc, filter);
    var more := rows[k := d];
    var after := set x | x in more && more[x] == doc && AnswersFilter(doc, filter);
    assert after == if d == doc && AnswersFilter(doc, filter) then before + {k} else before;
  }

  // The documents of one collection in the untyped table.
  function Untyped(docs: map<(string, string), Doc>, c: string): map<string, Doc> {
    map ck | ck in docs && ck.0 == c :: ck.1 := docs[ck]
  }
}
