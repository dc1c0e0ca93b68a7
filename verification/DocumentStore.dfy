/** The in-memory repository, and why the relational one gives the same answers. */
module DocumentStore {
  import opened Wrappers
  import opened Keys
  import opened Relational

  type Docs = map<string, map<string, Doc>>

  function RowsIn(docs: Docs, c: string): map<string, Doc> {
    if c in docs then docs[c] else map[]
  }

  class MemoryRepository {
    var docs: Docs

    constructor ()
      ensures docs == map[]
    {
      docs := map[];
    }

    method Put(c: string, key: string, doc: Doc)
      modifies this
      ensures RowsIn(docs, c) == RowsIn(old(docs), c)[key := doc]
      ensures forall d :: d != c ==> RowsIn(docs, d) == RowsIn(old(docs), d)
    {
      if c !in docs {
        docs := docs[c := map[]];
      }
      docs := docs[c := docs[c][key := doc]];
    }

    method Get(c: string, key: string) returns (doc: Option<Doc>)
      ensures doc == Lookup(docs, c, key)
    {
      doc := if c in docs && key in docs[c] then Some(docs[c][key]) else None;
    }

    method Delete(c: string, key: string)
      modifies this
      ensures RowsIn(docs, c) == RowsIn(old(docs), c) - {key}
      ensures forall d :: d != c ==> RowsIn(docs, d) == RowsIn(old(docs), d)
    {
      if c in docs {
        docs := docs[c := docs[c] - {key}];
      }
    }

    method Query(c: string, filter: map<string, Value>) returns (out: seq<Doc>)
      ensures forall doc :: multiset(out)[doc] == Count(RowsIn(docs, c), filter, doc)
    {
      out := Select(RowsIn(docs, c), filter);
    }
  }

  function Lookup(docs: Docs, c: string, key: string): Option<Doc> {
    if key in RowsIn(docs, c) then Some(RowsIn(docs, c)[key]) else None
  }

  // ---- The relational repository refines the map ----

  type Naming = (seq<string>, string) -> bool

  // The key of these parts.
  const NAMES: Naming := (parts: seq<string>, key: string) => Split(key) == parts

  // The typed rows are the documents, each under the parts of its key.
  ghost predicate SameRows(rows: Rows, docs: map<string, Doc>, names: Naming) {
    (forall parts, key :: names(parts, key) ==>
      (parts in rows <==> key in docs) && (parts in rows && key in docs ==> rows[parts] == docs[key]))
    && (forall parts :: parts in rows ==> exists key :: names(parts, key))
  }

  // A naming pairs every key with exactly one sequence of parts.
  ghost predicate Pairs(names: Naming, parts: seq<string>, key: string) {
    names(parts, key) && forall p, k :: names(p, k) ==> (p == parts <==> k == key)
  }

  lemma SplitPairs(key: string)
    ensures Pairs(NAMES, Split(key), key)
  {
    forall p, k | NAMES(p, k) ensures p == Split(key) <==> k == key {
      JoinUndoesSplit(key);
      JoinUndoesSplit(k);
    }
  }

  ghost predicate TypedAgrees(columns: seq<string>, rows: Rows, docs: map<string, Doc>) {
    SameRows(rows, docs, NAMES) && forall key :: key in docs ==> ParseKey(key, columns).Some?
  }

  ghost predicate TablesAgree(schema: Schema, tables: Tables, docs: Docs) {
    tables.Keys == schema.Keys
    && forall c :: c in schema ==> TypedAgrees(schema[c].keys, tables[c], RowsIn(docs, c))
  }

  ghost predicate Agrees(schema: Schema, s: State, docs: Docs) {
    TablesAgree(schema, s.tables, docs) && UntypedAgree(schema, s.docs, docs)
  }

  ghost predicate UntypedAgree(schema: Schema, untyped: map<(string, string), Doc>, docs: Docs) {
    forall c :: c !in schema ==> Untyped(untyped, c) == RowsIn(docs, c)
  }

  /** The key parses, and the document says the same about those key columns that
    * are also references. */
  predicate WellKeyed(schema: Schema, c: string, key: string, doc: Doc) {
    c in schema ==>
      var parts := ParseKey(key, schema[c].keys);
      parts.Some? && KeyGiven(schema[c], doc) && StoredKey(schema[c], parts.value, doc) == parts.value
  }

  lemma RowPutAgrees(rows: Rows, docs: map<string, Doc>, names: Naming, parts: seq<string>, key: string, doc: Doc)
    requires SameRows(rows, docs, names) && Pairs(names, parts, key)
    ensures SameRows(rows[parts := doc], docs[key := doc], names)
  {
  }

  lemma RowDeleteAgrees(rows: Rows, docs: map<string, Doc>, names: Naming, parts: seq<string>, key: string)
    requires SameRows(rows, docs, names) && Pairs(names, parts, key)
    ensures SameRows(rows - {parts}, docs - {key}, names)
  {
  }

  // What the map holds after an accepted put.
  ghost predicate PutInto(before: Docs, after: Docs, c: string, key: string, doc: Doc) {
    RowsIn(after, c) == RowsIn(before, c)[key := doc] && forall d :: d != c ==> RowsIn(after, d) == RowsIn(before, d)
  }

  ghost predicate DeletedFrom(before: Docs, after: Docs, c: string, key: string) {
    RowsIn(after, c) == RowsIn(before, c) - {key} && forall d :: d != c ==> RowsIn(after, d) == RowsIn(before, d)
  }

  lemma TypedPutAgrees(columns: seq<string>, rows: Rows, docs: map<string, Doc>, key: string, doc: Doc)
    requires TypedAgrees(columns, rows, docs) && ParseKey(key, columns).Some?
    ensures TypedAgrees(columns, rows[ParseKey(key, columns).value := doc], docs[key := doc])
  {
    SplitPairs(key);
    RowPutAgrees(rows, docs, NAMES, Split(key), key, doc);
  }

  lemma TypedDeleteAgrees(columns: seq<string>, rows: Rows, docs: map<string, Doc>, key: string)
    requires TypedAgrees(columns, rows, docs)
    ensures ParseKey(key, columns).Some? ==> TypedAgrees(columns, rows - {ParseKey(key, columns).value}, docs - {key})
    ensures ParseKey(key, columns).None? ==> docs - {key} == docs
  {
    SplitPairs(key);
    RowDeleteAgrees(rows, docs, NAMES, Split(key), key);
  }

  // What an accepted put leaves, when the key is well formed.
  lemma AcceptedPut(schema: Schema, s: State, c: string, key: string, doc: Doc)
    requires s.tables.Keys == schema.Keys && WellKeyed(schema, c, key, doc) && PutEffect(schema, s, c, key, doc).1.Done?
    ensures var t := PutEffect(schema, s, c, key, doc).0;
      if c in schema
      then t == s.(tables := s.tables[c := s.tables[c][ParseKey(key, schema[c].keys).value := doc]])
      else t == s.(docs := s.docs[(c, key) := doc])
  {
  }

  lemma PutAgrees(schema: Schema, s: State, before: Docs, after: Docs, c: string, key: string, doc: Doc)
    requires Agrees(schema, s, before) && PutInto(before, after, c, key, doc) && WellKeyed(schema, c, key, doc)
    requires PutEffect(schema, s, c, key, doc).1.Done?
    ensures Agrees(schema, PutEffect(schema, s, c, key, doc).0, after)
  {
    AcceptedPut(schema, s, c, key, doc);
    if c in schema {
      StoredPutAgrees(schema, s, before, after, c, key, doc);
    } else {
      UntypedPutAgrees(schema, s, before, after, c, key, doc);
    }
  }

  lemma UntypedPutAgrees(schema: Schema, s: State, before: Docs, after: Docs, c: string, key: string, doc: Doc)
    requires Agrees(schema, s, before) && PutInto(before, after, c, key, doc) && c !in schema
    ensures Agrees(schema, s.(docs := s.docs[(c, key) := doc]), after)
  {
    UntypedPutStays(schema, s.docs, before, after, c, key, doc);
    TablesUnchanged(schema, s.tables, before, after);
  }

  lemma UntypedPutStays(
    schema: Schema, untyped: map<(string, string), Doc>, before: Docs, after: Docs, c: string, key: string, doc: Doc)
    requires UntypedAgree(schema, untyped, before) && PutInto(before, after, c, key, doc) && c !in schema
    ensures UntypedAgree(schema, untyped[(c, key) := doc], after)
  {
    UntypedPut(untyped, c, key, doc);
  }

  lemma TablesUnchanged(schema: Schema, tables: Tables, before: Docs, after: Docs)
    requires TablesAgree(schema, tables, before) && forall d :: d in schema ==> RowsIn(after, d) == RowsIn(before, d)
    ensures TablesAgree(schema, tables, after)
  {
  }

  lemma StoredPutAgrees(schema: Schema, s: State, before: Docs, after: Docs, c: string, key: string, doc: Doc)
    requires Agrees(schema, s, before) && PutInto(before, after, c, key, doc)
    requires c in schema && ParseKey(key, schema[c].keys).Some?
    ensures Agrees(schema, s.(tables := s.tables[c := s.tables[c][ParseKey(key, schema[c].keys).value := doc]]), after)
  {
    TypedPutAgrees(schema[c].keys, s.tables[c], RowsIn(before, c), key, doc);
    TableChanged(schema, s.tables, before, after, c, s.tables[c][ParseKey(key, schema[c].keys).value := doc]);
    UntypedUnchanged(schema, s.docs, before, after);
  }

  lemma UntypedUnchanged(schema: Schema, untyped: map<(string, string), Doc>, before: Docs, after: Docs)
    requires UntypedAgree(schema, untyped, before) && forall d :: d !in schema ==> RowsIn(after, d) == RowsIn(before, d)
    ensures UntypedAgree(schema, untyped, after)
  {
  }

  lemma TableChanged(schema: Schema, tables: Tables, before: Docs, after: Docs, c: string, rows: Rows)
    requires TablesAgree(schema, tables, before) && c in schema
    requires forall d :: d != c ==> RowsIn(after, d) == RowsIn(before, d)
    requires TypedAgrees(schema[c].keys, rows, RowsIn(after, c))
    ensures TablesAgree(schema, tables[c := rows], after)
  {
  }

  lemma UntypedPut(docs: map<(string, string), Doc>, c: string, key: string, doc: Doc)
    ensures Untyped(docs[(c, key) := doc], c) == Untyped(docs, c)[key := doc]
    ensures forall d :: d != c ==> Untyped(docs[(c, key) := doc], d) == Untyped(docs, d)
  {
  }

  lemma UntypedDelete(docs: map<(string, string), Doc>, c: string, key: string)
    ensures Untyped(docs - {(c, key)}, c) == Untyped(docs, c) - {key}
    ensures forall d :: d != c ==> Untyped(docs - {(c, key)}, d) == Untyped(docs, d)
  {
  }

  // What an accepted delete leaves.
  lemma AcceptedDelete(schema: Schema, s: State, c: string, key: string)
    requires s.tables.Keys == schema.Keys && DeleteEffect(schema, s, c, key).1.Done?
    ensures var t := DeleteEffect(schema, s, c, key).0;
      if c !in schema then t == s.(docs := s.docs - {(c, key)})
      else if ParseKey(key, schema[c].keys).None? then t == s
      else t == s.(tables := s.tables[c := s.tables[c] - {ParseKey(key, schema[c].keys).value}])
  {
    if c in schema && ParseKey(key, schema[c].keys).Some? {
      var parts := ParseKey(key, schema[c].keys).value;
      if parts !in s.tables[c] {
        assert s.tables[c] - {parts} == s.tables[c];
        assert s.tables[c := s.tables[c]] == s.tables;
      }
    }
  }

  lemma DeleteAgrees(schema: Schema, s: State, before: Docs, after: Docs, c: string, key: string)
    requires Agrees(schema, s, before) && DeletedFrom(before, after, c, key)
    requires DeleteEffect(schema, s, c, key).1.Done?
    ensures Agrees(schema, DeleteEffect(schema, s, c, key).0, after)
  {
    AcceptedDelete(schema, s, c, key);
    if c in schema {
      TypedDeleteAgrees(schema[c].keys, s.tables[c], RowsIn(before, c), key);
      if ParseKey(key, schema[c].keys).Some? {
        TableChanged(schema, s.tables, before, after, c, s.tables[c] - {ParseKey(key, schema[c].keys).value});
      }
    } else {
      UntypedDelete(s.docs, c, key);
    }
  }

  /** Reading gives the map's answer, except that a typed row with an empty
    * document reads as missing. */
  lemma GetAgreesExceptOnEmptyDocuments(schema: Schema, s: State, docs: Docs, c: string, key: string)
    requires Agrees(schema, s, docs)
    ensures GetAnswer(schema, s, c, key) == Lookup(docs, c, key)
       <==> !(c in schema && Lookup(docs, c, key) == Some(map[]))
  {
    if c in schema {
      SplitPairs(key);
      assert TypedAgrees(schema[c].keys, s.tables[c], RowsIn(docs, c));
    } else {
      assert Untyped(s.docs, c) == RowsIn(docs, c);
      assert (c, key) in s.docs <==> key in Untyped(s.docs, c);
    }
  }

  // Rows and documents that answer the filter pair up.
  lemma {:induction false} PairedCount(names: Naming, partss: set<seq<string>>, keys: set<string>)
    requires forall parts, key :: names(parts, key) ==> (parts in partss <==> key in keys)
    requires forall parts :: parts in partss ==> exists key :: Pairs(names, parts, key)
    requires forall key :: key in keys ==> exists parts :: Pairs(names, parts, key)
    ensures |partss| == |keys|
    decreases |partss|
  {
    if partss == {} {
      assert forall parts, key :: key in keys ==> !Pairs(names, parts, key);
      assert keys == {};
    } else {
      var parts :| parts in partss;
      var key :| Pairs(names, parts, key);
      PairedCount(names, partss - {parts}, keys - {key});
    }
  }

  lemma RowCountAgrees(rows: Rows, docs: map<string, Doc>, filter: map<string, Value>, doc: Doc)
    requires SameRows(rows, docs, NAMES)
    ensures Count(rows, filter, doc) == Count(docs, filter, doc)
  {
    var partss := set parts | parts in rows && rows[parts] == doc && AnswersFilter(doc, filter);
    var keys := set key | key in docs && docs[key] == doc && AnswersFilter(doc, filter);
    forall key | key in keys ensures exists parts :: Pairs(NAMES, parts, key) {
      SplitPairs(key);
    }
    forall parts | parts in partss ensures exists key :: Pairs(NAMES, parts, key) {
      var key :| NAMES(parts, key);
      SplitPairs(key);
    }
    PairedCount(NAMES, partss, keys);
  }

  /** Querying gives the same documents equally often, for every filter. */
  lemma QueryAgrees(schema: Schema, s: State, docs: Docs, c: string, filter: map<string, Value>, doc: Doc)
    requires Agrees(schema, s, docs)
    ensures c in schema ==> Count(s.tables[c], filter, doc) == Count(RowsIn(docs, c), filter, doc)
    ensures c !in schema ==> Count(Untyped(s.docs, c), filter, doc) == Count(RowsIn(docs, c), filter, doc)
  {
    if c in schema {
      assert TypedAgrees(schema[c].keys, s.tables[c], RowsIn(docs, c));
      RowCountAgrees(s.tables[c], RowsIn(docs, c), filter, doc);
    }
  }

  // ---- Sequences of writes ----

  datatype Write = Put(c: string, key: string, doc: Doc) | Delete(c: string, key: string)

  function WriteEffect(schema: Schema, s: State, w: Write): (State, Reply)
    requires s.tables.Keys == schema.Keys
  {
    match w
    case Put(c, key, doc) => PutEffect(schema, s, c, key, doc)
    case Delete(c, key) => DeleteEffect(schema, s, c, key)
  }

  function MapWrite(docs: Docs, w: Write): Docs {
    match w
    case Put(c, key, doc) => docs[c := RowsIn(docs, c)[key := doc]]
    case Delete(c, key) => if c in docs then docs[c := docs[c] - {key}] else docs
  }

  // What the document refers to is in the map, or is the document itself.
  ghost predicate ReferencesThere(schema: Schema, docs: Docs, c: string, key: string, doc: Doc)
    requires c in schema
  {
    forall column, v :: column in schema[c].fks && Names(doc, column, v) ==>
      exists d :: PointsTo(schema, schema[c].fks[column], d) && (v in RowsIn(docs, d) || (d == c && v == key))
  }

  // Document k of collection d refers to document `key` of collection c.
  ghost predicate NamedBy(schema: Schema, docs: Docs, c: string, key: string, d: string, k: string) {
    d in schema && k in RowsIn(docs, d)
    && exists column :: column in schema[d].fks && PointsTo(schema, schema[d].fks[column], c)
                        && Names(RowsIn(docs, d)[k], column, key)
  }

  /** Which writes the database accepts, said of the map alone: a put whose references are
    * there, and a delete of what no other document refers to. */
  ghost predicate Accepts(schema: Schema, docs: Docs, w: Write) {
    w.c in schema ==>
      match w
      case Put(c, key, doc) => ReferencesThere(schema, docs, c, key, doc)
      case Delete(c, key) =>
        key in RowsIn(docs, c) ==> forall d, k :: (d != c || k != key) ==> !NamedBy(schema, docs, c, key, d, k)
  }

  /** Both repositories serve the same writes; the map skips those that it says the database
    * does not accept. */
  ghost function Serve(schema: Schema, s: State, docs: Docs, writes: seq<Write>): (State, Docs)
    requires s.tables.Keys == schema.Keys
    decreases |writes|
  {
    if writes == [] then (s, docs)
    else
      var next := if Accepts(schema, docs, writes[0]) then MapWrite(docs, writes[0]) else docs;
      Serve(schema, WriteEffect(schema, s, writes[0]).0, next, writes[1..])
  }

  // A typed row of one key column is the document with that key.
  lemma SingleKeyed(schema: Schema, s: State, docs: Docs, d: string, v: string)
    requires Agrees(schema, s, docs) && d in schema && |schema[d].keys| == 1
    ensures [v] in s.tables[d] <==> v in RowsIn(docs, d)
    ensures [v] in s.tables[d] ==> s.tables[d][[v]] == RowsIn(docs, d)[v]
  {
    assert TypedAgrees(schema[d].keys, s.tables[d], RowsIn(docs, d));
    if [v] in s.tables[d] {
      var key :| NAMES([v], key);
      JoinUndoesSplit(key);
    }
    if v in RowsIn(docs, d) {
      JoinUndoesSplit(v);
      assert Split(v) == [Split(v)[0]];
    }
  }

  // One target of a reference is stored exactly when it is in the map.
  lemma TargetAgrees(
    schema: Schema, s: State, docs: Docs, c: string, key: string, doc: Doc, d: string, v: string)
    requires Agrees(schema, s, docs) && c in schema && WellKeyed(schema, c, key, doc)
    requires d in schema && |schema[d].keys| == 1
    ensures ([v] in s.tables[d] || (d == c && IsItself(schema[c], key, doc, v)))
       <==> v in RowsIn(docs, d) || (d == c && v == key)
  {
    SingleKeyed(schema, s, docs, d, v);
    if d == c {
      StoredUnder(schema[c], key, doc, v);
      SingleParts(key, v, schema[c].keys);
    }
  }

  lemma ReferencesAgree(schema: Schema, s: State, docs: Docs, c: string, key: string, doc: Doc)
    requires Agrees(schema, s, docs) && c in schema && WellKeyed(schema, c, key, doc)
    ensures ReferencesStored(schema, s.tables, c, key, doc) <==> ReferencesThere(schema, docs, c, key, doc)
  {
    forall column, v | column in schema[c].fks && Names(doc, column, v)
      ensures (exists d :: d in s.tables && PointsTo(schema, schema[c].fks[column], d)
                           && ([v] in s.tables[d] || (d == c && IsItself(schema[c], key, doc, v))))
         <==> exists d :: PointsTo(schema, schema[c].fks[column], d)
                          && (v in RowsIn(docs, d) || (d == c && v == key))
    {
      forall d | PointsTo(schema, schema[c].fks[column], d)
        ensures d in s.tables
        ensures ([v] in s.tables[d] || (d == c && IsItself(schema[c], key, doc, v)))
           <==> v in RowsIn(docs, d) || (d == c && v == key)
      {
        TargetAgrees(schema, s, docs, c, key, doc, d, v);
      }
    }
  }

  lemma PutIsAccepted(schema: Schema, s: State, docs: Docs, c: string, key: string, doc: Doc)
    requires Agrees(schema, s, docs) && WellKeyed(schema, c, key, doc)
    ensures PutEffect(schema, s, c, key, doc).1.Done? <==> Accepts(schema, docs, Write.Put(c, key, doc))
  {
    PutIsDoneExactly(schema, s, c, key, doc);
    if c in schema {
      KeyNamedIsGiven(schema[c], doc);
      ReferencesAgree(schema, s, docs, c, key, doc);
    }
  }

  lemma SingleParts(key: string, v: string, columns: seq<string>)
    requires |columns| == 1 && ParseKey(key, columns).Some?
    ensures ParseKey(key, columns).value == [v] <==> key == v
  {
    JoinUndoesSplit(key);
    assert Split(key) == [Split(key)[0]];
  }

  ghost predicate AllWellKeyed(schema: Schema, writes: seq<Write>) {
    forall i :: 0 <= i < |writes| && writes[i].Put? ==> WellKeyed(schema, writes[i].c, writes[i].key, writes[i].doc)
  }

  lemma MapPut(docs: Docs, c: string, key: string, doc: Doc)
    ensures PutInto(docs, MapWrite(docs, Write.Put(c, key, doc)), c, key, doc)
  {
  }

  lemma MapDelete(docs: Docs, c: string, key: string)
    ensures DeletedFrom(docs, MapWrite(docs, Write.Delete(c, key)), c, key)
  {
  }

  lemma DeleteIsAccepted(schema: Schema, s: State, docs: Docs, c: string, key: string)
    requires Agrees(schema, s, docs)
    ensures DeleteEffect(schema, s, c, key).1.Done? <==> Accepts(schema, docs, Write.Delete(c, key))
  {
    if c in schema {
      SplitPairs(key);
      assert TypedAgrees(schema[c].keys, s.tables[c], RowsIn(docs, c));
      if key in RowsIn(docs, c) {
        ReferencedIsNamed(schema, s, docs, c, key);
      }
    }
  }

  // Some other row refers to the row exactly when some other document refers to the document.
  lemma ReferencedIsNamed(schema: Schema, s: State, docs: Docs, c: string, key: string)
    requires Agrees(schema, s, docs) && c in schema && key in RowsIn(docs, c)
    ensures Referenced(schema, s.tables, c, Split(key))
       <==> exists d, k :: (d != c || k != key) && NamedBy(schema, docs, c, key, d, k)
  {
    assert TypedAgrees(schema[c].keys, s.tables[c], RowsIn(docs, c));
    if Referenced(schema, s.tables, c, Split(key)) {
      var d, parts :| d in s.tables && parts in s.tables[d] && (d != c || parts != Split(key))
        && RefersTo(schema, schema[d], s.tables[d][parts], c, Split(key));
      var k := RowNames(schema, s, docs, c, key, d, parts);
    }
    if d, k :| (d != c || k != key) && NamedBy(schema, docs, c, key, d, k) {
      DocumentNames(schema, s, docs, c, key, d, k);
    }
  }

  lemma RowNames(schema: Schema, s: State, docs: Docs, c: string, key: string, d: string, parts: seq<string>)
    returns (k: string)
    requires Agrees(schema, s, docs) && c in schema && key in RowsIn(docs, c)
    requires d in s.tables && parts in s.tables[d] && (d != c || parts != Split(key))
    requires RefersTo(schema, schema[d], s.tables[d][parts], c, Split(key))
    ensures (d != c || k != key) && NamedBy(schema, docs, c, key, d, k)
  {
    assert TypedAgrees(schema[d].keys, s.tables[d], RowsIn(docs, d));
    k :| NAMES(parts, k);
    var column :| column in schema[d].fks && PointsTo(schema, schema[d].fks[column], c)
      && RefValue(s.tables[d][parts], column).Some? && Split(key) == [RefValue(s.tables[d][parts], column).value];
    JoinUndoesSplit(key);
    NamesIsRefValue(s.tables[d][parts], column, key);
  }

  lemma DocumentNames(schema: Schema, s: State, docs: Docs, c: string, key: string, d: string, k: string)
    requires Agrees(schema, s, docs) && c in schema && key in RowsIn(docs, c)
    requires (d != c || k != key) && NamedBy(schema, docs, c, key, d, k)
    ensures Referenced(schema, s.tables, c, Split(key))
  {
    assert TypedAgrees(schema[c].keys, s.tables[c], RowsIn(docs, c));
    assert TypedAgrees(schema[d].keys, s.tables[d], RowsIn(docs, d));
    JoinUndoesSplit(key);
    JoinUndoesSplit(k);
    assert NAMES(Split(k), k);
    var column :| column in schema[d].fks && PointsTo(schema, schema[d].fks[column], c)
      && Names(RowsIn(docs, d)[k], column, key);
    NamesIsRefValue(RowsIn(docs, d)[k], column, key);
    assert Split(key) == [Split(key)[0]];
    assert RefersTo(schema, schema[d], s.tables[d][Split(k)], c, Split(key));
  }

  /** Exactly the writes that the map says are accepted are done. */
  lemma WriteIsDoneExactly(schema: Schema, s: State, docs: Docs, w: Write)
    requires Agrees(schema, s, docs) && (w.Put? ==> WellKeyed(schema, w.c, w.key, w.doc))
    ensures WriteEffect(schema, s, w).1.Done? <==> Accepts(schema, docs, w)
  {
    match w {
      case Put(c, key, doc) => PutIsAccepted(schema, s, docs, c, key, doc);
      case Delete(c, key) => DeleteIsAccepted(schema, s, docs, c, key);
    }
  }

  lemma WriteAgrees(schema: Schema, s: State, docs: Docs, w: Write)
    requires Agrees(schema, s, docs) && (w.Put? ==> WellKeyed(schema, w.c, w.key, w.doc))
    ensures var (t, reply) := WriteEffect(schema, s, w);
      Agrees(schema, t, if reply.Done? then MapWrite(docs, w) else docs)
      && (reply.Done? <==> Accepts(schema, docs, w))
  {
    WriteIsDoneExactly(schema, s, docs, w);
    if WriteEffect(schema, s, w).1.Done? {
      match w {
        case Put(c, key, doc) =>
          MapPut(docs, c, key, doc);
          PutAgrees(schema, s, docs, MapWrite(docs, w), c, key, doc);
        case Delete(c, key) =>
          MapDelete(docs, c, key);
          DeleteAgrees(schema, s, docs, MapWrite(docs, w), c, key);
      }
    }
  }

  /** Over any sequence of writes with well-formed keys, the typed store stays in
    * step with the plain document map, so every get and query afterwards agrees
    * (GetAgreesExceptOnEmptyDocuments, QueryAgrees). */
  lemma {:induction false} RelationalRefinesMap(schema: Schema, s: State, docs: Docs, writes: seq<Write>)
    requires Agrees(schema, s, docs) && AllWellKeyed(schema, writes)
    ensures var (t, after) := Serve(schema, s, docs, writes); Agrees(schema, t, after)
    decreases |writes|
  {
    if writes != [] {
      var next := if Accepts(schema, docs, writes[0]) then MapWrite(docs, writes[0]) else docs;
      WriteAgrees(schema, s, docs, writes[0]);
      RelationalRefinesMap(schema, WriteEffect(schema, s, writes[0]).0, next, writes[1..]);
    }
  }

  // Nothing stored yet.
  function Empty(schema: Schema): State {
    State(map c | c in schema :: map[], map[])
  }

  lemma EmptyRepositoriesAgree(schema: Schema)
    ensures Agrees(schema, Empty(schema), map[])
  {
  }

  /** So from empty repositories, after any sequence of writes with well-formed keys, both
    * give the same answers, to every get except that of an empty typed document, and to
    * every query. */
  lemma AnswersAgree(
    schema: Schema, writes: seq<Write>, c: string, key: string, filter: map<string, Value>, doc: Doc)
    requires AllWellKeyed(schema, writes)
    ensures var (t, after) := Serve(schema, Empty(schema), map[], writes);
      t.tables.Keys == schema.Keys
      && (GetAnswer(schema, t, c, key) == Lookup(after, c, key)
          <==> !(c in schema && Lookup(after, c, key) == Some(map[])))
      && (c in schema ==> Count(t.tables[c], filter, doc) == Count(RowsIn(after, c), filter, doc))
      && (c !in schema ==> Count(Untyped(t.docs, c), filter, doc) == Count(RowsIn(after, c), filter, doc))
  {
    EmptyRepositoriesAgree(schema);
    RelationalRefinesMap(schema, Empty(schema), map[], writes);
    var (t, after) := Serve(schema, Empty(schema), map[], writes);
    GetAgreesExceptOnEmptyDocuments(schema, t, after, c, key);
    QueryAgrees(schema, t, after, c, filter, doc);
  }

  /** Exactly when an accepted typed put can be read back: the document agrees
    * with the key on the columns that are both key and reference, and is not
    * empty. put takes those columns from the document, get from the key. */
  lemma PutIsReadBackExactlyWhenWellKeyed(schema: Schema, s: State, c: string, key: string, doc: Doc)
    requires Integrity(schema, s.tables) && c in schema && PutEffect(schema, s, c, key, doc).1.Done?
    ensures GetAnswer(schema, PutEffect(schema, s, c, key, doc).0, c, key) == Some(doc)
       <==> WellKeyed(schema, c, key, doc) && doc != map[]
  {
    var t := PutEffect(schema, s, c, key, doc).0;
    var spec := schema[c];
    var parts := ParseKey(key, spec.keys).value;
    var stored := StoredKey(spec, parts, doc);
    if stored != parts {
      var i :| 0 <= i < |parts| && stored[i] != parts[i];
      if parts in t.tables[c] {
        assert RowFits(schema, s.tables, c, parts);
        assert RefValue(s.tables[c][parts], spec.keys[i]) == Some(parts[i]);
      }
    }
  }

  /** A put on a key that is stored replaces what is stored: it is done when what its document
    * refers to is there, and the next get reads that document. */
  lemma SecondPutReplaces(schema: Schema, s: State, c: string, key: string, first: Doc, second: Doc)
    requires Integrity(schema, s.tables) && c in schema && second != map[]
    requires WellKeyed(schema, c, key, first) && PutEffect(schema, s, c, key, first).1.Done?
    requires WellKeyed(schema, c, key, second)
    requires ReferencesStored(schema, PutEffect(schema, s, c, key, first).0.tables, c, key, second)
    ensures var (t, reply) := PutEffect(schema, PutEffect(schema, s, c, key, first).0, c, key, second);
      reply.Done? && GetAnswer(schema, t, c, key) == Some(second)
  {
    var u := PutEffect(schema, s, c, key, first).0;
    KeyNamedIsGiven(schema[c], second);
    PutIsDoneExactly(schema, u, c, key, second);
    AcceptedPut(schema, u, c, key, second);
  }

  /** What EntityStore.save hands over is well keyed: the key is printed from the
    * very fields the document carries. */
  lemma SavedEntitiesAreWellKeyed(schema: Schema, c: string, parts: seq<string>, doc: Doc)
    requires c in schema && |parts| == |schema[c].keys| && Clean(parts)
    requires forall i :: 0 <= i < |parts| ==> parts[i] != "" && Field(doc, schema[c].keys[i]) == Text(parts[i])
    ensures WellKeyed(schema, c, Join(parts), doc)
  {
    SplitUndoesJoin(parts);
  }
}
