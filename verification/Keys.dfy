/** Storage keys: key fields joined by ':' (EntityStore._key) and the split that
  * takes them apart again (_parse_key). */
module Keys {
  import opened Wrappers

  function Split(s: string): (parts: seq<string>)
    ensures parts != []
    ensures forall p :: p in parts ==> ':' !in p
  {
    if s == [] then [""]
    else
      var rest := Split(s[1..]);
      if s[0] == ':' then [""] + rest
      else
        assert s[0] != ':';
        [[s[0]] + rest[0]] + rest[1..]
  }

  function Join(parts: seq<string>): string
    requires parts != []
  {
    if |parts| == 1 then parts[0] else parts[0] + ":" + Join(parts[1..])
  }

  function ParseKey(key: string, columns: seq<string>): (r: Option<seq<string>>)
    ensures r.Some? ==> |r.value| == |columns|
  {
    var parts := Split(key);
    if |parts| != |columns| then None else Some(parts)
  }

  // Parts no separator occurs in.
  predicate Clean(parts: seq<string>) {
    parts != [] && forall p :: p in parts ==> ':' !in p
  }

  lemma {:induction false} JoinUndoesSplit(s: string)
    ensures Join(Split(s)) == s
  {
    if s != [] {
      JoinUndoesSplit(s[1..]);
      var rest := Split(s[1..]);
      if s[0] == ':' {
        assert ([""] + rest)[1..] == rest;
      } else {
        assert ([[s[0]] + rest[0]] + rest[1..])[1..] == rest[1..];
      }
    }
  }

  lemma {:induction false} SplitCutsAtColon(a: string, b: string)
    requires ':' !in a
    ensures Split(a + ":" + b) == [a] + Split(b)
  {
    var s := a + ":" + b;
    if a == [] {
      assert s[1..] == b;
    } else {
      assert s[1..] == a[1..] + ":" + b;
      SplitCutsAtColon(a[1..], b);
      assert [a[0]] + a[1..] == a;
    }
  }

  lemma {:induction false} SplitOfClean(a: string)
    requires ':' !in a
    ensures Split(a) == [a]
  {
    if a != [] {
      SplitOfClean(a[1..]);
      assert [a[0]] + a[1..] == a;
    }
  }

  lemma {:induction false} SplitUndoesJoin(parts: seq<string>)
    requires Clean(parts)
    ensures Split(Join(parts)) == parts
  {
    if |parts| == 1 {
      SplitOfClean(parts[0]);
    } else {
      SplitUndoesJoin(parts[1..]);
      SplitCutsAtColon(parts[0], Join(parts[1..]));
    }
  }

  /** The two are inverse: every key that parses is the join of its parts and of
    * no others, and the join of the right number of colon-free fields parses to
    * exactly those fields. */
  lemma ParseInvertsPrint(key: string, columns: seq<string>, parts: seq<string>)
    requires Clean(parts) && |parts| == |columns|
    ensures ParseKey(key, columns) == Some(parts) <==> key == Join(parts)
  {
    SplitUndoesJoin(parts);
    JoinUndoesSplit(key);
  }

  /** A field that holds a colon never comes back as it was. */
  lemma PrintIsUndoneOnlyForCleanFields(columns: seq<string>, parts: seq<string>)
    requires parts != [] && |parts| == |columns|
    ensures ParseKey(Join(parts), columns) == Some(parts) <==> Clean(parts)
  {
    if Clean(parts) {
      SplitUndoesJoin(parts);
    }
  }
}
