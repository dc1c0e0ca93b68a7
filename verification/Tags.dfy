/** The tags of a merged entry: each tag once, in the order of texts. */
module Tags {

  // a comes before b in the order of texts, by the first character in which they differ.
  predicate Before(a: string, b: string) {
    if b == "" then false
    else if a == "" then true
    else if a[0] != b[0] then a[0] < b[0]
    else Before(a[1..], b[1..])
  }

  lemma {:induction false} BeforeIsTotal(a: string, b: string)
    ensures Before(a, b) || Before(b, a) || a == b
    ensures !(Before(a, b) && Before(b, a)) && !Before(a, a)
  {
    if a != "" {
      BeforeIsTotal(a[1..], a[1..]);
      if b != "" && a[0] == b[0] {
        BeforeIsTotal(a[1..], b[1..]);
        assert a == [a[0]] + a[1..] && b == [b[0]] + b[1..];
      }
    }
  }

  lemma {:induction false} BeforeIsTransitive(a: string, b: string, c: string)
    requires Before(a, b) && Before(b, c)
    ensures Before(a, c)
  {
    if a != "" && a[0] == b[0] == c[0] {
      BeforeIsTransitive(a[1..], b[1..], c[1..]);
    }
  }

  predicate Sorted(tags: seq<string>) {
    forall i, j :: 0 <= i < j < |tags| ==> Before(tags[i], tags[j])
  }

  function Insert(tags: seq<string>, tag: string): (r: seq<string>)
    ensures forall x :: x in r <==> x in tags || x == tag
  {
    if tags == [] then [tag]
    else if tags[0] == tag then tags
    else if Before(tag, tags[0]) then [tag] + tags
    else
      assert tags == [tags[0]] + tags[1..];
      [tags[0]] + Insert(tags[1..], tag)
  }

  // sorted(set(tags))
  function SortedTags(tags: seq<string>): (r: seq<string>)
    ensures forall x :: x in r <==> x in tags
  {
    if tags == [] then []
    else
      var n := |tags| - 1;
      assert tags == tags[..n] + [tags[n]];
      Insert(SortedTags(tags[..n]), tags[n])
  }

  lemma {:induction false} InsertKeepsSorted(tags: seq<string>, tag: string)
    requires Sorted(tags)
    ensures Sorted(Insert(tags, tag))
  {
    if tags != [] && tags[0] != tag {
      BeforeIsTotal(tag, tags[0]);
      if Before(tag, tags[0]) {
        forall k | 0 < k < |tags| ensures Before(tag, tags[k]) {
          BeforeIsTransitive(tag, tags[0], tags[k]);
        }
      } else {
        var rest := Insert(tags[1..], tag);
        InsertKeepsSorted(tags[1..], tag);
        forall k | 0 <= k < |rest| ensures Before(tags[0], rest[k]) {
          assert rest[k] in rest;
        }
      }
    }
  }

  lemma {:induction false} SortedTagsAreSorted(tags: seq<string>)
    ensures Sorted(SortedTags(tags))
  {
    if tags != [] {
      SortedTagsAreSorted(tags[..|tags| - 1]);
      InsertKeepsSorted(SortedTags(tags[..|tags| - 1]), tags[|tags| - 1]);
    }
  }

  lemma FirstOfSorted(tags: seq<string>, other: seq<string>)
    requires Sorted(tags) && Sorted(other) && tags != [] && forall x :: x in tags <==> x in other
    ensures other != [] && tags[0] == other[0]
    ensures forall x :: x in tags[1..] <==> x in other[1..]
  {
    assert tags[0] in other;
    var i :| 0 <= i < |other| && other[i] == tags[0];
    assert other[0] in tags;
    var j :| 0 <= j < |tags| && tags[j] == other[0];
    BeforeIsTotal(tags[0], other[0]);
    forall x ensures x in tags[1..] <==> x in tags && x != tags[0] {
      RestOfSorted(tags, x);
    }
    forall x ensures x in other[1..] <==> x in other && x != other[0] {
      RestOfSorted(other, x);
    }
  }

  lemma RestOfSorted(tags: seq<string>, x: string)
    requires Sorted(tags) && tags != []
    ensures x in tags[1..] <==> x in tags && x != tags[0]
  {
    assert tags == [tags[0]] + tags[1..];
    BeforeIsTotal(tags[0], tags[0]);
  }

  /** There is only one sorted list of the same tags. */
  lemma {:induction false} SortedIsUnique(tags: seq<string>, other: seq<string>)
    requires Sorted(tags) && Sorted(other) && forall x :: x in tags <==> x in other
    ensures tags == other
  {
    assert other == [] || other[0] in other;
    if tags != [] {
      FirstOfSorted(tags, other);
      SortedIsUnique(tags[1..], other[1..]);
      assert tags == [tags[0]] + tags[1..] && other == [other[0]] + other[1..];
    }
  }
}
