/** Forgetting: stale entries are archived, duplicates are merged into one another. */
module Consolidation {
  import opened Wrappers
  import opened Text
  import opened Words
  import opened Memory
  import opened Tags

  const DAY := 86_400_000_000 // in microseconds

  function Normal(content: string): string {
    Lower(Strip(content))
  }

  // Duplicates share this.
  datatype Group = Group(owner: string, kind: string, text: string)

  function GroupOf(e: Entry): Group {
    Group(e.owner, e.kind, Normal(e.content))
  }

  // The texts differ in nothing but the case of letters.
  predicate SameLetters(s: string, t: string) {
    |s| == |t| && forall i :: 0 <= i < |s| ==> SameLetter(s[i], t[i])
  }

  predicate SameLetter(a: char, b: char) {
    a == b || ('A' <= a <= 'Z' && b as int - a as int == 32) || ('A' <= b <= 'Z' && a as int - b as int == 32)
  }

  // So do the contents, but for the white space around them.
  ghost predicate SameContent(a: string, b: string) {
    exists s, t :: Trims(a, s) && Trims(b, t) && SameLetters(s, t)
  }

  lemma LowerIsSameLetters(s: string, t: string)
    ensures Lower(s) == Lower(t) <==> SameLetters(s, t)
  {
    if Lower(s) == Lower(t) {
      forall i | 0 <= i < |s| ensures SameLetter(s[i], t[i]) {
        assert Lower(s)[i] == Lower(t)[i];
      }
    }
    if SameLetters(s, t) {
      forall i | 0 <= i < |s| ensures Lower(s)[i] == Lower(t)[i] {
        assert SameLetter(s[i], t[i]);
      }
    }
  }

  /** Entries are duplicates exactly when they have one owner and kind and the same content, up
    * to the case of letters and the white space around it. */
  lemma DuplicatesExactlyOfSameContent(a: Entry, b: Entry)
    ensures GroupOf(a) == GroupOf(b) <==> a.owner == b.owner && a.kind == b.kind && SameContent(a.content, b.content)
  {
    forall t
      ensures Trims(a.content, t) <==> t == Strip(a.content)
      ensures Trims(b.content, t) <==> t == Strip(b.content)
    {
      StripTrims(a.content, t);
      StripTrims(b.content, t);
    }
    LowerIsSameLetters(Strip(a.content), Strip(b.content));
  }

  // ---- Staleness ----

  predicate IsStale(e: Entry, now: int, cutoff: int, minAccess: int) {
    (e.expiresAt.Some? && e.expiresAt.value < now)
    || (e.updatedAt < cutoff && e.accessCount < minAccess && e.importance < 4)
  }

  function Aged(e: Entry, now: int, cutoff: int, minAccess: int): Entry {
    if !e.archived && IsStale(e, now, cutoff, minAccess) then e.(archived := true, updatedAt := now) else e
  }

  function AllAged(entries: seq<Entry>, now: int, cutoff: int, minAccess: int): (r: seq<Entry>)
    ensures |r| == |entries|
  {
    seq(|entries|, i requires 0 <= i < |entries| => Aged(entries[i], now, cutoff, minAccess))
  }

  /** The first pass archives, at that instant, exactly the active entries that have expired, and
    * the little used and not important ones that nobody touched for the given number of days,
    * or for the days of a fact when none, or none at all, are given. */
  lemma ArchivesExactlyTheStale(
    entries: seq<Entry>, maxAgeDays: Option<int>, factTtlDays: int, minAccess: int, now: int, i: nat)
    requires i < |entries|
    ensures var e := entries[i];
      var days := match maxAgeDays case None => factTtlDays case Some(d) => if d == 0 then factTtlDays else d;
      var expired := e.expiresAt.Some? && now > e.expiresAt.value;
      var unused := now - e.updatedAt > days * 24 * 3600 * 1_000_000 && e.accessCount < minAccess && e.importance <= 3;
      AllAged(entries, now, now - Ttl(maxAgeDays, factTtlDays) * DAY, minAccess)[i]
      == if !e.archived && (expired || unused) then e.(archived := true, updatedAt := now) else e
  {
  }

  // How many archive flags were flipped among the first n entries.
  function Flips(before: seq<Entry>, after: seq<Entry>, n: nat): nat
    requires n <= |before| && n <= |after|
  {
    if n == 0 then
      0
    else
      Flips(before, after, n - 1) + if !before[n - 1].archived && after[n - 1].archived then 1 else 0
  }

  // ---- What a group holds ----

  predicate ActiveIn(entries: seq<Entry>, g: Group, i: nat) {
    i < |entries| && GroupOf(entries[i]) == g && !entries[i].archived
  }

  // m is the greatest importance active in the group.
  ghost predicate Top(entries: seq<Entry>, g: Group, m: int) {
    (exists i: nat :: ActiveIn(entries, g, i) && entries[i].importance == m)
    && forall i: nat :: ActiveIn(entries, g, i) ==> entries[i].importance <= m
  }

  ghost predicate Tagged(entries: seq<Entry>, g: Group, tag: string) {
    exists i: nat :: ActiveIn(entries, g, i) && tag in entries[i].tags
  }

  // Only importance, tags, the archive flag and the time of the change may change;
  // what is archived stays so.
  predicate SameNote(e: Entry, after: Entry) {
    after == e.(importance := after.importance, tags := after.tags, archived := after.archived,
      updatedAt := after.updatedAt)
    && (e.archived ==> after.archived)
  }

  ghost predicate SameNotes(entries: seq<Entry>, after: seq<Entry>) {
    |after| == |entries| && forall i :: 0 <= i < |entries| ==> SameNote(entries[i], after[i])
  }

  // Every group keeps its greatest importance and its tags.
  ghost predicate SameHoldings(entries: seq<Entry>, after: seq<Entry>) {
    (forall g, m :: Top(entries, g, m) <==> Top(after, g, m))
    && forall g, tag :: Tagged(entries, g, tag) <==> Tagged(after, g, tag)
  }

  // ---- One merge ----

  predicate Mergeable(entries: seq<Entry>, i: nat, j: nat) {
    i < |entries| && j < |entries| && i != j && !entries[i].archived && !entries[j].archived
    && GroupOf(entries[i]) == GroupOf(entries[j]) && entries[j].importance < entries[i].importance
  }

  // Entry i is archived in favour of the less important entry j.
  function Merged(entries: seq<Entry>, i: nat, j: nat, now: int): seq<Entry>
    requires i < |entries| && j < |entries|
  {
    var other := entries[j].(importance := entries[i].importance, tags := SortedTags(entries[j].tags + entries[i].tags),
      updatedAt := now);
    entries[j := other][i := entries[i].(archived := true, updatedAt := now)]
  }

  lemma MergedActive(entries: seq<Entry>, i: nat, j: nat, now: int, g: Group, k: nat)
    requires Mergeable(entries, i, j)
    ensures ActiveIn(Merged(entries, i, j, now), g, k) <==> ActiveIn(entries, g, k) && k != i
  {
  }

  lemma MergedGroup(entries: seq<Entry>, i: nat, j: nat, now: int, g: Group)
    requires Mergeable(entries, i, j)
    ensures forall k: nat :: ActiveIn(Merged(entries, i, j, now), g, k) <==> ActiveIn(entries, g, k) && k != i
    ensures ActiveIn(entries, g, i) <==> ActiveIn(entries, g, j)
  {
    forall k: nat ensures ActiveIn(Merged(entries, i, j, now), g, k) <==> ActiveIn(entries, g, k) && k != i {
      MergedActive(entries, i, j, now, g, k);
    }
  }

  lemma MergeKeepsTop(entries: seq<Entry>, i: nat, j: nat, now: int, g: Group, m: int)
    requires Mergeable(entries, i, j)
    ensures Top(entries, g, m) <==> Top(Merged(entries, i, j, now), g, m)
  {
    if Top(entries, g, m) {
      TopIsKept(entries, i, j, now, g, m);
    }
    if Top(Merged(entries, i, j, now), g, m) {
      TopWasThere(entries, i, j, now, g, m);
    }
  }

  lemma TopIsKept(entries: seq<Entry>, i: nat, j: nat, now: int, g: Group, m: int)
    requires Mergeable(entries, i, j) && Top(entries, g, m)
    ensures Top(Merged(entries, i, j, now), g, m)
  {
    MergedGroup(entries, i, j, now, g);
    var k: nat :| ActiveIn(entries, g, k) && entries[k].importance == m;
    assert ActiveIn(Merged(entries, i, j, now), g, if k == i then j else k);
  }

  lemma TopWasThere(entries: seq<Entry>, i: nat, j: nat, now: int, g: Group, m: int)
    requires Mergeable(entries, i, j) && Top(Merged(entries, i, j, now), g, m)
    ensures Top(entries, g, m)
  {
    var after := Merged(entries, i, j, now);
    MergedGroup(entries, i, j, now, g);
    var k: nat :| ActiveIn(after, g, k) && after[k].importance == m;
    assert ActiveIn(entries, g, if k == j then i else k);
    assert ActiveIn(entries, g, i) ==> ActiveIn(after, g, j);
  }

  lemma MergeKeepsTags(entries: seq<Entry>, i: nat, j: nat, now: int, g: Group, tag: string)
    requires Mergeable(entries, i, j)
    ensures Tagged(entries, g, tag) <==> Tagged(Merged(entries, i, j, now), g, tag)
  {
    var after := Merged(entries, i, j, now);
    forall k: nat ensures ActiveIn(after, g, k) <==> ActiveIn(entries, g, k) && k != i {
      MergedActive(entries, i, j, now, g, k);
    }
    assert ActiveIn(entries, g, i) <==> ActiveIn(entries, g, j);
    if Tagged(entries, g, tag) {
      var k: nat :| ActiveIn(entries, g, k) && tag in entries[k].tags;
      assert ActiveIn(after, g, if k == i then j else k);
    }
    if Tagged(after, g, tag) {
      var k: nat :| ActiveIn(after, g, k) && tag in after[k].tags;
      assert ActiveIn(entries, g, if k == j && tag !in entries[j].tags then i else k);
    }
  }

  lemma {:induction false} MergeFlips(before: seq<Entry>, entries: seq<Entry>, i: nat, j: nat, now: int, n: nat)
    requires Mergeable(entries, i, j) && |before| == |entries| && !before[i].archived && n <= |before|
    ensures Flips(before, Merged(entries, i, j, now), n) == Flips(before, entries, n) + if i < n then 1 else 0
  {
    if n > 0 {
      MergeFlips(before, entries, i, j, now, n - 1);
    }
  }

  // ---- The pass over all pairs ----

  // Within every group all active entries are equally important.
  ghost predicate Level(entries: seq<Entry>) {
    forall i: nat, j: nat :: !Mergeable(entries, i, j)
  }

  // What the merging pass keeps, after the entries before n have been looked at.
  ghost predicate Merging(start: seq<Entry>, entries: seq<Entry>, n: nat, merged: nat) {
    SameNotes(start, entries) && SameHoldings(start, entries)
    && merged == Flips(start, entries, |start|)
    && (merged == 0 ==> entries == start && forall i: nat, j: nat :: i < n ==> !Mergeable(start, i, j))
    && (merged > 0 ==> !Level(start))
  }

  lemma MergeStep(start: seq<Entry>, entries: seq<Entry>, i: nat, j: nat, now: int, merged: nat)
    requires Merging(start, entries, i, merged) && Mergeable(entries, i, j)
    ensures Merging(start, Merged(entries, i, j, now), i + 1, merged + 1)
  {
    var after := Merged(entries, i, j, now);
    forall g, m ensures Top(start, g, m) <==> Top(after, g, m) {
      MergeKeepsTop(entries, i, j, now, g, m);
    }
    forall g, tag ensures Tagged(start, g, tag) <==> Tagged(after, g, tag) {
      MergeKeepsTags(entries, i, j, now, g, tag);
    }
    assert !start[i].archived;
    MergeFlips(start, entries, i, j, now, |start|);
    if merged == 0 {
      assert Mergeable(start, i, j);
    }
  }

  lemma {:induction false} NoFlips(entries: seq<Entry>, n: nat)
    requires n <= |entries|
    ensures Flips(entries, entries, n) == 0
  {
    if n > 0 {
      NoFlips(entries, n - 1);
    }
  }

  // Looking at an entry that nothing can be merged into changes nothing.
  lemma SkipStep(start: seq<Entry>, entries: seq<Entry>, i: nat, merged: nat)
    requires Merging(start, entries, i, merged) && forall j: nat :: !Mergeable(entries, i, j)
    ensures Merging(start, entries, i + 1, merged)
  {
  }

  function Ttl(maxAgeDays: Option<int>, factTtlDays: int): int {
    if maxAgeDays.None? || maxAgeDays.value == 0 then factTtlDays else maxAgeDays.value
  }

  method ArchiveStale(entries: array<Entry>, now: int, cutoff: int, minAccess: int) returns (archived: nat)
    modifies entries
    ensures entries[..] == AllAged(old(entries[..]), now, cutoff, minAccess)
    ensures archived == Flips(old(entries[..]), entries[..], entries.Length)
  {
    archived := 0;
    ghost var start, aged := entries[..], AllAged(entries[..], now, cutoff, minAccess);
    for i := 0 to entries.Length
      invariant forall k :: 0 <= k < i ==> entries[k] == aged[k]
      invariant forall k :: i <= k < entries.Length ==> entries[k] == start[k]
      invariant archived == Flips(start, aged, i)
    {
      assert aged[i] == Aged(entries[i], now, cutoff, minAccess);
      if !entries[i].archived && IsStale(entries[i], now, cutoff, minAccess) {
        entries[i] := entries[i].(archived := true, updatedAt := now);
        archived := archived + 1;
      }
    }
    assert entries[..] == aged;
  }

  // The first entry from j on that entry i can be merged into.
  function FirstMergeable(entries: seq<Entry>, i: nat, j: nat): (r: nat)
    requires j <= |entries|
    ensures j <= r <= |entries| && forall k :: j <= k < r ==> !Mergeable(entries, i, k)
    ensures r < |entries| ==> Mergeable(entries, i, r)
    decreases |entries| - j
  {
    if j == |entries| || Mergeable(entries, i, j) then j else FirstMergeable(entries, i, j + 1)
  }

  function MergeOne(entries: seq<Entry>, i: nat, now: int): (r: seq<Entry>)
    requires i < |entries|
    ensures |r| == |entries|
  {
    var j := FirstMergeable(entries, i, 0);
    if j < |entries| then Merged(entries, i, j, now) else entries
  }

  // The entry can take another one in: an active, less important duplicate.
  ghost predicate TakesIn(entries: seq<Entry>, i: nat, j: nat) {
    i < |entries| && j < |entries| && i != j && !entries[i].archived && !entries[j].archived
    && entries[j].owner == entries[i].owner && entries[j].kind == entries[i].kind
    && SameContent(entries[i].content, entries[j].content) && entries[j].importance < entries[i].importance
  }

  /** One turn of the merging pass: the first entry that can take entry i in gets its importance
    * and both entries' tags, entry i is archived, and nothing else changes. */
  lemma MergesIntoTheFirst(entries: seq<Entry>, i: nat, now: int)
    requires i < |entries|
    ensures var after := MergeOne(entries, i, now);
      if j: nat :| TakesIn(entries, i, j) && forall k :: 0 <= k < j ==> !TakesIn(entries, i, k) then
        (forall k :: 0 <= k < |entries| && k != i && k != j ==> after[k] == entries[k])
        && after[i] == entries[i].(archived := true, updatedAt := now)
        && after[j] == entries[j].(importance := entries[i].importance, updatedAt := now, tags := after[j].tags)
        && Sorted(after[j].tags)
        && forall tag :: tag in after[j].tags <==> tag in entries[i].tags || tag in entries[j].tags
      else after == entries
  {
    forall j: nat ensures TakesIn(entries, i, j) <==> Mergeable(entries, i, j) {
      if i < |entries| && j < |entries| {
        DuplicatesExactlyOfSameContent(entries[i], entries[j]);
      }
    }
    var first := FirstMergeable(entries, i, 0);
    if first < |entries| {
      SortedTagsAreSorted(entries[first].tags + entries[i].tags);
    }
  }

  // Every active entry from i on goes into the first less important duplicate.
  function MergePass(entries: seq<Entry>, i: nat, now: int): (r: seq<Entry>)
    requires i <= |entries|
    ensures |r| == |entries|
    decreases |entries| - i
  {
    if i == |entries| then entries else MergePass(MergeOne(entries, i, now), i + 1, now)
  }

  lemma OneKeeps(start: seq<Entry>, entries: seq<Entry>, i: nat, now: int, merged: nat)
    requires i < |entries| && Merging(start, entries, i, merged)
    ensures var counted := merged + if FirstMergeable(entries, i, 0) < |entries| then 1 else 0;
      Merging(start, MergeOne(entries, i, now), i + 1, counted)
  {
    var j := FirstMergeable(entries, i, 0);
    if j < |entries| {
      MergeStep(start, entries, i, j, now, merged);
    } else {
      SkipStep(start, entries, i, merged);
    }
  }

  lemma {:induction false} PassKeeps(
    start: seq<Entry>, entries: seq<Entry>, i: nat, now: int, merged: nat)
    returns (total: nat)
    requires i <= |entries| && Merging(start, entries, i, merged)
    ensures Merging(start, MergePass(entries, i, now), |entries|, total)
    decreases |entries| - i
  {
    total := merged;
    if i < |entries| {
      OneKeeps(start, entries, i, now, merged);
      total := merged + if FirstMergeable(entries, i, 0) < |entries| then 1 else 0;
      total := PassKeeps(start, MergeOne(entries, i, now), i + 1, now, total);
    }
  }

  /** The merging pass keeps, for every group of duplicates, its greatest importance and
    * its tags; it changes nothing exactly when all duplicates are equally important. */
  lemma MergePassKeepsEveryGroup(entries: seq<Entry>, now: int)
    ensures var after := MergePass(entries, 0, now);
      SameNotes(entries, after) && SameHoldings(entries, after)
      && (Level(entries) <==> Flips(entries, after, |entries|) == 0)
      && (Level(entries) <==> after == entries)
  {
    NoFlips(entries, |entries|);
    var total := PassKeeps(entries, entries, 0, now, 0);
  }

  // The inner loop: entry i goes into the first less important duplicate.
  method MergeInto(entries: array<Entry>, i: nat, now: int) returns (hit: bool)
    requires i < entries.Length
    modifies entries
    ensures entries[..] == MergeOne(old(entries[..]), i, now)
    ensures hit == (FirstMergeable(old(entries[..]), i, 0) < entries.Length)
  {
    hit := false;
    ghost var start := entries[..];
    if entries[i].archived {
      return;
    }
    for j := 0 to entries.Length
      invariant !hit && entries[..] == start && !start[i].archived
      invariant forall k :: 0 <= k < j ==> !Mergeable(start, i, k)
    {
      assert entries[j] == start[j] && entries[i] == start[i];
      if j == i || entries[j].archived || GroupOf(entries[j]) != GroupOf(entries[i]) {
        continue;
      }
      if entries[j].importance >= entries[i].importance {
        continue;
      }
      assert Mergeable(start, i, j);
      assert FirstMergeable(start, i, 0) == j;
      entries[j] := entries[j].(
        importance := entries[i].importance, tags := SortedTags(entries[j].tags + entries[i].tags), updatedAt := now);
      entries[i] := entries[i].(archived := true, updatedAt := now);
      assert entries[..] == Merged(start, i, j, now);
      hit := true;
      break;
    }
  }

  method MergeDuplicates(entries: array<Entry>, now: int) returns (merged: nat)
    modifies entries
    ensures entries[..] == MergePass(old(entries[..]), 0, now)
    ensures merged == Flips(old(entries[..]), entries[..], entries.Length)
  {
    merged := 0;
    ghost var start := entries[..];
    PassStarts(start, now);
    for i := 0 to entries.Length
      invariant Passing(start, entries[..], i, now, merged)
    {
      PassGoesOn(start, entries[..], i, now, merged);
      var hit := MergeInto(entries, i, now);
      if hit {
        merged := merged + 1;
      }
    }
  }

  // The entries before i are done; going on from here gives what the whole pass gives.
  ghost predicate Passing(start: seq<Entry>, entries: seq<Entry>, i: nat, now: int, merged: nat) {
    |entries| == |start| && i <= |start| && Merging(start, entries, i, merged)
    && MergePass(entries, i, now) == MergePass(start, 0, now)
  }

  lemma PassStarts(start: seq<Entry>, now: int)
    ensures Passing(start, start, 0, now, 0)
  {
    NoFlips(start, |start|);
  }

  lemma PassGoesOn(start: seq<Entry>, entries: seq<Entry>, i: nat, now: int, merged: nat)
    requires Passing(start, entries, i, now, merged) && i < |entries|
    ensures Passing(start, MergeOne(entries, i, now), i + 1, now,
                    merged + if FirstMergeable(entries, i, 0) < |entries| then 1 else 0)
  {
    OneKeeps(start, entries, i, now, merged);
  }

  /** Archives what is stale, then merges duplicates. No entry is removed, every group
    * that is active after the first pass stays active with its greatest importance and
    * its tags, and the two counts are those of the flags flipped. Nothing is merged
    * exactly when all duplicates are equally important. */
  method Consolidate(entries: array<Entry>, maxAgeDays: Option<int>, factTtlDays: int, minAccess: int, now: int)
    returns (archived: nat, merged: nat)
    modifies entries
    ensures var start := old(entries[..]);
      var freshEnough := AllAged(start, now, now - Ttl(maxAgeDays, factTtlDays) * DAY, minAccess);
      archived == Flips(start, freshEnough, |start|)
      && merged == Flips(freshEnough, entries[..], |start|)
      && entries[..] == MergePass(freshEnough, 0, now)
      && SameNotes(freshEnough, entries[..]) && SameHoldings(freshEnough, entries[..])
      && (merged == 0 <==> Level(freshEnough))
  {
    var cutoff := now - Ttl(maxAgeDays, factTtlDays) * DAY;
    archived := ArchiveStale(entries, now, cutoff, minAccess);
    MergePassKeepsEveryGroup(entries[..], now);
    merged := MergeDuplicates(entries, now);
  }

  // ---- What the counts and the survivors mean ----

  /** A group that is active has a greatest importance, so it keeps an active entry. */
  lemma EveryGroupSurvives(entries: seq<Entry>, after: seq<Entry>, i: nat)
    requires SameHoldings(entries, after) && i < |entries| && !entries[i].archived
    ensures exists j: nat :: ActiveIn(after, GroupOf(entries[i]), j) && after[j].importance >= entries[i].importance
  {
    var g := GroupOf(entries[i]);
    var k := Greatest(entries, g, |entries|, i);
    assert Top(entries, g, entries[k].importance);
    var j: nat :| ActiveIn(after, g, j) && after[j].importance == entries[k].importance;
  }

  ghost function Greatest(entries: seq<Entry>, g: Group, n: nat, k: nat): (r: nat)
    requires n <= |entries| && ActiveIn(entries, g, k)
    ensures ActiveIn(entries, g, r) && entries[r].importance >= entries[k].importance
    ensures forall i: nat :: i < n && ActiveIn(entries, g, i) ==> entries[i].importance <= entries[r].importance
  {
    if n == 0 then k
    else if ActiveIn(entries, g, n - 1) && entries[n - 1].importance > entries[k].importance
    then Greatest(entries, g, n - 1, n - 1)
    else Greatest(entries, g, n - 1, k)
  }

  /** The count is the number of entries that left the active set. */
  lemma {:induction false} FlipsCountsTheArchived(before: seq<Entry>, after: seq<Entry>, n: nat)
    requires n <= |before| && n <= |after|
    ensures Flips(before, after, n) == |set i: nat | i < n && !before[i].archived && after[i].archived|
  {
    var flipped := set i: nat | i < n && !before[i].archived && after[i].archived;
    if n > 0 {
      FlipsCountsTheArchived(before, after, n - 1);
      var earlier := set i: nat | i < n - 1 && !before[i].archived && after[i].archived;
      assert flipped == if !before[n - 1].archived && after[n - 1].archived then earlier + {n - 1} else earlier;
    }
  }

  /** One pass may leave duplicates that are not equally important: of three, the last
    * finds nothing less important once the second has gone into the first. */
  lemma UnequalDuplicatesMayRemain(a: Entry, b: Entry, c: Entry, now: int)
    requires GroupOf(a) == GroupOf(b) == GroupOf(c) && !a.archived && !b.archived && !c.archived
    requires a.importance < c.importance < b.importance
    ensures !Level(MergePass([a, b, c], 0, now))
  {
    var s0 := [a, b, c];
    assert !Mergeable(s0, 0, 0) && !Mergeable(s0, 0, 1) && !Mergeable(s0, 0, 2);
    assert MergeOne(s0, 0, now) == s0;
    var s1 := Merged(s0, 1, 0, now);
    assert Mergeable(s0, 1, 0) && MergeOne(s0, 1, now) == s1;
    assert !Mergeable(s1, 2, 0) && !Mergeable(s1, 2, 1) && !Mergeable(s1, 2, 2);
    assert MergeOne(s1, 2, now) == s1;
    assert MergePass(s0, 0, now) == MergePass(s0, 1, now) == MergePass(s1, 2, now) == MergePass(s1, 3, now) == s1;
    assert Mergeable(s1, 0, 2);
  }
}
