/** When one merging pass leaves the duplicates of every group equally important. A group
  * is looked at through the importances of its active entries. */
module Levelling {
  import opened Wrappers
  import opened Memory
  import opened Consolidation

  // The importance of each entry that is active in the group, in store order.
  type View = seq<Option<int>>

  function ViewOf(entries: seq<Entry>, g: Group): (v: View)
    ensures |v| == |entries|
  {
    seq(|entries|, i requires 0 <= i < |entries| =>
      if ActiveIn(entries, g, i) then Some(entries[i].importance) else None)
  }

  // ---- The pass, seen on one group ----

  predicate Lower(v: View, i: nat, j: nat)
    requires i < |v| && j < |v|
  {
    v[i].Some? && v[j].Some? && v[j].value < v[i].value
  }

  function FirstLower(v: View, i: nat, j: nat): (r: nat)
    requires i < |v| && j <= |v|
    ensures j <= r <= |v| && forall k :: j <= k < r ==> !Lower(v, i, k)
    ensures r < |v| ==> Lower(v, i, r)
    decreases |v| - j
  {
    if j == |v| || Lower(v, i, j) then j else FirstLower(v, i, j + 1)
  }

  function Step(v: View, i: nat): (r: View)
    requires i < |v|
    ensures |r| == |v|
  {
    var j := FirstLower(v, i, 0);
    if j < |v| then v[j := v[i]][i := None] else v
  }

  function Pass(v: View, i: nat): (r: View)
    requires i <= |v|
    ensures |r| == |v|
    decreases |v| - i
  {
    if i == |v| then v else Pass(Step(v, i), i + 1)
  }

  lemma LowerIsMergeable(entries: seq<Entry>, g: Group, i: nat, j: nat)
    requires ActiveIn(entries, g, i) && j < |entries|
    ensures Mergeable(entries, i, j) <==> Lower(ViewOf(entries, g), i, j)
  {
  }

  lemma OwnStep(entries: seq<Entry>, g: Group, i: nat, now: int)
    requires ActiveIn(entries, g, i)
    ensures ViewOf(MergeOne(entries, i, now), g) == Step(ViewOf(entries, g), i)
  {
    var v, j := ViewOf(entries, g), FirstMergeable(entries, i, 0);
    forall k | 0 <= k < |entries| ensures Mergeable(entries, i, k) <==> Lower(v, i, k) {
      LowerIsMergeable(entries, g, i, k);
    }
    assert FirstLower(v, i, 0) == j;
    if j < |entries| {
      forall k | 0 <= k < |entries| ensures ViewOf(Merged(entries, i, j, now), g)[k] == Step(v, i)[k] {
        MergedActive(entries, i, j, now, g, k);
      }
    }
  }

  lemma OtherStep(entries: seq<Entry>, g: Group, i: nat, now: int)
    requires i < |entries| && !ActiveIn(entries, g, i)
    ensures ViewOf(MergeOne(entries, i, now), g) == Step(ViewOf(entries, g), i)
  {
    var v, j := ViewOf(entries, g), FirstMergeable(entries, i, 0);
    assert FirstLower(v, i, 0) == |v|;
    if j < |entries| {
      forall k | 0 <= k < |entries| ensures ViewOf(Merged(entries, i, j, now), g)[k] == v[k] {
        MergedActive(entries, i, j, now, g, k);
      }
    }
  }

  lemma {:induction false} PassOf(entries: seq<Entry>, g: Group, i: nat, now: int)
    requires i <= |entries|
    ensures ViewOf(MergePass(entries, i, now), g) == Pass(ViewOf(entries, g), i)
    decreases |entries| - i
  {
    if i < |entries| {
      if ActiveIn(entries, g, i) {
        OwnStep(entries, g, i, now);
      } else {
        OtherStep(entries, g, i, now);
      }
      PassOf(MergeOne(entries, i, now), g, i + 1, now);
    }
  }

  // ---- Counting the less important ----

  // All active entries are equally important.
  predicate Even(v: View) {
    forall i, j :: 0 <= i < |v| && 0 <= j < |v| ==> !Lower(v, i, j)
  }

  predicate AtMost(v: View, m: int) {
    forall i :: 0 <= i < |v| && v[i].Some? ==> v[i].value <= m
  }

  predicate Has(v: View, m: int) {
    exists i :: 0 <= i < |v| && v[i] == Some(m)
  }

  predicate Low(v: View, m: int, i: nat)
    requires i < |v|
  {
    v[i].Some? && v[i].value < m
  }

  // How many of the first n are less important than m.
  function Lows(v: View, m: int, n: nat): nat
    requires n <= |v|
  {
    if n == 0 then 0 else Lows(v, m, n - 1) + if Low(v, m, n - 1) then 1 else 0
  }

  // How many more of the first n are less important than m than are not.
  function Excess(v: View, m: int, n: nat): int
    requires n <= |v|
  {
    if n == 0 then 0
    else Excess(v, m, n - 1) + if Low(v, m, n - 1) then 1 else if v[n - 1].Some? then -1 else 0
  }

  /** At some point in store order the most important have outnumbered the others, or in
    * the end they are no fewer. */
  predicate Outweighed(v: View, m: int) {
    (exists n :: 0 <= n <= |v| && Excess(v, m, n) < 0) || Excess(v, m, |v|) <= 0
  }

  lemma {:induction false} LowsAt(v: View, m: int, n: nat)
    requires n <= |v|
    ensures Lows(v, m, n) > 0 <==> exists i :: 0 <= i < n && Low(v, m, i)
  {
    if n > 0 {
      LowsAt(v, m, n - 1);
    }
  }

  // One place changes.
  lemma {:induction false} LowsUpdated(v: View, m: int, n: nat, i: nat, x: Option<int>)
    requires n <= |v| && i < |v|
    ensures Lows(v[i := x], m, n) == Lows(v, m, n)
      + if i >= n then 0 else (if x.Some? && x.value < m then 1 else 0) - if Low(v, m, i) then 1 else 0
  {
    if n > 0 {
      LowsUpdated(v, m, n - 1, i, x);
    }
  }

  lemma StepLows(v: View, m: int, i: nat, n: nat)
    requires i < |v| && n <= |v|
    ensures var j := FirstLower(v, i, 0);
      Lows(Step(v, i), m, n) == Lows(v, m, n)
        + if j == |v| then 0 else
          (if j >= n then 0 else (if Low(v, m, i) then 1 else 0) - if Low(v, m, j) then 1 else 0)
          - if i < n && Low(v, m, i) then 1 else 0
  {
    var j := FirstLower(v, i, 0);
    if j < |v| {
      LowsUpdated(v, m, n, j, v[i]);
      LowsUpdated(v[j := v[i]], m, n, i, None);
    }
  }

  // ---- Two ways a pass can stand ----

  // What is still to come is as it was, as far as being less important than m goes.
  ghost predicate SameAhead(start: View, v: View, m: int, i: nat) {
    |v| == |start|
    && forall p :: i <= p < |v| ==> (v[p].Some? <==> start[p].Some?) && (Low(v, m, p) <==> Low(start, m, p))
  }

  // No more of the less important have been kept than are in excess.
  ghost predicate Counting(start: View, v: View, m: int, i: nat) {
    i <= |v| && AtMost(v, m) && SameAhead(start, v, m, i) && Lows(v, m, i) <= Excess(start, m, i)
  }

  // None of the less important has been kept, and one of the most important goes before
  // every one still to come.
  ghost predicate Bubbling(v: View, m: int, i: nat) {
    i <= |v| && AtMost(v, m) && forall j :: 0 <= j < |v| && Low(v, m, j) ==> Before(v, m, i, j)
  }

  predicate Before(v: View, m: int, i: nat, j: nat)
    requires j < |v|
  {
    exists p :: i <= p < j && v[p] == Some(m)
  }

  lemma BubblingStep(v: View, m: int, i: nat)
    requires Bubbling(v, m, i) && i < |v|
    ensures Bubbling(Step(v, i), m, i + 1)
  {
    var j, after := FirstLower(v, i, 0), Step(v, i);
    if v[i].Some? {
      assert !Low(v, m, i);
    }
    forall k | 0 <= k < |after| && Low(after, m, k) ensures Before(after, m, i + 1, k) {
      assert Low(v, m, k) && Before(v, m, i, k);
      var p :| i <= p < k && v[p] == Some(m);
      assert v[i] == Some(m) ==> Lower(v, i, k);
      if j < |v| {
        assert Low(v, m, j) && Before(v, m, i, j);
        assert Lower(v, i, k) && j < k && after[j] == Some(m);
      } else {
        assert after[p] == Some(m);
      }
    }
  }

  // One of the most important comes when none of the others is kept.
  lemma BubblingBegins(v: View, m: int, i: nat)
    requires i < |v| && AtMost(v, m) && v[i] == Some(m) && Lows(v, m, i) == 0
    ensures Bubbling(Step(v, i), m, i + 1)
  {
    LowsAt(v, m, i);
    var j, after := FirstLower(v, i, 0), Step(v, i);
    forall k | 0 <= k < |after| && Low(after, m, k) ensures Before(after, m, i + 1, k) {
      LowAfterStep(v, m, i, k);
      assert i < j < k && after[j] == Some(m);
    }
  }

  // What is less important after the most important at i was looked at, lies beyond the first lower one.
  lemma LowAfterStep(v: View, m: int, i: nat, k: nat)
    requires i < |v| && v[i] == Some(m) && k < |v| && Low(Step(v, i), m, k)
    ensures Low(v, m, k) && FirstLower(v, i, 0) < k && Low(v, m, FirstLower(v, i, 0))
  {
    assert Low(v, m, k) && Lower(v, i, k);
  }

  // A less important entry comes: at most it is kept.
  lemma LowStep(start: View, v: View, m: int, i: nat)
    requires Counting(start, v, m, i) && i < |v| && Low(v, m, i)
    ensures Counting(start, Step(v, i), m, i + 1)
  {
    StepLows(v, m, i, i + 1);
    StepLows(v, m, i, i);
  }

  // One of the most important comes and some other is kept: that one goes.
  lemma TopStep(start: View, v: View, m: int, i: nat)
    requires Counting(start, v, m, i) && i < |v| && v[i] == Some(m) && Lows(v, m, i) > 0
    ensures Counting(start, Step(v, i), m, i + 1) && Lows(Step(v, i), m, i + 1) == Lows(v, m, i) - 1
  {
    LowsAt(v, m, i);
    var k :| 0 <= k < i && Low(v, m, k);
    assert Lower(v, i, k);
    assert FirstLower(v, i, 0) <= k;
    StepLows(v, m, i, i + 1);
  }

  lemma IdleStep(start: View, v: View, m: int, i: nat)
    requires Counting(start, v, m, i) && i < |v| && v[i].None?
    ensures Counting(start, Step(v, i), m, i + 1) && Step(v, i) == v
  {
  }

  lemma {:induction false} OutweighedIsLevelled(start: View, v: View, m: int, i: nat)
    requires i <= |v| && |v| == |start| && (Counting(start, v, m, i) || Bubbling(v, m, i)) && Outweighed(start, m)
    requires Bubbling(v, m, i) || Excess(start, m, |v|) <= 0 || exists n :: i <= n <= |v| && Excess(start, m, n) < 0
    ensures forall k :: 0 <= k < |v| ==> !Low(Pass(v, i), m, k)
    ensures AtMost(Pass(v, i), m)
    decreases |v| - i
  {
    if i == |v| {
      LowsAt(v, m, i);
    } else if Bubbling(v, m, i) {
      BubblingStep(v, m, i);
      OutweighedIsLevelled(start, Step(v, i), m, i + 1);
    } else {
      if v[i].None? {
        IdleStep(start, v, m, i);
      } else if Low(v, m, i) {
        LowStep(start, v, m, i);
      } else if Lows(v, m, i) > 0 {
        TopStep(start, v, m, i);
      } else {
        BubblingBegins(v, m, i);
      }
      OutweighedIsLevelled(start, Step(v, i), m, i + 1);
    }
  }

  lemma ViewIsLevelled(v: View, m: int)
    requires AtMost(v, m) && Outweighed(v, m)
    ensures Even(Pass(v, 0))
  {
    assert Counting(v, v, m, 0);
    assert Excess(v, m, |v|) <= 0 || exists n :: 0 <= n <= |v| && Excess(v, m, n) < 0;
    OutweighedIsLevelled(v, v, m, 0);
    var after := Pass(v, 0);
    forall i, j | 0 <= i < |after| && 0 <= j < |after| ensures !Lower(after, i, j) {
      assert !Low(after, m, i) && !Low(after, m, j);
    }
  }

  // ---- Two importances: the exact condition ----

  predicate Two(v: View, m: int, low: int) {
    low < m && forall i :: 0 <= i < |v| && v[i].Some? ==> v[i].value == m || v[i].value == low
  }

  // Exactly the excess has been kept.
  ghost predicate Balanced(start: View, v: View, m: int, low: int, i: nat) {
    Counting(start, v, m, i) && Two(v, m, low) && Lows(v, m, i) == Excess(start, m, i)
  }

  lemma BalancedStep(start: View, v: View, m: int, low: int, i: nat)
    requires Balanced(start, v, m, low, i) && i < |v| && Excess(start, m, i + 1) >= 0
    ensures Balanced(start, Step(v, i), m, low, i + 1)
  {
    if v[i].None? {
      IdleStep(start, v, m, i);
    } else if Low(v, m, i) {
      LowStep(start, v, m, i);
      assert FirstLower(v, i, 0) == |v|;
    } else {
      TopStep(start, v, m, i);
    }
  }

  lemma {:induction false} KeptAreTheExcess(start: View, v: View, m: int, low: int, i: nat)
    requires Balanced(start, v, m, low, i) && forall n :: i <= n <= |v| ==> Excess(start, m, n) >= 0
    ensures Lows(Pass(v, i), m, |v|) == Excess(start, m, |v|)
    decreases |v| - i
  {
    if i < |v| {
      BalancedStep(start, v, m, low, i);
      KeptAreTheExcess(start, Step(v, i), m, low, i + 1);
    }
  }

  lemma {:induction false} PassHas(v: View, m: int, i: nat)
    requires i <= |v| && AtMost(v, m) && Has(v, m)
    ensures Has(Pass(v, i), m)
    decreases |v| - i
  {
    if i < |v| {
      var p :| 0 <= p < |v| && v[p] == Some(m);
      var j := FirstLower(v, i, 0);
      assert j < |v| ==> Step(v, i)[if p == i then j else p] == Some(m);
      PassHas(Step(v, i), m, i + 1);
    }
  }

  /** With two importances, the pass makes them equal if and only if the greater one
    * outweighs the other. */
  lemma TwoAreLevelledExactlyWhenOutweighed(v: View, m: int, low: int)
    requires Two(v, m, low) && Has(v, m)
    ensures Even(Pass(v, 0)) <==> Outweighed(v, m)
  {
    if Outweighed(v, m) {
      ViewIsLevelled(v, m);
    } else {
      assert forall n :: 0 <= n <= |v| ==> Excess(v, m, n) >= 0;
      KeptAreTheExcess(v, v, m, low, 0);
      PassHas(v, m, 0);
      var after := Pass(v, 0);
      LowsAt(after, m, |v|);
      var i :| 0 <= i < |after| && Low(after, m, i);
      var p :| 0 <= p < |after| && after[p] == Some(m);
      assert Lower(after, p, i);
    }
  }

  // With three importances a group may be levelled although the greatest is outnumbered.
  lemma RisingImportancesAreLevelled(a: int, b: int, c: int)
    requires a < b < c
    ensures var v := [Some(a), Some(b), Some(c)]; Even(Pass(v, 0)) && !Outweighed(v, c)
  {
    var v := [Some(a), Some(b), Some(c)];
    assert FirstLower(v, 0, 0) == 3 && FirstLower(v, 1, 0) == 0;
    var w := Step(v, 1);
    assert w == [Some(b), None, Some(c)] && FirstLower(w, 2, 0) == 0;
    var x := Step(w, 2);
    assert x == [Some(c), None, None];
    assert Pass(v, 0) == Pass(v, 1) == Pass(w, 2) == Pass(x, 3) == x;
    RisingExcess(v, c);
  }

  lemma RisingExcess(v: View, m: int)
    requires |v| == 3 && v[2] == Some(m) && Low(v, m, 0) && Low(v, m, 1)
    ensures !Outweighed(v, m)
  {
    var n := 0;
    assert Excess(v, m, n) == 0;
    assert Excess(v, m, n + 1) == 1;
    assert Excess(v, m, n + 2) == 2;
    assert Excess(v, m, n + 3) == 1;
  }

  // ---- All groups ----

  lemma LevelIsEven(entries: seq<Entry>)
    ensures Level(entries) <==> forall g :: Even(ViewOf(entries, g))
  {
    if forall g :: Even(ViewOf(entries, g)) {
      forall i: nat, j: nat ensures !Mergeable(entries, i, j) {
        if i < |entries| && j < |entries| && !entries[i].archived {
          var g := GroupOf(entries[i]);
          assert Even(ViewOf(entries, g));
          LowerIsMergeable(entries, g, i, j);
        }
      }
    }
    if Level(entries) {
      forall g ensures Even(ViewOf(entries, g)) {
        forall i, j | 0 <= i < |entries| && 0 <= j < |entries| ensures !Lower(ViewOf(entries, g), i, j) {
          if ActiveIn(entries, g, i) {
            LowerIsMergeable(entries, g, i, j);
          }
        }
      }
    }
  }

  // In every group the most important outweigh the others.
  ghost predicate AllOutweighed(entries: seq<Entry>) {
    forall g, m :: Top(entries, g, m) ==> Outweighed(ViewOf(entries, g), m)
  }

  lemma TopOfView(entries: seq<Entry>, g: Group, m: int)
    ensures Top(entries, g, m) <==> AtMost(ViewOf(entries, g), m) && Has(ViewOf(entries, g), m)
  {
    var v := ViewOf(entries, g);
    if Top(entries, g, m) {
      var i: nat :| ActiveIn(entries, g, i) && entries[i].importance == m;
      assert v[i] == Some(m);
    }
    if AtMost(v, m) && Has(v, m) {
      var i :| 0 <= i < |v| && v[i] == Some(m);
      assert ActiveIn(entries, g, i);
      forall k: nat | ActiveIn(entries, g, k) ensures entries[k].importance <= m {
        assert v[k] == Some(entries[k].importance);
      }
    }
  }

  lemma GroupIsLevelled(entries: seq<Entry>, g: Group, now: int)
    requires AllOutweighed(entries)
    ensures Even(ViewOf(MergePass(entries, 0, now), g))
  {
    var v := ViewOf(entries, g);
    PassOf(entries, g, 0, now);
    if k: nat :| ActiveIn(entries, g, k) {
      var m := entries[Greatest(entries, g, |entries|, k)].importance;
      assert Top(entries, g, m);
      TopOfView(entries, g, m);
      ViewIsLevelled(v, m);
    } else {
      assert Outweighed(v, 0) && AtMost(v, 0) by {
        NothingActive(v, 0, |v|);
      }
      ViewIsLevelled(v, 0);
    }
  }

  lemma {:induction false} NothingActive(v: View, m: int, n: nat)
    requires n <= |v| && forall i :: 0 <= i < n ==> v[i].None?
    ensures Excess(v, m, n) == 0
  {
    if n > 0 {
      NothingActive(v, m, n - 1);
    }
  }

  /** When in every group the most important entries outweigh the others, one pass leaves
    * the duplicates of every group equally important. */
  lemma OutweighedGroupsAreLevelled(entries: seq<Entry>, now: int)
    requires AllOutweighed(entries)
    ensures Level(MergePass(entries, 0, now))
  {
    forall g ensures Even(ViewOf(MergePass(entries, 0, now), g)) {
      GroupIsLevelled(entries, g, now);
    }
    LevelIsEven(MergePass(entries, 0, now));
  }

  // No group has three different importances.
  ghost predicate AtMostTwo(entries: seq<Entry>) {
    forall g, m :: Top(entries, g, m) ==> exists low :: Two(ViewOf(entries, g), m, low)
  }

  /** While no group has more than two importances, that is exactly when: one pass levels
    * all groups if and only if in each the greater importance outweighs the other. */
  lemma TwoImportancesAreLevelledExactlyWhenOutweighed(entries: seq<Entry>, now: int)
    requires AtMostTwo(entries)
    ensures Level(MergePass(entries, 0, now)) <==> AllOutweighed(entries)
  {
    if AllOutweighed(entries) {
      OutweighedGroupsAreLevelled(entries, now);
    }
    if Level(MergePass(entries, 0, now)) {
      LevelIsEven(MergePass(entries, 0, now));
      forall g, m | Top(entries, g, m) ensures Outweighed(ViewOf(entries, g), m) {
        var low :| Two(ViewOf(entries, g), m, low);
        TopOfView(entries, g, m);
        PassOf(entries, g, 0, now);
        TwoAreLevelledExactlyWhenOutweighed(ViewOf(entries, g), m, low);
        assert Even(ViewOf(MergePass(entries, 0, now), g));
      }
    }
  }

  // The first active entry of a group is as important as any.
  ghost predicate FirstIsGreatest(entries: seq<Entry>) {
    forall i: nat, j: nat, g ::
      ActiveIn(entries, g, i) && ActiveIn(entries, g, j) && (forall k: nat :: k < i ==> !ActiveIn(entries, g, k)) ==>
        entries[j].importance <= entries[i].importance
  }

  /** In particular when the first entry of each group is its most important. */
  lemma FirstGreatestIsLevelled(entries: seq<Entry>, now: int)
    requires FirstIsGreatest(entries)
    ensures Level(MergePass(entries, 0, now))
  {
    forall g, m | Top(entries, g, m) ensures Outweighed(ViewOf(entries, g), m) {
      var p: nat :| ActiveIn(entries, g, p) && entries[p].importance == m;
      var i := FirstActive(entries, g, p);
      var v := ViewOf(entries, g);
      NothingActive(v, m, i);
      assert v[i] == Some(entries[i].importance) && entries[p].importance <= entries[i].importance;
      assert Excess(v, m, i + 1) == -1;
    }
    OutweighedGroupsAreLevelled(entries, now);
  }

  lemma {:induction false} FirstActive(entries: seq<Entry>, g: Group, p: nat) returns (i: nat)
    requires ActiveIn(entries, g, p)
    ensures ActiveIn(entries, g, i) && forall k: nat :: k < i ==> !ActiveIn(entries, g, k)
  {
    i := p;
    if k: nat :| k < p && ActiveIn(entries, g, k) {
      i := FirstActive(entries, g, k);
    }
  }

  // Within a group importance does not grow in store order.
  ghost predicate NeverGrows(entries: seq<Entry>) {
    forall i: nat, j: nat, g :: i < j && ActiveIn(entries, g, i) && ActiveIn(entries, g, j) ==>
      entries[j].importance <= entries[i].importance
  }

  /** So also when importance does not grow within any group. */
  lemma NeverGrowingIsLevelled(entries: seq<Entry>, now: int)
    requires NeverGrows(entries)
    ensures Level(MergePass(entries, 0, now))
  {
    FirstGreatestIsLevelled(entries, now);
  }
}
