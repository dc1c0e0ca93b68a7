/** The way a run takes through its stage list while every stage succeeds and every
  * approval is granted, and how far along it the engine serves the run: one call performs
  * at most 200 graph steps, and only an approval stage begins a new call. */
module Ways {
  import opened Wrappers
  import opened Planning
  import opened WorkflowGraph
  import opened Engine
  import opened Sequences

  // A position in the list, and whether the gate has been asked.
  datatype Spot = Spot(place: nat, gated: bool)

  // Which spot comes after which, and where approval is asked.
  datatype Course = Course(size: nat, onward: Spot -> Option<Spot>, asks: Spot -> bool)

  ghost predicate Planned(c: Course) {
    0 < c.size
    && forall s: Spot :: s.place < c.size && c.onward(s).Some? ==> c.onward(s).value.place < c.size
  }

  // The n-th spot on the way, counted from 0.
  function Way(c: Course, n: nat): (r: Option<Spot>)
    requires Planned(c)
    ensures r.Some? ==> r.value.place < c.size
  {
    if n == 0 then Some(Spot(0, false))
    else
      match Way(c, n - 1)
      case None => None
      case Some(s) => c.onward(s)
  }

  predicate Asks(c: Course, n: nat)
    requires Planned(c)
  {
    Way(c, n).Some? && c.asks(Way(c, n).value)
  }

  // One of the m stages from the n-th on asks for approval.
  ghost predicate AsksWithin(c: Course, n: nat, m: nat)
    requires Planned(c)
  {
    exists k: nat :: n <= k < n + m && Asks(c, k)
  }

  // Of the stages that a resumed call performs from the n-th on, one asks for approval.
  ghost predicate AsksSoon(c: Course, n: nat)
    requires Planned(c)
  {
    AsksWithin(c, n, RECURSION_LIMIT - 1)
  }

  /** The n-th stage on the way is performed before a call gives up: the first call performs
    * 200 stages, every later one applies the decision and performs 199. */
  ghost predicate Served(c: Course, n: nat)
    requires Planned(c)
  {
    Way(c, n).Some?
    && (n >= RECURSION_LIMIT ==> AsksWithin(c, 0, RECURSION_LIMIT))
    && forall i: nat :: 1 <= i && i + RECURSION_LIMIT - 1 <= n ==> AsksSoon(c, i)
  }

  lemma {:induction false} WayBefore(c: Course, k: nat, n: nat)
    requires Planned(c) && k <= n && Way(c, n).Some?
    ensures Way(c, k).Some?
  {
    if k < n {
      WayBefore(c, k, n - 1);
    }
  }

  // Within the first call everything is served.
  lemma SoonIsServed(c: Course, n: nat)
    requires Planned(c) && Way(c, n).Some? && n < RECURSION_LIMIT
    ensures Served(c, n)
  {
  }

  lemma ServedBefore(c: Course, k: nat, n: nat)
    requires Planned(c) && k <= n && Served(c, n)
    ensures Served(c, k)
  {
    WayBefore(c, k, n);
  }

  // From equal spots the way goes on alike.
  lemma {:induction false} GoesOnAlike(c: Course, k: nat, l: nat, m: nat)
    requires Planned(c) && Way(c, k) == Way(c, l)
    ensures Way(c, k + m) == Way(c, l + m)
  {
    if m > 0 {
      GoesOnAlike(c, k, l, m - 1);
    }
  }

  // ---- Coming round ----

  lemma {:induction false} NoMoreThanBelow(s: seq<nat>, n: nat)
    requires Distinct(s) && forall x :: x in s ==> x < n
    ensures |s| <= n
    decreases n
  {
    if s != [] {
      assert s[0] in s;
      var rest := s;
      if i :| 0 <= i < |s| && s[i] == n - 1 {
        rest := s[..i] + s[i + 1..];
        forall x | x in rest ensures x < n - 1 {
          var k :| 0 <= k < |rest| && rest[k] == x;
          var j := if k < i then k else k + 1;
          assert x == s[j] && s[j] in s && s[j] != s[i];
        }
      }
      NoMoreThanBelow(rest, n - 1);
    }
  }

  function Number(c: Course, s: Spot): nat {
    if s.gated then c.size + s.place else s.place
  }

  // There are two spots at every position, so a long way meets one twice.
  lemma SomeSpotComesRound(c: Course) returns (k: nat, l: nat)
    requires Planned(c) && Way(c, 2 * c.size).Some?
    ensures k < l <= 2 * c.size && Way(c, k) == Way(c, l) && Way(c, l).Some?
  {
    var n := 2 * c.size;
    forall i: nat | i <= n ensures Way(c, i).Some? {
      WayBefore(c, i, n);
    }
    var numbers := seq(n + 1, (i: nat) requires i <= n => Number(c, Way(c, i).value));
    if Distinct(numbers) {
      NoMoreThanBelow(numbers, n);
      assert false;
    }
    k, l :| 0 <= k < l < |numbers| && numbers[k] == numbers[l];
  }

  lemma AskedAgain(c: Course, k: nat, l: nat, i: nat, m: nat)
    requires Planned(c) && k < l <= i && Way(c, k) == Way(c, l) && AsksWithin(c, i - (l - k), m)
    ensures AsksWithin(c, i, m)
  {
    var j: nat :| i - (l - k) <= j < i - (l - k) + m && Asks(c, j);
    GoesOnAlike(c, k, l, j - k);
    assert Asks(c, j + (l - k));
  }

  // A way that comes round and has no gap that long until then never has one.
  lemma {:induction false} NoGapLater(c: Course, k: nat, l: nat, i: nat)
    requires Planned(c) && k < l && Way(c, k) == Way(c, l) && 1 <= i
    requires forall j: nat :: 1 <= j <= l ==> AsksSoon(c, j)
    ensures AsksSoon(c, i)
  {
    if i > l {
      NoGapLater(c, k, l, i - (l - k));
      AskedAgain(c, k, l, i, RECURSION_LIMIT - 1);
    }
  }

  lemma {:induction false} NeverStops(c: Course, k: nat, l: nat, n: nat)
    requires Planned(c) && k < l && Way(c, k) == Way(c, l) && Way(c, l).Some?
    ensures Way(c, n).Some?
  {
    if n <= l {
      WayBefore(c, n, l);
    } else {
      NeverStops(c, k, l, n - (l - k));
      GoesOnAlike(c, k, l, n - l);
    }
  }

  // Every spot that is served is met, and served, before the way repeats.
  lemma {:induction false} MetBeforeRepeating(c: Course, n: nat) returns (m: nat)
    requires Planned(c) && Served(c, n)
    ensures m < 2 * c.size && Served(c, m) && Way(c, m) == Way(c, n)
  {
    m := n;
    if 2 * c.size <= n {
      WayBefore(c, 2 * c.size, n);
      var k, l := SomeSpotComesRound(c);
      GoesOnAlike(c, k, l, n - l);
      ServedBefore(c, n - (l - k), n);
      m := MetBeforeRepeating(c, n - (l - k));
    }
  }

  // Approvals come soon enough for the whole of the way that is met before it repeats.
  ghost predicate GoesRound(c: Course)
    requires Planned(c)
  {
    Served(c, 2 * c.size + RECURSION_LIMIT)
  }

  /** A finite part of the way tells whether all of it is served. */
  lemma ServedForEverExactlyWhenGoingRound(c: Course)
    requires Planned(c)
    ensures GoesRound(c) <==> forall n: nat :: Served(c, n)
  {
    if GoesRound(c) {
      WayBefore(c, 2 * c.size, 2 * c.size + RECURSION_LIMIT);
      var k, l := SomeSpotComesRound(c);
      forall n: nat ensures Served(c, n) {
        NeverStops(c, k, l, n);
        forall i: nat | 1 <= i ensures AsksSoon(c, i) {
          NoGapLater(c, k, l, i);
        }
      }
    }
  }

  // An approval stage is met again at the same spot.
  ghost predicate ApprovalComesRound(c: Course)
    requires Planned(c)
  {
    exists k: nat, l: nat :: k < l && Asks(c, k) && Way(c, k) == Way(c, l)
  }

  lemma GoingRoundMeetsAnApproval(c: Course)
    requires Planned(c) && GoesRound(c)
    ensures ApprovalComesRound(c)
  {
    ServedForEverExactlyWhenGoingRound(c);
    assert Served(c, 2 * c.size);
    var k, l := SomeSpotComesRound(c);
    var i := k + 1;
    assert Served(c, i + RECURSION_LIMIT);
    assert AsksSoon(c, i);
    var j: nat :| i <= j < i + RECURSION_LIMIT - 1 && Asks(c, j);
    GoesOnAlike(c, k, l, j - k);
    assert Way(c, j) == Way(c, j + (l - k));
  }

  // Going round in steps of d from an approval at j, one is met within d stages of any i.
  lemma {:induction false} MetWithinARound(c: Course, k: nat, l: nat, j: nat, i: nat)
    requires Planned(c) && k < l && Way(c, k) == Way(c, l) && k <= j && k <= i && Asks(c, j)
    ensures AsksWithin(c, i, l - k)
    decreases if j < i then i - j + (l - k) else j - i
  {
    var d := l - k;
    if j < i {
      GoesOnAlike(c, k, l, j - k);
      MetWithinARound(c, k, l, j + d, i);
    } else if i + d <= j {
      GoesOnAlike(c, k, l, j - d - k);
      MetWithinARound(c, k, l, j - d, i);
    }
  }

  lemma ApprovalGoesRound(c: Course, a: nat, b: nat)
    requires Planned(c) && 2 * c.size < RECURSION_LIMIT && a < b && Asks(c, a) && Way(c, a) == Way(c, b)
    ensures GoesRound(c)
  {
    NeverStops(c, a, b, 2 * c.size);
    var k, l := SomeSpotComesRound(c);
    var j := AskedFrom(c, a, b, k);
    forall i: nat ensures AsksSoon(c, i) {
      SoonInAShortRound(c, k, l, j, i);
    }
    assert AsksSoon(c, 0);
    NeverStops(c, a, b, 2 * c.size + RECURSION_LIMIT);
  }

  /** In a list of up to 99 stages that is all: no gap can be too long. */
  lemma ShortListGoesRoundExactlyWhenAnApprovalDoes(c: Course)
    requires Planned(c) && 2 * c.size < RECURSION_LIMIT
    ensures GoesRound(c) <==> ApprovalComesRound(c)
  {
    if GoesRound(c) {
      GoingRoundMeetsAnApproval(c);
    }
    if a: nat, b: nat :| a < b && Asks(c, a) && Way(c, a) == Way(c, b) {
      ApprovalGoesRound(c, a, b);
    }
  }

  // An approval that comes round is asked again beyond any k.
  lemma AskedFrom(c: Course, a: nat, b: nat, k: nat) returns (j: nat)
    requires Planned(c) && a < b && Asks(c, a) && Way(c, a) == Way(c, b)
    ensures k <= j && Asks(c, j)
    decreases if a < k then k - a else 0
  {
    j := a;
    if a < k {
      GoesOnAlike(c, a, b, b - a);
      j := AskedFrom(c, b, b + (b - a), k);
    }
  }

  lemma SoonInAShortRound(c: Course, k: nat, l: nat, j: nat, i: nat)
    requires Planned(c) && k < l < RECURSION_LIMIT && Way(c, k) == Way(c, l) && k <= j && Asks(c, j)
    ensures AsksSoon(c, i)
  {
    var from := if i < k then k else i;
    MetWithinARound(c, k, l, j, from);
    var m: nat :| from <= m < from + (l - k) && Asks(c, m);
  }

  // ---- The way through a stage list ----

  // A stage list, and the verdict that the executive gate gives when it is asked.
  datatype Route = Route(chosen: seq<string>, templates: map<string, Template>, verdict: Verdict)

  ghost predicate Drawn(r: Route) {
    Chosen(r.chosen, r.templates)
  }

  // The gate is asked after position p: a research stage without approval, before a build stage.
  predicate GateAt(r: Route, p: nat)
    requires Drawn(r)
  {
    p + 1 < |r.chosen| && Commits(r.chosen[p], r.chosen[p + 1]) && !r.templates[r.chosen[p]].requiresApproval
  }

  // The stage performed after the one at this spot: looked up by its name, so the first of that name.
  function Onward(r: Route, s: Spot): (t: Option<Spot>)
    requires Drawn(r)
    ensures t.Some? ==> t.value.place < |r.chosen|
  {
    if s.place + 1 >= |r.chosen| then None
    else
      var next := r.chosen[s.place + 1];
      if !s.gated && GateAt(r, s.place) then
        Some(Spot(Find(r.chosen, if r.verdict.NoGo? && "report" in r.chosen then "report" else next), true))
      else
        Some(Spot(Find(r.chosen, next), s.gated))
  }

  function CourseOf(r: Route): (c: Course)
    requires Drawn(r)
    ensures Planned(c)
  {
    Course(|r.chosen|, s => Onward(r, s),
           (s: Spot) => s.place < |r.chosen| && r.templates[r.chosen[s.place]].requiresApproval)
  }

  // ---- Distinct stages ----

  // The spots on the way have rising numbers.
  ghost predicate Rises(c: Course) {
    forall s: Spot {:trigger c.onward(s)} :: s.place < c.size && c.onward(s).Some? ==>
      Number(c, s) < Number(c, c.onward(s).value)
  }

  lemma RisesOnce(c: Course, n: nat)
    requires Planned(c) && Rises(c) && Way(c, n + 1).Some?
    ensures Way(c, n).Some? && Number(c, Way(c, n).value) < Number(c, Way(c, n + 1).value)
  {
    var s := Way(c, n).value;
    assert Way(c, n + 1) == c.onward(s);
  }

  lemma {:induction false} RisesOn(c: Course, k: nat, m: nat)
    requires Planned(c) && Rises(c) && 0 < m && Way(c, k + m).Some?
    ensures Way(c, k).Some? && Number(c, Way(c, k).value) < Number(c, Way(c, k + m).value)
  {
    RisesOnce(c, k + m - 1);
    if 1 < m {
      RisesOn(c, k, m - 1);
    }
  }

  // From each of these positions the way goes on to the next.
  ghost predicate Straight(c: Course, from: nat, to: nat, gated: bool) {
    forall p: nat :: from <= p < to ==> c.onward(Spot(p, gated)) == Some(Spot(p + 1, gated))
  }

  lemma {:induction false} StraightOn(c: Course, k: nat, from: nat, to: nat, gated: bool, m: nat)
    requires Planned(c) && Way(c, k) == Some(Spot(from, gated)) && Straight(c, from, to, gated) && from + m <= to
    ensures Way(c, k + m) == Some(Spot(from + m, gated))
  {
    if 0 < m {
      StraightOn(c, k, from, to, gated, m - 1);
      assert Way(c, k + m) == c.onward(Spot(from + m - 1, gated));
    }
  }

  lemma DistinctGoesOn(r: Route, s: Spot)
    requires Drawn(r) && Distinct(r.chosen) && s.place + 1 < |r.chosen|
    ensures Onward(r, s).Some? && (Onward(r, s).value.gated || Onward(r, s).value == Spot(s.place + 1, s.gated))
    ensures s.gated || !GateAt(r, s.place) ==> Onward(r, s) == Some(Spot(s.place + 1, s.gated))
  {
    assert r.chosen[s.place + 1] in r.chosen && Find(r.chosen, r.chosen[s.place + 1]) == s.place + 1;
  }

  lemma DistinctRises(r: Route)
    requires Drawn(r) && Distinct(r.chosen)
    ensures Rises(CourseOf(r))
  {
    var c := CourseOf(r);
    forall s: Spot | s.place < c.size && c.onward(s).Some? ensures Number(c, s) < Number(c, c.onward(s).value) {
      DistinctGoesOn(r, s);
    }
  }

  lemma DistinctDoesNotComeRound(r: Route)
    requires Drawn(r) && Distinct(r.chosen)
    ensures !ApprovalComesRound(CourseOf(r))
  {
    var c := CourseOf(r);
    DistinctRises(r);
    if k: nat, l: nat :| k < l && Asks(c, k) && Way(c, k) == Way(c, l) {
      RisesOn(c, k, l - k);
    }
  }

  lemma {:induction false} FirstGate(r: Route, g: nat) returns (h: nat)
    requires Drawn(r) && GateAt(r, g)
    ensures h <= g && GateAt(r, h) && forall p: nat :: p < h ==> !GateAt(r, p)
  {
    h := g;
    if p: nat :| p < g && GateAt(r, p) {
      h := FirstGate(r, p);
    }
  }

  lemma StraightBehindGate(r: Route, from: nat, to: nat)
    requires Drawn(r) && Distinct(r.chosen) && to < |r.chosen|
    ensures Straight(CourseOf(r), from, to, true)
  {
    forall p: nat | from <= p < to ensures Onward(r, Spot(p, true)) == Some(Spot(p + 1, true)) {
      DistinctGoesOn(r, Spot(p, true));
    }
  }

  lemma StraightBeforeGate(r: Route, h: nat)
    requires Drawn(r) && Distinct(r.chosen) && h < |r.chosen| && forall p: nat :: p < h ==> !GateAt(r, p)
    ensures Straight(CourseOf(r), 0, h, false)
  {
    forall p: nat | p < h ensures Onward(r, Spot(p, false)) == Some(Spot(p + 1, false)) {
      DistinctGoesOn(r, Spot(p, false));
    }
  }

  // Where the gate sends a run after NO-GO.
  function Turn(r: Route, h: nat): (p: nat)
    requires h + 1 < |r.chosen|
    ensures p < |r.chosen|
  {
    if "report" in r.chosen then Find(r.chosen, "report") else h + 1
  }

  lemma GateTurns(r: Route, h: nat)
    requires Drawn(r) && Distinct(r.chosen) && r.verdict.NoGo? && GateAt(r, h)
    ensures Onward(r, Spot(h, false)) == Some(Spot(Turn(r, h), true))
  {
    assert r.chosen[h + 1] in r.chosen && Find(r.chosen, r.chosen[h + 1]) == h + 1;
  }

  // The k-th spot is behind the gate, at this position, and from there it is straight on.
  ghost predicate TurnsAt(c: Course, k: nat, turn: nat)
    requires Planned(c)
  {
    Way(c, k) == Some(Spot(turn, true)) && Straight(c, turn, c.size - 1, true)
  }

  // The way of distinct stages: straight to the first gate, and straight on from the turn.
  lemma DistinctWay(r: Route, g: nat) returns (h: nat)
    requires Drawn(r) && Distinct(r.chosen) && GateAt(r, g) && r.verdict.NoGo?
    ensures GateAt(r, h) && TurnsAt(CourseOf(r), h + 1, Turn(r, h))
    ensures forall n: nat :: n <= h ==> Way(CourseOf(r), n) == Some(Spot(n, false))
  {
    h := FirstGate(r, g);
    StraightBeforeGate(r, h);
    forall n: nat | n <= h ensures Way(CourseOf(r), n) == Some(Spot(n, false)) {
      StraightOn(CourseOf(r), 0, 0, h, false, n);
    }
    GateTurns(r, h);
    StraightBehindGate(r, Turn(r, h), |r.chosen| - 1);
  }

  // Every position from the turn on is met behind it, and served if that is soon.
  lemma MetBehindTurn(c: Course, k: nat, turn: nat, p: nat) returns (n: nat)
    requires Planned(c) && TurnsAt(c, k, turn) && turn <= p < c.size && k + c.size <= RECURSION_LIMIT
    ensures n < k + c.size && Way(c, n) == Some(Spot(p, true)) && Served(c, n)
  {
    n := k + (p - turn);
    StraightOn(c, k, turn, c.size - 1, true, p - turn);
  }

  // And none before it is.
  lemma NothingBeforeTurn(c: Course, k: nat, turn: nat, n: nat)
    requires Planned(c) && Rises(c) && TurnsAt(c, k, turn) && k <= n && Way(c, n).Some? && Way(c, n).value.gated
    ensures turn <= Way(c, n).value.place
  {
    if k < n {
      RisesOn(c, k, n - k);
    }
  }

  // ---- Repeated stages ----

  // With GO and a repeated stage, the way never gets past the repeat.
  lemma {:induction false} RepeatsGoRound(r: Route, i: nat, j: nat, n: nat)
    requires Drawn(r) && r.verdict.Go? && i < j < |r.chosen| && r.chosen[i] == r.chosen[j]
    ensures Way(CourseOf(r), n).Some? && Way(CourseOf(r), n).value.place < j
  {
    if n > 0 {
      RepeatsGoRound(r, i, j, n - 1);
      GoesOnBeforeRepeat(r, i, j, Way(CourseOf(r), n - 1).value);
    }
  }

  lemma GoesOnBeforeRepeat(r: Route, i: nat, j: nat, s: Spot)
    requires Drawn(r) && r.verdict.Go? && i < j < |r.chosen| && r.chosen[i] == r.chosen[j] && s.place < j
    ensures Onward(r, s).Some? && Onward(r, s).value.place < j
  {
    assert r.chosen[s.place + 1] in r.chosen;
    assert Find(r.chosen, r.chosen[s.place + 1]) <= s.place + 1;
    assert s.place + 1 == j ==> Find(r.chosen, r.chosen[s.place + 1]) <= i;
  }
}
