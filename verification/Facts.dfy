/** Versioned facts: saving a fact on a known topic archives the version before it
  * and links the two. */
module Facts {
  import opened Wrappers
  import opened Words
  import opened Topics
  import opened Memory

  datatype Group = Group(scope: string, owner: string, kind: string, topic: string)

  datatype Request = Request(
    scope: string, owner: string, kind: string, content: string, importance: int, tags: seq<string>, now: int)

  datatype Relation = Supersedes | Contradicting
  datatype Link = Link(source: nat, target: nat, relation: Relation)

  // How kind and content make a topic.
  type Topic = (string, string) -> string

  const TOPIC: Topic := (kind: string, content: string) => TopicKey(kind, content)

  function GroupOf(topic: Topic, e: Entry): Group {
    Group(e.scope, e.owner, e.kind, topic(e.kind, e.content))
  }

  function GroupFor(topic: Topic, r: Request): Group {
    Group(r.scope, r.owner, r.kind, topic(r.kind, r.content))
  }

  function Groups(topic: Topic, entries: seq<Entry>): (gs: seq<Group>)
    ensures |gs| == |entries|
  {
    seq(|entries|, i requires 0 <= i < |entries| => GroupOf(topic, entries[i]))
  }

  // The last place of g among the first n.
  function Latest<T(==)>(gs: seq<T>, g: T, n: nat): (r: Option<nat>)
    requires n <= |gs|
    ensures r.Some? ==> r.value < n && gs[r.value] == g && forall i :: r.value < i < n ==> gs[i] != g
    ensures r.None? ==> forall i :: 0 <= i < n ==> gs[i] != g
  {
    if n == 0 then None else if gs[n - 1] == g then Some(n - 1) else Latest(gs, g, n - 1)
  }

  // A later place has the same group.
  ghost predicate Outdated<T>(gs: seq<T>, i: nat)
    requires i < |gs|
  {
    exists j :: i < j < |gs| && gs[j] == gs[i]
  }

  // All places of g among the first n, newest first.
  function Members<T(==)>(gs: seq<T>, g: T, n: nat): seq<nat>
    requires n <= |gs|
  {
    if n == 0 then []
    else if gs[n - 1] == g then [n - 1] + Members(gs, g, n - 1)
    else Members(gs, g, n - 1)
  }

  lemma {:induction false} MembersAreAll<T>(gs: seq<T>, g: T, n: nat)
    requires n <= |gs|
    ensures forall i :: i in Members(gs, g, n) <==> 0 <= i < n && gs[i] == g
    ensures forall j, k :: 0 <= j < k < |Members(gs, g, n)| ==> Members(gs, g, n)[j] > Members(gs, g, n)[k]
  {
    if n > 0 {
      MembersAreAll(gs, g, n - 1);
      var m := Members(gs, g, n - 1);
      assert forall k :: 0 <= k < |m| ==> m[k] in m;
    }
  }

  lemma {:induction false} MembersFromLatest<T>(gs: seq<T>, g: T, n: nat)
    requires n <= |gs|
    ensures Latest(gs, g, n).None? ==> Members(gs, g, n) == []
    ensures Latest(gs, g, n).Some? ==>
      Members(gs, g, n) == [Latest(gs, g, n).value] + Members(gs, g, Latest(gs, g, n).value)
  {
    if n > 0 && gs[n - 1] != g {
      MembersFromLatest(gs, g, n - 1);
    }
  }

  lemma {:induction false} LatestOfPrefix<T>(gs: seq<T>, more: seq<T>, g: T, n: nat)
    requires n <= |gs|
    ensures Latest(gs + more, g, n) == Latest(gs, g, n)
  {
    if n > 0 && gs[n - 1] != g {
      LatestOfPrefix(gs, more, g, n - 1);
    }
  }

  function Clamp(importance: int): (r: int)
    ensures 1 <= r <= 5 && (1 <= importance <= 5 ==> r == importance)
    ensures (importance < 1 ==> r == 1) && (importance > 5 ==> r == 5)
  {
    if importance < 1 then 1 else if importance > 5 then 5 else importance
  }

  function Archive(e: Entry, now: int): Entry {
    e.(archived := true, updatedAt := now)
  }

  function Refresh(e: Entry, importance: int, now: int): Entry {
    e.(importance := if e.importance >= importance then e.importance else importance, updatedAt := now)
  }

  function NewEntry(r: Request, prior: Option<nat>): Entry {
    Entry(r.scope, r.owner, r.kind, r.content, Clamp(r.importance), r.tags, prior, false, r.now, 0, None)
  }

  predicate Refreshes(entries: seq<Entry>, r: Request, prior: Option<nat>) {
    prior.Some? && prior.value < |entries| && entries[prior.value].content == r.content
  }

  // The entries after a save, given the active version found.
  function Saved(entries: seq<Entry>, r: Request, prior: Option<nat>): seq<Entry>
    requires prior.Some? ==> prior.value < |entries|
  {
    if prior.None? then entries + [NewEntry(r, prior)]
    else
      var p := entries[prior.value];
      if p.content == r.content
      then entries[prior.value := Refresh(p, r.importance, r.now)]
      else entries[prior.value := Archive(p, r.now)] + [NewEntry(r, prior)]
  }

  function RelationTo(content: string): Relation {
    if Contradicts(content) then Contradicting else Supersedes
  }

  /** A new version is linked as contradicting when one of the markers stands in it, and else as
    * superseding. */
  lemma RelationIsContradictingByAMarker(content: string)
    ensures RelationTo(content)
         == if exists marker :: marker in NEGATIONS + CONTRASTS && StandsIn(Lower(content), marker) then Contradicting
            else Supersedes
  {
    ContradictsExactlyByAMarker(content);
  }

  // How a new version stands to the one before it.
  type Relate = string -> Relation

  const RELATE: Relate := (content: string) => RelationTo(content)

  // One link for every entry that has a version before it.
  function LinksOf(relate: Relate, entries: seq<Entry>): seq<Link> {
    if entries == [] then []
    else
      var n := |entries| - 1;
      LinksOf(relate, entries[..n])
      + if entries[n].supersedes.Some? then [Link(n, entries[n].supersedes.value, relate(entries[n].content))] else []
  }

  // Entry i points at the version right before it, and is archived once there is a later one.
  ghost predicate Fits(e: Entry, gs: seq<Group>, i: nat)
    requires i < |gs|
  {
    e.supersedes == Latest(gs, gs[i], i) && (e.archived <==> Outdated(gs, i))
  }

  ghost predicate VersionedAs(entries: seq<Entry>, gs: seq<Group>) {
    |gs| == |entries| && forall i :: 0 <= i < |entries| ==> Fits(entries[i], gs, i)
  }

  ghost predicate Versioned(topic: Topic, entries: seq<Entry>) {
    VersionedAs(entries, Groups(topic, entries))
  }

  // The active version of a group is its latest, and there is no other.
  lemma ActiveIsLatest(entries: seq<Entry>, gs: seq<Group>, g: Group, i: nat)
    requires VersionedAs(entries, gs) && i < |entries|
    ensures gs[i] == g && !entries[i].archived <==> Latest(gs, g, |gs|) == Some(i)
  {
    assert Fits(entries[i], gs, i);
  }

  // The versions from entry i back.
  function Chain(entries: seq<Entry>, i: nat): seq<nat>
    requires i < |entries|
  {
    [i] + match entries[i].supersedes
          case None => []
          case Some(p) => if p < i then Chain(entries, p) else []
  }

  /** The chain from any version visits that version and every older one exactly
    * once, from the newest to the oldest. */
  lemma {:induction false} ChainVisitsEveryOlderVersion(entries: seq<Entry>, gs: seq<Group>, i: nat)
    requires VersionedAs(entries, gs) && i < |entries|
    ensures Chain(entries, i) == Members(gs, gs[i], i + 1)
  {
    assert Fits(entries[i], gs, i);
    MembersFromLatest(gs, gs[i], i);
    if entries[i].supersedes.Some? {
      var p := entries[i].supersedes.value;
      ChainVisitsEveryOlderVersion(entries, gs, p);
      MembersFromLatest(gs, gs[i], p + 1);
    }
  }

  // ---- One save ----

  lemma RefreshKeeps(entries: seq<Entry>, gs: seq<Group>, p: nat, e: Entry)
    requires VersionedAs(entries, gs) && p < |entries|
    requires e.supersedes == entries[p].supersedes && e.archived == entries[p].archived
    ensures VersionedAs(entries[p := e], gs)
  {
    assert Fits(entries[p], gs, p);
  }

  // The new entry comes last and its prior version, if any, is archived.
  ghost predicate Appended(entries: seq<Entry>, after: seq<Entry>, prior: Option<nat>) {
    |after| == |entries| + 1 && after[|entries|].supersedes == prior && !after[|entries|].archived
    && forall i :: 0 <= i < |entries| ==>
         after[i].supersedes == entries[i].supersedes
           && (after[i].archived <==> entries[i].archived || prior == Some(i))
  }

  lemma AppendKeeps(entries: seq<Entry>, gs: seq<Group>, g: Group, prior: Option<nat>, after: seq<Entry>)
    requires VersionedAs(entries, gs) && prior == Latest(gs, g, |gs|) && Appended(entries, after, prior)
    ensures VersionedAs(after, gs + [g])
  {
    forall i | 0 <= i < |after| ensures Fits(after[i], gs + [g], i) {
      if i < |gs| {
        assert Fits(entries[i], gs, i);
        OneMoreVersion(gs, g, i);
        LatestOfPrefix(gs, [g], gs[i], i);
      } else {
        LatestOfPrefix(gs, [g], g, i);
      }
    }
  }

  // A new version outdates the latest of its group and no other that was not outdated.
  lemma OneMoreVersion(gs: seq<Group>, g: Group, i: nat)
    requires i < |gs|
    ensures Outdated(gs + [g], i) <==> Outdated(gs, i) || Latest(gs, g, |gs|) == Some(i)
  {
    if Outdated(gs, i) {
      var j :| i < j < |gs| && gs[j] == gs[i];
      assert (gs + [g])[j] == gs[i];
    }
    if gs[i] == g {
      assert (gs + [g])[|gs|] == gs[i];
    }
  }

  function Save(topic: Topic, entries: seq<Entry>, r: Request): seq<Entry> {
    Saved(entries, r, Latest(Groups(topic, entries), GroupFor(topic, r), |entries|))
  }

  // Nothing but importance, the archive flag and the time of the change ever changes.
  predicate SameFact(e: Entry, after: Entry) {
    after == e.(importance := after.importance, archived := after.archived, updatedAt := after.updatedAt)
      && (e.archived ==> after.archived)
  }

  predicate Kept(entries: seq<Entry>, after: seq<Entry>) {
    |entries| <= |after| && forall i :: 0 <= i < |entries| ==> SameFact(entries[i], after[i])
  }

  lemma SavedKeeps(entries: seq<Entry>, r: Request, prior: Option<nat>)
    requires prior.Some? ==> prior.value < |entries|
    ensures Kept(entries, Saved(entries, r, prior))
    ensures Refreshes(entries, r, prior) ==> |Saved(entries, r, prior)| == |entries|
    ensures !Refreshes(entries, r, prior) ==>
      Appended(entries, Saved(entries, r, prior), prior) && Saved(entries, r, prior)[|entries|] == NewEntry(r, prior)
  {
  }

  lemma SameGroup(topic: Topic, e: Entry, after: Entry)
    requires SameFact(e, after)
    ensures GroupOf(topic, after) == GroupOf(topic, e)
  {
  }

  lemma KeptGroups(topic: Topic, entries: seq<Entry>, after: seq<Entry>)
    requires Kept(entries, after)
    ensures Groups(topic, after)[..|entries|] == Groups(topic, entries)
  {
    forall i | 0 <= i < |entries| ensures Groups(topic, after)[i] == Groups(topic, entries)[i] {
      SameGroup(topic, entries[i], after[i]);
    }
  }

  lemma NewGroup(topic: Topic, entries: seq<Entry>, r: Request, prior: Option<nat>, after: seq<Entry>)
    requires Kept(entries, after) && |after| == |entries| + 1 && after[|entries|] == NewEntry(r, prior)
    ensures Groups(topic, after) == Groups(topic, entries) + [GroupFor(topic, r)]
  {
    KeptGroups(topic, entries, after);
    assert Groups(topic, after) == Groups(topic, after)[..|entries|] + [Groups(topic, after)[|entries|]];
  }

  lemma SaveStaysVersioned(topic: Topic, entries: seq<Entry>, r: Request)
    requires Versioned(topic, entries)
    ensures Versioned(topic, Save(topic, entries, r))
  {
    var gs, g := Groups(topic, entries), GroupFor(topic, r);
    var prior := Latest(gs, g, |gs|);
    SavedStaysVersioned(topic, entries, gs, g, r, prior, Saved(entries, r, prior));
  }

  lemma SavedStaysVersioned(
    topic: Topic, entries: seq<Entry>, gs: seq<Group>, g: Group, r: Request, prior: Option<nat>, after: seq<Entry>)
    requires gs == Groups(topic, entries) && VersionedAs(entries, gs) && g == GroupFor(topic, r)
      && prior == Latest(gs, g, |gs|)
    requires after == Saved(entries, r, prior)
    ensures Versioned(topic, after)
  {
    SavedKeeps(entries, r, prior);
    if Refreshes(entries, r, prior) {
      RefreshKeeps(entries, gs, prior.value, after[prior.value]);
      KeptGroups(topic, entries, after);
      assert Groups(topic, after)[..|entries|] == Groups(topic, after);
    } else {
      AppendKeeps(entries, gs, g, prior, after);
      NewGroup(topic, entries, r, prior, after);
    }
  }

  // ---- What the store says about a group ----

  function Current(topic: Topic, entries: seq<Entry>, g: Group): Option<string> {
    match Latest(Groups(topic, entries), g, |entries|)
    case None => None
    case Some(p) => Some(entries[p].content)
  }

  lemma SaveSetsCurrent(topic: Topic, entries: seq<Entry>, r: Request, g: Group)
    ensures Current(topic, Save(topic, entries, r), g) == if g == GroupFor(topic, r) then Some(r.content)
      else Current(topic, entries, g)
  {
    var gs := Groups(topic, entries);
    var prior := Latest(gs, GroupFor(topic, r), |gs|);
    SavedSetsCurrent(topic, entries, gs, GroupFor(topic, r), r, prior, Saved(entries, r, prior), g);
  }

  lemma SavedSetsCurrent(
    topic: Topic, entries: seq<Entry>, gs: seq<Group>, g0: Group, r: Request, prior: Option<nat>, after: seq<Entry>,
    g: Group)
    requires gs == Groups(topic, entries) && g0 == GroupFor(topic, r) && prior == Latest(gs, g0, |gs|)
    requires after == Saved(entries, r, prior)
    ensures Current(topic, after, g) == if g == g0 then Some(r.content) else Current(topic, entries, g)
  {
    SavedKeeps(entries, r, prior);
    KeptGroups(topic, entries, after);
    if Refreshes(entries, r, prior) {
      assert Groups(topic, after)[..|entries|] == Groups(topic, after);
    } else {
      NewGroup(topic, entries, r, prior, after);
      LatestOfPrefix(gs, [g0], g, |gs|);
    }
  }

  // ---- Any sequence of saves ----

  function After(topic: Topic, requests: seq<Request>): seq<Entry> {
    if requests == [] then [] else Save(topic, After(topic, requests[..|requests| - 1]), requests[|requests| - 1])
  }

  // What was last said about a group.
  function LastSaid(topic: Topic, requests: seq<Request>, g: Group): Option<string> {
    if requests == [] then None
    else
      var last := requests[|requests| - 1];
      if GroupFor(topic, last) == g then Some(last.content) else LastSaid(topic, requests[..|requests| - 1], g)
  }

  lemma {:induction false} SavesStayVersioned(topic: Topic, requests: seq<Request>)
    ensures Versioned(topic, After(topic, requests))
  {
    if requests != [] {
      SavesStayVersioned(topic, requests[..|requests| - 1]);
      SaveStaysVersioned(topic, After(topic, requests[..|requests| - 1]), requests[|requests| - 1]);
    }
  }

  lemma {:induction false} CurrentIsLastSaid(topic: Topic, requests: seq<Request>, g: Group)
    ensures Current(topic, After(topic, requests), g) == LastSaid(topic, requests, g)
  {
    if requests != [] {
      CurrentIsLastSaid(topic, requests[..|requests| - 1], g);
      SaveSetsCurrent(topic, After(topic, requests[..|requests| - 1]), requests[|requests| - 1], g);
    }
  }

  /** Over any sequence of saves a group has an active fact exactly when something was
    * said about it; it is the only one, and holds what was said last. */
  lemma OneActiveFactPerGroup(topic: Topic, requests: seq<Request>, g: Group)
    ensures var entries := After(topic, requests);
      match LastSaid(topic, requests, g)
      case None => forall i :: 0 <= i < |entries| ==> GroupOf(topic, entries[i]) != g
      case Some(content) =>
        exists p: nat :: OnlyActive(topic, entries, g, p) && entries[p].content == content
  {
    var entries := After(topic, requests);
    var gs := Groups(topic, entries);
    SavesStayVersioned(topic, requests);
    CurrentIsLastSaid(topic, requests, g);
    match Latest(gs, g, |gs|) {
      case None =>
        assert forall i :: 0 <= i < |entries| ==> gs[i] == GroupOf(topic, entries[i]);
      case Some(p) =>
        forall i | 0 <= i < |entries| ensures GroupOf(topic, entries[i]) == g && !entries[i].archived <==> i == p {
          assert gs[i] == GroupOf(topic, entries[i]);
          ActiveIsLatest(entries, gs, g, i);
        }
        assert OnlyActive(topic, entries, g, p);
    }
  }

  ghost predicate OnlyActive(topic: Topic, entries: seq<Entry>, g: Group, p: nat) {
    p < |entries| && forall i :: 0 <= i < |entries| ==>
      (GroupOf(topic, entries[i]) == g && !entries[i].archived <==> i == p)
  }

  // An entry of the group holds the content.
  ghost predicate Holds(entries: seq<Entry>, r: Request) {
    exists i :: 0 <= i < |entries| && entries[i].content == r.content && entries[i].kind == r.kind
                && entries[i].scope == r.scope && entries[i].owner == r.owner
  }

  lemma SaveHolds(topic: Topic, entries: seq<Entry>, r: Request)
    ensures Holds(Save(topic, entries, r), r) && Kept(entries, Save(topic, entries, r))
  {
    var gs := Groups(topic, entries);
    var prior := Latest(gs, GroupFor(topic, r), |gs|);
    var after := Saved(entries, r, prior);
    SavedKeeps(entries, r, prior);
    if Refreshes(entries, r, prior) {
      assert gs[prior.value] == GroupOf(topic, entries[prior.value]);
      assert SameFact(entries[prior.value], after[prior.value]);
    } else {
      assert after[|entries|].content == r.content;
    }
  }

  lemma StillHolds(entries: seq<Entry>, after: seq<Entry>, r: Request)
    requires Kept(entries, after) && Holds(entries, r)
    ensures Holds(after, r)
  {
    var i :| 0 <= i < |entries| && entries[i].content == r.content && entries[i].kind == r.kind
             && entries[i].scope == r.scope && entries[i].owner == r.owner;
    assert SameFact(entries[i], after[i]);
  }

  lemma OneSaveLater(topic: Topic, entries: seq<Entry>, r: Request, earlier: Request)
    requires Holds(entries, earlier)
    ensures Holds(Save(topic, entries, r), earlier)
  {
    SaveHolds(topic, entries, r);
    StillHolds(entries, Save(topic, entries, r), earlier);
  }

  /** Nothing that was ever saved is lost. */
  lemma {:induction false} NothingIsLost(topic: Topic, requests: seq<Request>, k: nat)
    requires k < |requests|
    ensures Holds(After(topic, requests), requests[k])
  {
    var init, last := requests[..|requests| - 1], requests[|requests| - 1];
    if k < |init| {
      NothingIsLost(topic, init, k);
      OneSaveLater(topic, After(topic, init), last, requests[k]);
    } else {
      SaveHolds(topic, After(topic, init), last);
    }
  }

  // ---- Links ----

  lemma {:induction false} SameLinks(relate: Relate, a: seq<Entry>, b: seq<Entry>)
    requires |a| == |b|
    requires forall i :: 0 <= i < |a| ==> a[i].supersedes == b[i].supersedes && a[i].content == b[i].content
    ensures LinksOf(relate, a) == LinksOf(relate, b)
  {
    if a != [] {
      SameLinks(relate, a[..|a| - 1], b[..|b| - 1]);
    }
  }

  /** The links are exactly the steps of the chains, each once, in order of creation. */
  lemma {:induction false} LinksMatchTheChains(relate: Relate, entries: seq<Entry>)
    ensures forall l :: l in LinksOf(relate, entries) <==>
      l.source < |entries| && entries[l.source].supersedes == Some(l.target)
        && l.relation == relate(entries[l.source].content)
    ensures forall j, k :: 0 <= j < k < |LinksOf(relate, entries)| ==>
      LinksOf(relate, entries)[j].source < LinksOf(relate, entries)[k].source
  {
    if entries != [] {
      LinksMatchTheChains(relate, entries[..|entries| - 1]);
      var before := LinksOf(relate, entries[..|entries| - 1]);
      assert forall j :: 0 <= j < |before| ==> before[j] in before;
    }
  }

  // ---- Importance ----

  predicate InRange(entries: seq<Entry>) {
    forall i :: 0 <= i < |entries| ==> 1 <= entries[i].importance <= 5
  }

  // The request refreshes a fact and asks for more than 5.
  ghost predicate Exceeds(topic: Topic, entries: seq<Entry>, r: Request) {
    r.importance > 5 && Refreshes(entries, r, Latest(Groups(topic, entries), GroupFor(topic, r), |entries|))
  }

  // No request exceeds the range after those before it.
  ghost predicate NoneExceeds(topic: Topic, requests: seq<Request>) {
    requests == []
    || (NoneExceeds(topic, requests[..|requests| - 1])
       && !Exceeds(topic, After(topic, requests[..|requests| - 1]), requests[|requests| - 1]))
  }

  lemma OneSaveInRange(entries: seq<Entry>, r: Request, prior: Option<nat>)
    requires InRange(entries) && (prior.Some? ==> prior.value < |entries|)
    ensures InRange(Saved(entries, r, prior)) <==> !(Refreshes(entries, r, prior) && r.importance > 5)
  {
    var after := Saved(entries, r, prior);
    if Refreshes(entries, r, prior) {
      assert after[prior.value].importance == if entries[prior.value].importance >= r.importance
        then entries[prior.value].importance else r.importance;
    }
  }

  // No entry loses importance, so what is out of range stays so.
  lemma OutOfRangeStays(entries: seq<Entry>, r: Request, prior: Option<nat>, i: nat)
    requires i < |entries| && entries[i].importance > 5 && (prior.Some? ==> prior.value < |entries|)
    ensures !InRange(Saved(entries, r, prior))
  {
    assert Saved(entries, r, prior)[i].importance >= entries[i].importance;
  }

  // No entry is below the range.
  ghost predicate NoneBelow(entries: seq<Entry>) {
    forall i :: 0 <= i < |entries| ==> 1 <= entries[i].importance
  }

  lemma {:induction false} NeverBelow(topic: Topic, requests: seq<Request>)
    ensures NoneBelow(After(topic, requests))
  {
    if requests != [] {
      var init, last := requests[..|requests| - 1], requests[|requests| - 1];
      NeverBelow(topic, init);
      OneSaveNotBelow(After(topic, init), last,
        Latest(Groups(topic, After(topic, init)), GroupFor(topic, last), |After(topic, init)|));
    }
  }

  lemma OneSaveNotBelow(entries: seq<Entry>, r: Request, prior: Option<nat>)
    requires NoneBelow(entries) && (prior.Some? ==> prior.value < |entries|)
    ensures NoneBelow(Saved(entries, r, prior))
  {
  }

  lemma OneSaveEitherWay(entries: seq<Entry>, r: Request, prior: Option<nat>)
    requires NoneBelow(entries) && (prior.Some? ==> prior.value < |entries|)
    ensures InRange(Saved(entries, r, prior))
      <==> InRange(entries) && !(Refreshes(entries, r, prior) && r.importance > 5)
  {
    if InRange(entries) {
      OneSaveInRange(entries, r, prior);
    } else {
      var i :| 0 <= i < |entries| && entries[i].importance > 5;
      OutOfRangeStays(entries, r, prior, i);
    }
  }

  lemma SaveInRange(topic: Topic, entries: seq<Entry>, r: Request)
    requires NoneBelow(entries)
    ensures InRange(Save(topic, entries, r))
       <==> InRange(entries) && !Exceeds(topic, entries, r)
  {
    OneSaveEitherWay(entries, r, Latest(Groups(topic, entries), GroupFor(topic, r), |entries|));
  }

  /** Importance is clamped when an entry is made but not when it is refreshed: over any
    * saves it stays within 1..5 if and only if no refresh asks for more than 5. */
  lemma {:induction false} ImportanceStaysInRangeExactlyUnlessARefreshExceedsIt(topic: Topic, requests: seq<Request>)
    ensures InRange(After(topic, requests)) <==> NoneExceeds(topic, requests)
  {
    if requests != [] {
      var init := requests[..|requests| - 1];
      ImportanceStaysInRangeExactlyUnlessARefreshExceedsIt(topic, init);
      NeverBelow(topic, init);
      SaveInRange(topic, After(topic, init), requests[|requests| - 1]);
    }
  }

  // ---- The store ----

  // The entry is an active version of the group.
  predicate IsActive(topic: Topic, e: Entry, g: Group) {
    e.scope == g.scope && e.owner == g.owner && e.kind == g.kind && !e.archived && topic(e.kind, e.content) == g.topic
  }

  lemma FoundIsLatest(topic: Topic, entries: seq<Entry>, g: Group, i: nat)
    requires Versioned(topic, entries) && i < |entries|
    ensures IsActive(topic, entries[i], g) <==> Latest(Groups(topic, entries), g, |entries|) == Some(i)
  {
    assert Groups(topic, entries)[i] == GroupOf(topic, entries[i]);
    ActiveIsLatest(entries, Groups(topic, entries), g, i);
  }

  // What a search for an active version may find.
  ghost predicate FoundActive(topic: Topic, entries: seq<Entry>, g: Group, prior: Option<nat>) {
    match prior
    case None => forall i :: 0 <= i < |entries| ==> !IsActive(topic, entries[i], g)
    case Some(p) => p < |entries| && IsActive(topic, entries[p], g)
  }

  /** The active version that is found is the latest one, and none is found when there is none. */
  lemma FoundActiveIsLatest(topic: Topic, entries: seq<Entry>, g: Group, prior: Option<nat>)
    requires Versioned(topic, entries) && FoundActive(topic, entries, g, prior)
    ensures prior == Latest(Groups(topic, entries), g, |entries|)
  {
    var latest := Latest(Groups(topic, entries), g, |entries|);
    if prior.Some? {
      FoundIsLatest(topic, entries, g, prior.value);
    } else if latest.Some? {
      FoundIsLatest(topic, entries, g, latest.value);
    }
  }

  // What a save adds to the links.
  lemma SavedLinks(relate: Relate, entries: seq<Entry>, r: Request, prior: Option<nat>)
    requires prior.Some? ==> prior.value < |entries|
    ensures LinksOf(relate, Saved(entries, r, prior))
         == LinksOf(relate, entries)
            + if Refreshes(entries, r, prior) || prior.None? then []
              else [Link(|entries|, prior.value, relate(r.content))]
  {
    SavedKeeps(entries, r, prior);
    var after := Saved(entries, r, prior);
    if Refreshes(entries, r, prior) {
      SameLinks(relate, entries, after);
      assert LinksOf(relate, entries) + [] == LinksOf(relate, entries);
    } else {
      LastLink(relate, entries, after, prior);
    }
  }

  lemma LastLink(relate: Relate, entries: seq<Entry>, after: seq<Entry>, prior: Option<nat>)
    requires Kept(entries, after) && |after| == |entries| + 1 && after[|entries|].supersedes == prior
    ensures LinksOf(relate, after)
         == LinksOf(relate, entries)
            + if prior.None? then [] else [Link(|entries|, prior.value, relate(after[|entries|].content))]
  {
    SameLinks(relate, entries, after[..|entries|]);
  }

  // The entry that holds the content after a save: the active version of its group.
  lemma SavedEntry(topic: Topic, entries: seq<Entry>, r: Request, prior: Option<nat>)
    requires Versioned(topic, entries) && prior == Latest(Groups(topic, entries), GroupFor(topic, r), |entries|)
    ensures var id := if Refreshes(entries, r, prior) then prior.value else |entries|;
      var after := Saved(entries, r, prior);
      id < |after| && !after[id].archived && after[id].content == r.content
  {
    if Refreshes(entries, r, prior) {
      FoundIsLatest(topic, entries, GroupFor(topic, r), prior.value);
    }
  }

  // The entry is an active fact of the request's owner and kind, about the same subject.
  ghost predicate Related(e: Entry, r: Request) {
    !e.archived && e.scope == r.scope && e.owner == r.owner && e.kind == r.kind && SameSubject(e.content, r.content)
  }

  // The entry is what the request says, as a new version of the given one.
  predicate IsNewFact(e: Entry, r: Request, prior: Option<nat>) {
    e.scope == r.scope && e.owner == r.owner && e.kind == r.kind && e.content == r.content && e.tags == r.tags
    && 1 <= e.importance <= 5
    && (e.importance == r.importance || (r.importance < 1 == e.importance) || (e.importance == 5 < r.importance))
    && e.supersedes == prior && !e.archived && e.updatedAt == r.now && e.accessCount == 0 && e.expiresAt.None?
  }

  lemma RelatedIsActive(e: Entry, r: Request)
    ensures Related(e, r) <==> IsActive(TOPIC, e, GroupFor(TOPIC, r))
  {
    TopicsAreEqualExactlyForOneSubject(r.kind, e.content, r.content);
  }

  // What a save makes of the entries, when p is the active version it found.
  ghost predicate Revises(entries: seq<Entry>, after: seq<Entry>, r: Request, p: nat)
    requires p < |entries|
  {
    if entries[p].content == r.content then
      |after| == |entries|
      && after == entries[p := entries[p].(importance := after[p].importance, updatedAt := r.now)]
      && after[p].importance == if entries[p].importance < r.importance then r.importance else entries[p].importance
    else
      |after| == |entries| + 1 && IsNewFact(after[|entries|], r, Some(p))
      && after == entries[p := entries[p].(archived := true, updatedAt := r.now)] + [after[|entries|]]
  }

  // And when it found none.
  ghost predicate Begins(entries: seq<Entry>, after: seq<Entry>, r: Request) {
    |after| == |entries| + 1 && after == entries + [after[|entries|]] && IsNewFact(after[|entries|], r, None)
  }

  lemma SavedRevises(entries: seq<Entry>, r: Request, prior: Option<nat>)
    requires prior.Some? ==> prior.value < |entries|
    ensures if prior.Some? then Revises(entries, Saved(entries, r, prior), r, prior.value)
            else Begins(entries, Saved(entries, r, prior), r)
  {
  }

  /** A save touches at most one entry: the related one, which it refreshes when the content is
    * the same and otherwise archives and supersedes. Without a related entry the fact starts
    * afresh: nothing is archived, and the new entry supersedes nothing. */
  lemma OnlyTheRelatedFactIsSuperseded(entries: seq<Entry>, r: Request)
    requires Versioned(TOPIC, entries)
    ensures var after := Save(TOPIC, entries, r);
      if p: nat :| p < |entries| && Related(entries[p], r) then
        (forall i :: 0 <= i < |entries| && i != p ==> !Related(entries[i], r)) && Revises(entries, after, r, p)
      else Begins(entries, after, r)
  {
    var prior := Latest(Groups(TOPIC, entries), GroupFor(TOPIC, r), |entries|);
    forall i | 0 <= i < |entries| ensures Related(entries[i], r) <==> prior == Some(i) {
      RelatedIsActive(entries[i], r);
      FoundIsLatest(TOPIC, entries, GroupFor(TOPIC, r), i);
    }
    SavedRevises(entries, r, prior);
  }

  // No active fact of the owner and kind is about the subject of the request.
  ghost predicate Unrelated(topic: Topic, entries: seq<Entry>, r: Request) {
    topic == TOPIC && forall i :: 0 <= i < |entries| ==> !Related(entries[i], r)
  }

  lemma UnrelatedHasNoPrior(topic: Topic, entries: seq<Entry>, r: Request, prior: Option<nat>)
    requires FoundActive(topic, entries, GroupFor(topic, r), prior)
    ensures Unrelated(topic, entries, r) ==> prior.None?
  {
    if topic == TOPIC && prior.Some? {
      RelatedIsActive(entries[prior.value], r);
    }
  }

  class MemoryStore {
    const topicOf: Topic
    const relate: Relate
    var entries: seq<Entry>
    var links: seq<Link>

    ghost predicate Valid()
      reads this
    {
      Versioned(topicOf, entries) && links == LinksOf(relate, entries)
    }

    constructor ()
      ensures Valid() && entries == [] && topicOf == TOPIC && relate == RELATE
    {
      topicOf, relate := TOPIC, RELATE;
      entries, links := [], [];
    }

    // The first active version of the group.
    method FindPrior(g: Group) returns (prior: Option<nat>)
      ensures FoundActive(topicOf, entries, g, prior)
    {
      for i := 0 to |entries|
        invariant forall k :: 0 <= k < i ==> !IsActive(topicOf, entries[k], g)
      {
        if IsActive(topicOf, entries[i], g) {
          return Some(i);
        }
      }
      prior := None;
    }

    method SaveFact(r: Request) returns (id: nat)
      requires Valid()
      modifies this
      ensures Valid() && entries == Save(topicOf, old(entries), r)
      ensures id < |entries| && !entries[id].archived && entries[id].content == r.content
      ensures Unrelated(topicOf, old(entries), r) ==>
        entries == old(entries) + [NewEntry(r, None)] && links == old(links)
    {
      SaveStaysVersioned(topicOf, entries, r);
      var prior := FindPrior(GroupFor(topicOf, r));
      FoundActiveIsLatest(topicOf, entries, GroupFor(topicOf, r), prior);
      UnrelatedHasNoPrior(topicOf, entries, r, prior);
      SavedLinks(relate, entries, r, prior);
      SavedEntry(topicOf, entries, r, prior);
      if prior.Some? && entries[prior.value].content == r.content {
        entries := entries[prior.value := Refresh(entries[prior.value], r.importance, r.now)];
        return prior.value;
      }
      id := |entries|;
      if prior.Some? {
        entries := entries[prior.value := Archive(entries[prior.value], r.now)];
      }
      entries := entries + [NewEntry(r, prior)];
      if prior.Some? {
        links := links + [Link(id, prior.value, relate(r.content))];
      }
    }
  }
}
