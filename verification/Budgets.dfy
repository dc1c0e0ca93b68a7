/** Budgets: counters per scope, kept beside the log of what was spent. Money is real. */
module Budgets {
  import opened Wrappers
  import opened Sequences

  datatype Scope = Global | Project | Agent | Task
  datatype Key = Key(scope: Scope, id: string)

  datatype Budget = Budget(
    monthlyLimit: Option<real>, dailyLimit: Option<real>, spentMonth: real, spentDay: real, day: int)

  datatype Settings = Settings(globalMonthly: Option<real>, globalDaily: Option<real>, projectMonthly: Option<real>)

  // What one model call cost, and whom.
  datatype Usage = Usage(project: Option<string>, agent: Option<string>, task: Option<string>, cost: real, day: int)

  type Book = map<Key, Budget>

  const GLOBAL := Key(Global, "global")

  function Default(s: Settings, key: Key, today: int): Budget {
    match key.scope
    case Global => Budget(s.globalMonthly, s.globalDaily, 0.0, 0.0, today)
    case Project => Budget(s.projectMonthly, None, 0.0, 0.0, today)
    case Agent => Budget(None, None, 0.0, 0.0, today)
    case Task => Budget(None, None, 0.0, 0.0, today)
  }

  // Only the day's counter starts again.
  function Rolled(b: Budget, today: int): Budget {
    if b.day != today then b.(spentDay := 0.0, day := today) else b
  }

  // The budget as it is read.
  function Current(s: Settings, book: Book, key: Key, today: int): Budget {
    Rolled(if key in book then book[key] else Default(s, key, today), today)
  }

  function Named(scope: Scope, id: Option<string>): seq<Key> {
    if id.Some? && id.value != "" then [Key(scope, id.value)] else []
  }

  // The scopes a usage is charged to.
  function Scopes(u: Usage): seq<Key> {
    [GLOBAL] + Named(Project, u.project) + Named(Agent, u.agent) + Named(Task, u.task)
  }

  function Charge(s: Settings, book: Book, key: Key, cost: real, today: int): Book {
    var b := Current(s, book, key, today);
    book[key := b.(spentMonth := b.spentMonth + cost, spentDay := b.spentDay + cost)]
  }

  function ChargeAll(s: Settings, book: Book, keys: seq<Key>, cost: real, today: int): Book {
    if keys == [] then book
    else Charge(s, ChargeAll(s, book, keys[..|keys| - 1], cost, today), keys[|keys| - 1], cost, today)
  }

  predicate Hits(u: Usage, key: Key) {
    match key.scope
    case Global => key == GLOBAL
    case Project => u.project == Some(key.id) && key.id != ""
    case Agent => u.agent == Some(key.id) && key.id != ""
    case Task => u.task == Some(key.id) && key.id != ""
  }

  // ---- The counters and the log ----

  function BookAfter(s: Settings, log: seq<Usage>): Book {
    if log == [] then map[]
    else
      var u := log[|log| - 1];
      ChargeAll(s, BookAfter(s, log[..|log| - 1]), Scopes(u), u.cost, u.day)
  }

  function Spent(log: seq<Usage>, key: Key): real {
    if log == [] then 0.0
    else Spent(log[..|log| - 1], key) + if Hits(log[|log| - 1], key) then log[|log| - 1].cost else 0.0
  }

  function SpentOn(log: seq<Usage>, key: Key, day: int): real {
    if log == [] then 0.0
    else
      var u := log[|log| - 1];
      SpentOn(log[..|log| - 1], key, day) + if Hits(u, key) && u.day == day then u.cost else 0.0
  }

  // The days do not go back, and today is not before the last of them.
  ghost predicate Chronological(log: seq<Usage>, today: int) {
    (forall i, j :: 0 <= i < j < |log| ==> log[i].day <= log[j].day)
    && forall i :: 0 <= i < |log| ==> log[i].day <= today
  }

  lemma ScopesAreDistinct(u: Usage)
    ensures Distinct(Scopes(u))
  {
  }

  // A usage hits exactly the scopes it is charged to.
  lemma HitsAreScopes(u: Usage, key: Key)
    ensures key in Scopes(u) <==> Hits(u, key)
  {
  }

  // Charging distinct scopes charges each of them once and no other.
  lemma {:induction false} ChargedOnce(s: Settings, book: Book, keys: seq<Key>, cost: real, today: int, key: Key)
    requires Distinct(keys)
    ensures var after := ChargeAll(s, book, keys, cost, today);
      if key in keys then key in after && after[key] == Charge(s, book, key, cost, today)[key]
      else (key in after <==> key in book) && (key in book ==> after[key] == book[key])
  {
    if keys != [] {
      var n := |keys| - 1;
      ChargedOnce(s, book, keys[..n], cost, today, key);
      ChargedOnce(s, book, keys[..n], cost, today, keys[n]);
      assert keys == keys[..n] + [keys[n]];
      assert keys[n] !in keys[..n];
    }
  }

  // What the book holds under a key: nothing yet, or the sums of the log.
  ghost predicate Accounts(s: Settings, log: seq<Usage>, book: Book, key: Key) {
    if key in book
    then
      book[key].spentMonth == Spent(log, key) && book[key].spentDay == SpentOn(log, key, book[key].day)
      && (exists i :: 0 <= i < |log| && log[i].day == book[key].day)
      && (forall i :: 0 <= i < |log| && Hits(log[i], key) ==> log[i].day <= book[key].day)
      && book[key].monthlyLimit == Default(s, key, 0).monthlyLimit
         && book[key].dailyLimit == Default(s, key, 0).dailyLimit
    else forall i :: 0 <= i < |log| ==> !Hits(log[i], key)
  }

  lemma {:induction false} NothingLater(log: seq<Usage>, key: Key, day: int)
    requires forall i :: 0 <= i < |log| && Hits(log[i], key) ==> log[i].day != day
    ensures SpentOn(log, key, day) == 0.0
  {
    if log != [] {
      NothingLater(log[..|log| - 1], key, day);
    }
  }

  lemma {:induction false} NothingSpent(log: seq<Usage>, key: Key)
    requires forall i :: 0 <= i < |log| ==> !Hits(log[i], key)
    ensures Spent(log, key) == 0.0
  {
    if log != [] {
      NothingSpent(log[..|log| - 1], key);
    }
  }

  // Read on a day not before the last, the counters are the sums of the log.
  lemma ReadsTheLog(s: Settings, log: seq<Usage>, book: Book, key: Key, today: int)
    requires Accounts(s, log, book, key) && Chronological(log, today)
    ensures var b := Current(s, book, key, today);
      b.spentMonth == Spent(log, key) && b.spentDay == SpentOn(log, key, today) && b.day == today
      && b.monthlyLimit == Default(s, key, 0).monthlyLimit && b.dailyLimit == Default(s, key, 0).dailyLimit
  {
    if key !in book {
      NothingSpent(log, key);
      NothingLater(log, key, today);
    } else if book[key].day != today {
      NothingLater(log, key, today);
    }
  }

  lemma RecordAccounts(s: Settings, log: seq<Usage>, book: Book, u: Usage, keys: seq<Key>, key: Key)
    requires Accounts(s, log, book, key) && Chronological(log, u.day)
    requires Distinct(keys) && (key in keys <==> Hits(u, key))
    ensures Accounts(s, log + [u], ChargeAll(s, book, keys, u.cost, u.day), key)
  {
    ChargedOnce(s, book, keys, u.cost, u.day, key);
    var more, after := log + [u], ChargeAll(s, book, keys, u.cost, u.day);
    assert more[..|log|] == log && more[|log|] == u;
    if Hits(u, key) {
      ReadsTheLog(s, log, book, key, u.day);
      assert after[key].day == u.day;
    } else if key in book {
      var i :| 0 <= i < |log| && log[i].day == book[key].day;
      assert more[i].day == after[key].day;
    }
  }

  lemma {:induction false} BookAccounts(s: Settings, log: seq<Usage>, today: int, key: Key)
    requires Chronological(log, today)
    ensures Accounts(s, log, BookAfter(s, log), key)
  {
    if log != [] {
      var n := |log| - 1;
      BookAccounts(s, log[..n], log[n].day, key);
      ScopesAreDistinct(log[n]);
      HitsAreScopes(log[n], key);
      RecordAccounts(s, log[..n], BookAfter(s, log[..n]), log[n], Scopes(log[n]), key);
      assert log == log[..n] + [log[n]];
    }
  }

  /** After any log in order of days, every scope's monthly counter is the sum of all its
    * usages ever, and its daily counter, read today, the sum of today's. */
  lemma CountersAreTheLog(s: Settings, log: seq<Usage>, key: Key, today: int)
    requires Chronological(log, today)
    ensures var b := Current(s, BookAfter(s, log), key, today);
      b.spentMonth == Spent(log, key) && b.spentDay == SpentOn(log, key, today)
  {
    BookAccounts(s, log, today, key);
    ReadsTheLog(s, log, BookAfter(s, log), key, today);
  }

  // ---- The monthly counter never starts again ----

  function SpentIn(log: seq<Usage>, key: Key, from: int): real {
    if log == [] then 0.0
    else
      var u := log[|log| - 1];
      SpentIn(log[..|log| - 1], key, from) + if Hits(u, key) && u.day >= from then u.cost else 0.0
  }

  function SpentBefore(log: seq<Usage>, key: Key, from: int): real {
    if log == [] then 0.0
    else
      var u := log[|log| - 1];
      SpentBefore(log[..|log| - 1], key, from) + if Hits(u, key) && u.day < from then u.cost else 0.0
  }

  lemma {:induction false} SpentSplits(log: seq<Usage>, key: Key, from: int)
    ensures Spent(log, key) == SpentBefore(log, key, from) + SpentIn(log, key, from)
  {
    if log != [] {
      SpentSplits(log[..|log| - 1], key, from);
    }
  }

  /** The monthly counter is the spending of the month that began on a day exactly when
    * nothing was spent before that day. */
  lemma MonthCounterNeverResets(s: Settings, log: seq<Usage>, key: Key, today: int, monthStart: int)
    requires Chronological(log, today)
    ensures Current(s, BookAfter(s, log), key, today).spentMonth == SpentIn(log, key, monthStart)
       <==> SpentBefore(log, key, monthStart) == 0.0
  {
    CountersAreTheLog(s, log, key, today);
    SpentSplits(log, key, monthStart);
  }

  // ---- Conservation ----

  function SpentByProjects(log: seq<Usage>, projects: seq<string>): real {
    if projects == [] then 0.0
    else SpentByProjects(log, projects[..|projects| - 1]) + Spent(log, Key(Project, projects[|projects| - 1]))
  }

  function SpentWithoutProject(log: seq<Usage>): real {
    if log == [] then 0.0
    else SpentWithoutProject(log[..|log| - 1]) + if Named(Project, log[|log| - 1].project) == []
      then log[|log| - 1].cost else 0.0
  }

  // What the last usage adds over a list of distinct projects.
  lemma {:induction false} ProjectsOneMore(log: seq<Usage>, u: Usage, projects: seq<string>)
    requires forall i, j :: 0 <= i < j < |projects| ==> projects[i] != projects[j]
    ensures SpentByProjects(log + [u], projects)
         == SpentByProjects(log, projects)
            + if u.project.Some? && u.project.value != "" && u.project.value in projects then u.cost else 0.0
  {
    if projects != [] {
      var n := |projects| - 1;
      ProjectsOneMore(log, u, projects[..n]);
      assert (log + [u])[..|log|] == log;
      assert projects == projects[..n] + [projects[n]];
      ProjectHit(u, projects[n]);
    }
  }

  lemma ProjectHit(u: Usage, project: string)
    ensures Hits(u, Key(Project, project)) <==> u.project == Some(project) && project != ""
  {
  }

  lemma {:induction false} NothingByNobody(projects: seq<string>)
    ensures SpentByProjects([], projects) == 0.0
  {
    if projects != [] {
      NothingByNobody(projects[..|projects| - 1]);
    }
  }

  /** The projects' totals and what no project was charged for add up to the global total. */
  lemma {:induction false} ProjectsAddUpToGlobal(log: seq<Usage>, projects: seq<string>)
    requires forall i, j :: 0 <= i < j < |projects| ==> projects[i] != projects[j]
    requires forall i :: 0 <= i < |log| && Named(Project, log[i].project) != [] ==> log[i].project.value in projects
    ensures SpentByProjects(log, projects) + SpentWithoutProject(log) == Spent(log, GLOBAL)
  {
    if log == [] {
      NothingByNobody(projects);
    } else {
      var n := |log| - 1;
      ProjectsAddUpToGlobal(log[..n], projects);
      ProjectsOneMore(log[..n], log[n], projects);
      assert log == log[..n] + [log[n]];
      assert Hits(log[n], GLOBAL);
    }
  }

  /** Any projects' totals come to at most the global total. */
  lemma {:induction false} ProjectsStayBelowGlobal(log: seq<Usage>, projects: seq<string>)
    requires forall i, j :: 0 <= i < j < |projects| ==> projects[i] != projects[j]
    requires forall i :: 0 <= i < |log| ==> log[i].cost >= 0.0
    ensures SpentByProjects(log, projects) <= Spent(log, GLOBAL)
  {
    if log == [] {
      NothingByNobody(projects);
    } else {
      var n := |log| - 1;
      ProjectsStayBelowGlobal(log[..n], projects);
      ProjectsOneMore(log[..n], log[n], projects);
      assert log == log[..n] + [log[n]];
      assert Hits(log[n], GLOBAL);
    }
  }

  // ---- Decisions ----

  datatype Decision = Approve | Downgrade(model: string) | Reject

  predicate WithinLimits(b: Budget, cost: real) {
    (b.monthlyLimit.None? || b.spentMonth + cost <= b.monthlyLimit.value)
    && (b.dailyLimit.None? || b.spentDay + cost <= b.dailyLimit.value)
  }

  // Picks a cheaper model of a tier; absent when downgrading is off.
  type Picker = Option<string -> Option<string>>

  function LowerTier(tier: string): Option<string> {
    if tier == "t3" then Some("t2") else if tier == "t2" then Some("t1") else if tier == "t1" then Some("t0") else None
  }

  function Decide(b: Budget, cost: real, tier: string, picker: Picker): Decision {
    if cost <= 0.0 || WithinLimits(b, cost) then Approve
    else
      var target := LowerTier(tier);
      if picker.Some? && target.Some? && picker.value(target.value).Some? && picker.value(target.value) != Some("")
      then Downgrade(picker.value(target.value).value)
      else Reject
  }

  // The decision on usage i under a scope, when the usage before it has been recorded.
  function DecisionOn(s: Settings, log: seq<Usage>, i: nat, key: Key, tier: string, picker: Picker): Decision
    requires i < |log|
  {
    Decide(Current(s, BookAfter(s, log[..i]), key, log[i].day), log[i].cost, tier, picker)
  }

  // Usage i is approved under the scope, whatever tier and picker it is checked with.
  ghost predicate ApprovedAt(s: Settings, log: seq<Usage>, i: nat, key: Key)
    requires i < |log|
  {
    forall tier, picker :: DecisionOn(s, log, i, key, tier, picker) == Approve
  }

  // Tier and picker have no say in an approval.
  lemma ApprovalMeansWithin(s: Settings, log: seq<Usage>, i: nat, key: Key, tier: string, picker: Picker)
    requires i < |log|
    ensures DecisionOn(s, log, i, key, tier, picker) == Approve <==> ApprovedAt(s, log, i, key)
    ensures ApprovedAt(s, log, i, key)
       <==> log[i].cost <= 0.0 || WithinLimits(Current(s, BookAfter(s, log[..i]), key, log[i].day), log[i].cost)
  {
    assert ApprovedAt(s, log, i, key) ==> DecisionOn(s, log, i, key, "t0", None) == Approve;
  }

  // The next lower tier.
  predicate Below(target: string, tier: string) {
    (target == "t2" && tier == "t3") || (target == "t1" && tier == "t2") || (target == "t0" && tier == "t1")
  }

  // A cheaper model there is for the tier, when downgrading is on.
  predicate Cheaper(picker: Picker, tier: string, model: string) {
    picker.Some? && model != "" && exists target :: target in ["t0", "t1", "t2"] && Below(target, tier)
                                                    && picker.value(target) == Some(model)
  }

  // The limits that the settings give a scope, and what the log has charged to it.
  predicate LogFits(s: Settings, log: seq<Usage>, key: Key, cost: real, today: int) {
    match key.scope
    case Global =>
      (s.globalMonthly.Some? ==> Spent(log, key) + cost <= s.globalMonthly.value)
      && (s.globalDaily.Some? ==> SpentOn(log, key, today) + cost <= s.globalDaily.value)
    case Project => s.projectMonthly.Some? ==> Spent(log, key) + cost <= s.projectMonthly.value
    case Agent => true
    case Task => true
  }

  /** The decision, said of the log alone: a cost that is not positive, or fits what all usages
    * so far leave of the scope's limits, is approved; another one gets the cheaper model of the
    * next lower tier when there is one, and is rejected when there is none. */
  lemma DecisionFollowsTheLog(
    s: Settings, log: seq<Usage>, key: Key, cost: real, tier: string, picker: Picker, today: int)
    requires Chronological(log, today)
    ensures var d := Decide(Current(s, BookAfter(s, log), key, today), cost, tier, picker);
      (d.Approve? <==> cost <= 0.0 || LogFits(s, log, key, cost, today))
      && (forall model :: d == Downgrade(model) <==>
            cost > 0.0 && !LogFits(s, log, key, cost, today) && Cheaper(picker, tier, model))
  {
    BookAccounts(s, log, today, key);
    CountersAreTheLog(s, log, key, today);
    assert LowerTier(tier).Some? ==> Below(LowerTier(tier).value, tier);
    assert forall target :: target in ["t0", "t1", "t2"] && Below(target, tier) ==> LowerTier(tier) == Some(target);
  }

  // Every usage of the scope was checked under it with its exact cost, and approved.
  ghost predicate Approved(s: Settings, log: seq<Usage>, key: Key) {
    forall i :: 0 <= i < |log| && Hits(log[i], key) ==> ApprovedAt(s, log, i, key)
  }

  ghost predicate NonNegative(log: seq<Usage>) {
    forall i :: 0 <= i < |log| ==> log[i].cost >= 0.0
  }

  ghost predicate SaneLimits(s: Settings, key: Key) {
    var b := Default(s, key, 0);
    (b.monthlyLimit.Some? ==> b.monthlyLimit.value >= 0.0) && (b.dailyLimit.Some? ==> b.dailyLimit.value >= 0.0)
  }

  // Neither limit of the scope is passed when it is read on the day after n usages.
  predicate KeepsLimits(s: Settings, log: seq<Usage>, n: nat, key: Key, day: int)
    requires n <= |log|
  {
    WithinLimits(Current(s, BookAfter(s, log[..n]), key, day), 0.0)
  }

  // Neither limit is ever passed: after any of the usages, read on any day from then on.
  ghost predicate NeverPassed(s: Settings, log: seq<Usage>, key: Key) {
    forall n: nat, day: int :: n <= |log| && Chronological(log[..n], day) ==> KeepsLimits(s, log, n, key, day)
  }

  /** A positive usage leaves the scope's limits kept exactly when it was approved. */
  lemma KeptExactlyWhenApproved(s: Settings, log: seq<Usage>, i: nat, key: Key)
    requires i < |log| && Hits(log[i], key) && log[i].cost > 0.0
    ensures KeepsLimits(s, log, i + 1, key, log[i].day) <==> ApprovedAt(s, log, i, key)
  {
    var u, book := log[i], BookAfter(s, log[..i]);
    assert log[..i + 1][..i] == log[..i];
    ScopesAreDistinct(u);
    HitsAreScopes(u, key);
    ChargedOnce(s, book, Scopes(u), u.cost, u.day, key);
    ApprovalMeansWithin(s, log, i, key, "t0", None);
    ChargedBudget(s, book, BookAfter(s, log[..i + 1]), key, u.cost, u.day);
  }

  lemma ChargedBudget(s: Settings, book: Book, after: Book, key: Key, cost: real, day: int)
    requires key in after && after[key] == Charge(s, book, key, cost, day)[key]
    ensures WithinLimits(Current(s, after, key, day), 0.0) <==> WithinLimits(Current(s, book, key, day), cost)
  {
  }

  // So keeping the limits is said of the log alone, too.
  lemma KeepsLimitsOfTheLog(s: Settings, log: seq<Usage>, n: nat, key: Key, day: int)
    requires n <= |log| && Chronological(log[..n], day)
    ensures KeepsLimits(s, log, n, key, day) <==> LogFits(s, log[..n], key, 0.0, day)
  {
    BookAccounts(s, log[..n], day, key);
    CountersAreTheLog(s, log[..n], key, day);
  }

  lemma ApprovedPrefix(s: Settings, log: seq<Usage>, n: nat, key: Key)
    requires Approved(s, log, key) && n <= |log|
    ensures Approved(s, log[..n], key)
  {
    forall i | 0 <= i < n && Hits(log[..n][i], key) ensures ApprovedAt(s, log[..n], i, key) {
      assert log[..n][..i] == log[..i] && ApprovedAt(s, log, i, key);
      ApprovalMeansWithin(s, log, i, key, "t0", None);
      ApprovalMeansWithin(s, log[..n], i, key, "t0", None);
    }
  }

  /** When every usage charged to a scope was approved under that scope with its exact
    * cost, neither of its limits is ever passed, on whatever day it is read. */
  lemma {:induction false} ApprovedSpendingStaysWithinLimits(s: Settings, log: seq<Usage>, key: Key, today: int)
    requires Chronological(log, today) && NonNegative(log) && Approved(s, log, key) && SaneLimits(s, key)
    ensures WithinLimits(Current(s, BookAfter(s, log), key, today), 0.0)
  {
    if log == [] {
      BookAccounts(s, log, today, key);
      ReadsTheLog(s, log, BookAfter(s, log), key, today);
    } else {
      var n := |log| - 1;
      ApprovedPrefix(s, log, n, key);
      ApprovedSpendingStaysWithinLimits(s, log[..n], key, today);
      ApprovedSpendingStaysWithinLimits(s, log[..n], key, log[n].day);
      ReadAfterLast(s, log, key, today);
      ReadOnLastDay(s, log, key, today);
      if Hits(log[n], key) && log[n].cost > 0.0 {
        KeptExactlyWhenApproved(s, log, n, key);
        assert log[..n + 1] == log;
      }
    }
  }

  // What the last usage adds to the counters read today.
  lemma ReadAfterLast(s: Settings, log: seq<Usage>, key: Key, today: int)
    requires log != [] && Chronological(log, today)
    ensures var n := |log| - 1; var u := log[n];
      var before, after := Current(s, BookAfter(s, log[..n]), key, today), Current(s, BookAfter(s, log), key, today);
      after.monthlyLimit == before.monthlyLimit && after.dailyLimit == before.dailyLimit
      && after.spentMonth == before.spentMonth + (if Hits(u, key) then u.cost else 0.0)
      && after.spentDay == before.spentDay + if Hits(u, key) && today == u.day then u.cost else 0.0
  {
    ReadsTheSums(s, log[..|log| - 1], key, today);
    ReadsTheSums(s, log, key, today);
  }

  // Today and on the day of the last usage the same is read, but for what was spent on the day.
  lemma ReadOnLastDay(s: Settings, log: seq<Usage>, key: Key, today: int)
    requires log != [] && Chronological(log, today)
    ensures var last := log[|log| - 1].day;
      var after, onDay := Current(s, BookAfter(s, log), key, today), Current(s, BookAfter(s, log), key, last);
      after.spentMonth == onDay.spentMonth && (today == last ==> after.spentDay == onDay.spentDay)
      && after.monthlyLimit == onDay.monthlyLimit && after.dailyLimit == onDay.dailyLimit
  {
    ReadsTheSums(s, log, key, today);
    ReadsTheSums(s, log, key, log[|log| - 1].day);
  }

  lemma ReadsTheSums(s: Settings, log: seq<Usage>, key: Key, today: int)
    requires Chronological(log, today)
    ensures var b := Current(s, BookAfter(s, log), key, today);
      b.spentMonth == Spent(log, key) && b.spentDay == SpentOn(log, key, today)
      && b.monthlyLimit == Default(s, key, 0).monthlyLimit && b.dailyLimit == Default(s, key, 0).dailyLimit
  {
    BookAccounts(s, log, today, key);
    ReadsTheLog(s, log, BookAfter(s, log), key, today);
  }

  lemma ApprovedIsNeverPassed(s: Settings, log: seq<Usage>, key: Key, n: nat, day: int)
    requires NonNegative(log) && SaneLimits(s, key) && Approved(s, log, key)
    requires n <= |log| && Chronological(log[..n], day)
    ensures KeepsLimits(s, log, n, key, day)
  {
    ApprovedPrefix(s, log, n, key);
    ApprovedSpendingStaysWithinLimits(s, log[..n], key, day);
  }

  lemma NeverPassedIsApproved(s: Settings, log: seq<Usage>, key: Key, today: int, i: nat)
    requires Chronological(log, today) && NeverPassed(s, log, key) && i < |log| && Hits(log[i], key)
    ensures ApprovedAt(s, log, i, key)
  {
    ApprovalMeansWithin(s, log, i, key, "t0", None);
    if log[i].cost > 0.0 {
      assert Chronological(log[..i + 1], log[i].day);
      assert KeepsLimits(s, log, i + 1, key, log[i].day);
      KeptExactlyWhenApproved(s, log, i, key);
    }
  }

  /** For any log of non-negative costs and any scope: the scope's limits are never passed
    * if and only if every usage charged to it was approved under it. */
  lemma NeverPassedExactlyWhenApproved(s: Settings, log: seq<Usage>, key: Key, today: int)
    requires Chronological(log, today) && NonNegative(log) && SaneLimits(s, key)
    ensures NeverPassed(s, log, key) <==> Approved(s, log, key)
  {
    if Approved(s, log, key) {
      forall n: nat, day: int | n <= |log| && Chronological(log[..n], day) ensures KeepsLimits(s, log, n, key, day) {
        ApprovedIsNeverPassed(s, log, key, n, day);
      }
    }
    if NeverPassed(s, log, key) {
      forall i | 0 <= i < |log| && Hits(log[i], key) ensures ApprovedAt(s, log, i, key) {
        NeverPassedIsApproved(s, log, key, today, i);
      }
    }
  }

  // ---- The router's checks ----

  // The router checks a usage under its project, or globally when it has none.
  function CheckedUnder(u: Usage): Key {
    if u.project.Some? && u.project.value != "" then Key(Project, u.project.value) else GLOBAL
  }

  ghost predicate RouterApproved(s: Settings, log: seq<Usage>) {
    forall i :: 0 <= i < |log| ==> ApprovedAt(s, log, i, CheckedUnder(log[i]))
  }

  /** Spending that the router approved keeps the global limits if and only if every usage
    * of a project would also have been approved globally. */
  lemma GlobalLimitKeptExactlyWhenAlsoApprovedGlobally(s: Settings, log: seq<Usage>, today: int)
    requires Chronological(log, today) && NonNegative(log) && SaneLimits(s, GLOBAL) && RouterApproved(s, log)
    ensures NeverPassed(s, log, GLOBAL)
       <==> forall i :: 0 <= i < |log| && CheckedUnder(log[i]) != GLOBAL ==> ApprovedAt(s, log, i, GLOBAL)
  {
    NeverPassedExactlyWhenApproved(s, log, GLOBAL, today);
    assert forall i :: 0 <= i < |log| ==> Hits(log[i], GLOBAL);
    if forall i :: 0 <= i < |log| && CheckedUnder(log[i]) != GLOBAL ==> ApprovedAt(s, log, i, GLOBAL) {
      forall i | 0 <= i < |log| ensures ApprovedAt(s, log, i, GLOBAL) {
        assert ApprovedAt(s, log, i, CheckedUnder(log[i]));
      }
    }
  }

  // The router's own limits are kept: those of every project.
  lemma RouterKeepsProjectLimits(s: Settings, log: seq<Usage>, project: string, today: int)
    requires Chronological(log, today) && NonNegative(log) && SaneLimits(s, Key(Project, project))
      && RouterApproved(s, log)
    ensures NeverPassed(s, log, Key(Project, project))
  {
    NeverPassedExactlyWhenApproved(s, log, Key(Project, project), today);
    forall i | 0 <= i < |log| && Hits(log[i], Key(Project, project))
      ensures ApprovedAt(s, log, i, Key(Project, project))
    {
      assert CheckedUnder(log[i]) == Key(Project, project);
    }
  }

  /** One usage the router approves can pass the global limit. */
  lemma GlobalLimitCanBePassed(s: Settings, u: Usage)
    requires s.globalMonthly.Some? && s.projectMonthly.Some? && u.project.Some? && u.project.value != ""
    requires 0.0 <= s.globalMonthly.value < u.cost <= s.projectMonthly.value
    ensures RouterApproved(s, [u]) && !NeverPassed(s, [u], GLOBAL)
  {
    assert [u][..0] == [] && [u][..1] == [u];
    ApprovalMeansWithin(s, [u], 0, Key(Project, u.project.value), "t0", None);
    ApprovalMeansWithin(s, [u], 0, GLOBAL, "t0", None);
    KeptExactlyWhenApproved(s, [u], 0, GLOBAL);
    assert !KeepsLimits(s, [u], 1, GLOBAL, u.day);
  }

  // ---- The manager ----

  class BudgetManager {
    const settings: Settings
    var book: Book

    constructor (settings: Settings)
      ensures this.settings == settings && book == map[]
    {
      this.settings := settings;
      book := map[];
    }

    // Reads a budget; a missing one is stored, a new day is only seen by the reader.
    method Get(key: Key, today: int) returns (b: Budget)
      modifies this
      ensures b == Current(settings, old(book), key, today)
      ensures book == if key in old(book) then old(book) else old(book)[key := Default(settings, key, today)]
      ensures forall k, day :: Current(settings, book, k, day) == Current(settings, old(book), k, day)
    {
      if key !in book {
        book := book[key := Default(settings, key, today)];
      }
      b := Rolled(book[key], today);
    }

    method Check(key: Key, cost: real, tier: string, picker: Picker, today: int)
      returns (decision: Decision)
      modifies this
      ensures decision == Decide(Current(settings, old(book), key, today), cost, tier, picker)
      ensures forall k, day :: Current(settings, book, k, day) == Current(settings, old(book), k, day)
    {
      if cost <= 0.0 {
        return Approve;
      }
      var b := Get(key, today);
      var withinMonth := b.monthlyLimit.None? || b.spentMonth + cost <= b.monthlyLimit.value;
      var withinDay := b.dailyLimit.None? || b.spentDay + cost <= b.dailyLimit.value;
      if withinMonth && withinDay {
        return Approve;
      }
      var target := LowerTier(tier);
      if picker.Some? && target.Some? {
        var model := picker.value(target.value);
        if model.Some? && model.value != "" {
          return Downgrade(model.value);
        }
      }
      decision := Reject;
    }

    /** Charges a usage to the global budget and to its project, agent and task. */
    method Record(u: Usage)
      modifies this
      ensures book == ChargeAll(settings, old(book), Scopes(u), u.cost, u.day)
    {
      ChargeScopes(Scopes(u), u.cost, u.day);
    }

    method ChargeScopes(scopes: seq<Key>, cost: real, today: int)
      modifies this
      ensures book == ChargeAll(settings, old(book), scopes, cost, today)
    {
      for i := 0 to |scopes|
        invariant book == ChargeAll(settings, old(book), scopes[..i], cost, today)
      {
        assert scopes[..i + 1][..i] == scopes[..i];
        var b := Get(scopes[i], today);
        b := b.(spentMonth := b.spentMonth + cost, spentDay := b.spentDay + cost);
        book := book[scopes[i] := b];
      }
      assert scopes[..|scopes|] == scopes;
    }
  }
}
