/** The lock manager's in-process table: an owner and an expiry per key, with
  * the same acquire/release semantics as the Redis backend (SET NX PX and a
  * compare-and-delete script). Every operation is one atomic step, reading the
  * clock once. */
module Locks {
  import opened Wrappers

  datatype Hold = Hold(owner: string, expiresAt: real)

  type Table = map<string, Hold>

  datatype Request =
    | Acquire(key: string, owner: string, ttl: real, at: real)
    | Release(key: string, owner: string, at: real)
    | Query(key: string, at: real)

  predicate Held(table: Table, key: string, now: real) {
    key in table && now < table[key].expiresAt
  }

  // The answer to a request: won, released, or locked.
  predicate Answer(table: Table, r: Request) {
    match r
    case Acquire(key, _, _, at) => !Held(table, key, at)
    case Release(key, owner, _) => key in table && table[key].owner == owner
    case Query(key, at) => Held(table, key, at)
  }

  function Next(table: Table, r: Request): Table {
    match r
    case Acquire(key, owner, ttl, at) =>
      if Answer(table, r) then table[key := Hold(owner, at + ttl)] else table
    case Release(key, _, _) =>
      if Answer(table, r) then table - {key} else table
    case Query(key, at) =>
      if key in table && !Held(table, key, at) then table - {key} else table
  }

  function After(table: Table, requests: seq<Request>): Table {
    if requests == [] then table
    else Next(After(table, requests[..|requests| - 1]), requests[|requests| - 1])
  }

  ghost predicate ClockNeverRunsBack(requests: seq<Request>) {
    forall i, j :: 0 <= i < j < |requests| ==> requests[i].at <= requests[j].at
  }

  ghost predicate Wins(table: Table, requests: seq<Request>, i: nat) {
    i < |requests| && requests[i].Acquire? && Answer(After(table, requests[..i]), requests[i])
  }

  // A request that gives back the lock which request i won.
  ghost predicate GivesBack(requests: seq<Request>, i: nat, m: nat) {
    i < m < |requests| && requests[i].Acquire? && requests[m].Release?
    && requests[m].key == requests[i].key && requests[m].owner == requests[i].owner
  }

  lemma {:induction false} HoldPersists(table: Table, requests: seq<Request>, i: nat, n: nat)
    requires Wins(table, requests, i) && i < n <= |requests| && ClockNeverRunsBack(requests)
    requires forall m :: i < m < n ==> !GivesBack(requests, i, m)
    requires requests[n - 1].at < requests[i].at + requests[i].ttl
    ensures requests[i].key in After(table, requests[..n])
    ensures After(table, requests[..n])[requests[i].key]
         == Hold(requests[i].owner, requests[i].at + requests[i].ttl)
  {
    assert requests[..n][..n - 1] == requests[..n - 1];
    if i + 1 < n {
      assert requests[n - 2].at <= requests[n - 1].at;
      assert !GivesBack(requests, i, n - 1);
      HoldPersists(table, requests, i, n - 1);
    }
  }

  /** Mutual exclusion over any history of requests under a clock that never
    * runs back: between two wins of one key, either somebody released it under
    * the first winner's name or the first winner's time to live ran out. */
  lemma SecondWinNeedsReleaseOrExpiry(table: Table, requests: seq<Request>, i: nat, j: nat)
    requires ClockNeverRunsBack(requests) && i < j
    requires Wins(table, requests, i) && Wins(table, requests, j)
    requires requests[i].key == requests[j].key
    ensures requests[j].at >= requests[i].at + requests[i].ttl
         || exists m :: i < m < j && GivesBack(requests, i, m)
  {
    if requests[j].at < requests[i].at + requests[i].ttl && forall m :: i < m < j ==> !GivesBack(requests, i, m) {
      assert requests[j - 1].at <= requests[j].at;
      HoldPersists(table, requests, i, j);
      assert false;
    }
  }

  // ---- The answers, said of the history alone ----

  // Request i won the lock and has not given it back before request n.
  ghost predicate StillWon(requests: seq<Request>, i: nat, n: nat) {
    Wins(map[], requests, i) && i < n && forall m :: i < m < n ==> !GivesBack(requests, i, m)
  }

  /** Request i holds the key when request j asks for it: won, not given back, not expired. */
  ghost predicate Holding(requests: seq<Request>, i: nat, j: nat) {
    j < |requests| && StillWon(requests, i, j) && requests[i].key == requests[j].key
    && requests[j].at < requests[i].at + requests[i].ttl
  }

  // Every entry of the table comes from a win that was not given back.
  lemma {:induction false} EntryIsAWin(requests: seq<Request>, n: nat, key: string) returns (i: nat)
    requires n <= |requests| && key in After(map[], requests[..n])
    ensures StillWon(requests, i, n) && requests[i].key == key
    ensures After(map[], requests[..n])[key] == Hold(requests[i].owner, requests[i].at + requests[i].ttl)
  {
    assert requests[..n][..n - 1] == requests[..n - 1];
    var before := After(map[], requests[..n - 1]);
    if requests[n - 1].key == key && Wins(map[], requests, n - 1) {
      i := n - 1;
    } else {
      i := EntryIsAWin(requests, n - 1, key);
      assert !GivesBack(requests, i, n - 1);
    }
  }

  /** From an empty table, under a clock that never runs back: a key is held exactly while a win
    * of it holds. So an acquire wins if and only if no earlier win holds the key, a query says
    * locked if and only if one does, and a holder's release is granted, one that nobody is
    * still to give back under that name is not. */
  lemma AnswersFollowTheHistory(requests: seq<Request>, j: nat)
    requires ClockNeverRunsBack(requests) && j < |requests|
    ensures var answer := Answer(After(map[], requests[..j]), requests[j]);
      match requests[j]
      case Acquire(_, _, _, _) => answer <==> forall i :: 0 <= i < j ==> !Holding(requests, i, j)
      case Query(_, _) => answer <==> exists i :: 0 <= i < j && Holding(requests, i, j)
      case Release(key, owner, _) =>
        ((exists i :: 0 <= i < j && Holding(requests, i, j) && requests[i].owner == owner) ==> answer)
        && (answer ==> exists i :: 0 <= i < j && StillWon(requests, i, j) && requests[i].key == key
                                   && requests[i].owner == owner)
  {
    var table, key := After(map[], requests[..j]), requests[j].key;
    forall i: nat | i < j && Holding(requests, i, j)
      ensures key in table && table[key] == Hold(requests[i].owner, requests[i].at + requests[i].ttl)
    {
      assert requests[j - 1].at <= requests[j].at;
      HoldPersists(map[], requests, i, j);
    }
    if key in table {
      var i := EntryIsAWin(requests, j, key);
      assert Held(table, key, requests[j].at) ==> Holding(requests, i, j);
    }
  }

  class LockManager {
    var local: Table
    const defaultTtl: real

    constructor (defaultTtl: real)
      ensures local == map[] && this.defaultTtl == defaultTtl
    {
      local := map[];
      this.defaultTtl := defaultTtl;
    }

    function Ttl(ttl: Option<real>): real {
      match ttl case Some(t) => t case None => defaultTtl
    }

    method AcquireLock(key: string, ttl: Option<real>, owner: string, now: real) returns (won: bool)
      modifies this
      ensures var lasts := if ttl.Some? then ttl.value else defaultTtl;
        won == Answer(old(local), Acquire(key, owner, lasts, now))
        && local == Next(old(local), Acquire(key, owner, lasts, now))
    {
      if key in local {
        if now < local[key].expiresAt {
          return false;
        }
        local := local - {key};
      }
      local := local[key := Hold(owner, now + Ttl(ttl))];
      return true;
    }

    method ReleaseLock(key: string, owner: string, now: real) returns (released: bool)
      modifies this
      ensures released == Answer(old(local), Release(key, owner, now))
      ensures local == Next(old(local), Release(key, owner, now))
    {
      if key !in local || local[key].owner != owner {
        return false;
      }
      local := local - {key};
      return true;
    }

    method IsLocked(key: string, now: real) returns (locked: bool)
      modifies this
      ensures locked == Answer(old(local), Query(key, now))
      ensures local == Next(old(local), Query(key, now))
    {
      if key !in local {
        return false;
      }
      if now >= local[key].expiresAt {
        local := local - {key};
        return false;
      }
      return true;
    }
  }
}
