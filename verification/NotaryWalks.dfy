/** The rate limiter that spaces out notary walks, and the schedule without pruning that it stands for. */
module NotaryWalks {
  import opened Base

  const PRUNE_AT: nat := 10000

  type Walks = map<ServerName, int>

  predicate Due(last: Walks, cooldown: int, server: ServerName, now: int) {
    server in last ==> now >= last[server] + cooldown
  }

  /** The entries that would still refuse a walk. */
  function Live(last: Walks, cooldown: int, now: int): Walks {
    map s | s in last && now < last[s] + cooldown :: last[s]
  }

  /** The schedule after one request. */
  function AfterTake(last: Walks, cooldown: int, server: ServerName, now: int): Walks {
    if !Due(last, cooldown, server, now) then last
    else if |last| >= PRUNE_AT then Live(last, cooldown, now)[server := now]
    else last[server := now]
  }

  class WalkSchedule {
    const cooldownMs: int
    var last: Walks

    constructor (cooldownMs: int)
      ensures this.cooldownMs == cooldownMs && last == map[]
    {
      this.cooldownMs := cooldownMs;
      last := map[];
    }

    /** Whether a walk may start now; if so it is recorded as started, and a large map is pruned first. */
    method Take(server: ServerName, now: int) returns (granted: bool)
      modifies this
      ensures granted <==> Due(old(last), cooldownMs, server, now)
      ensures last == AfterTake(old(last), cooldownMs, server, now)
      ensures granted <==> !(server in old(last) && now < old(last)[server] + cooldownMs)
      ensures !granted ==> last == old(last)
      ensures granted ==> server in last && last[server] == now
      ensures granted ==> forall other | other != server ::
                (other in last ==> other in old(last) && last[other] == old(last)[other])
                && (other in old(last) && (|old(last)| < 10_000 || now < old(last)[other] + cooldownMs) ==>
                      other in last)
      ensures granted && |old(last)| >= 10_000 ==>
                forall other | other in last && other != server :: now < last[other] + cooldownMs
    {
      if server in last && now < last[server] + cooldownMs {
        return false;
      }
      if |last| >= PRUNE_AT {
        ghost var before := last;
        var todo := last.Keys;
        while todo != {}
          invariant todo <= before.Keys
          invariant last == map s | s in before && (s in todo || now < before[s] + cooldownMs) :: before[s]
          decreases todo
        {
          var name :| name in todo;
          if now >= last[name] + cooldownMs {
            last := last - {name};
          }
          todo := todo - {name};
        }
        assert last == Live(before, cooldownMs, now);
      }
      last := last[server := now];
      return true;
    }
  }

  // ---------------------------------------------------------------- runs of requests

  datatype Request = Request(server: ServerName, now: int)

  predicate Chronological(requests: seq<Request>) {
    forall i, j | 0 <= i < j < |requests| :: requests[i].now <= requests[j].now
  }

  /** The limiter's map after the first n requests. */
  function WalksAfter(cooldown: int, requests: seq<Request>, n: nat): Walks
    requires n <= |requests|
  {
    if n == 0 then map[]
    else AfterTake(WalksAfter(cooldown, requests, n - 1), cooldown, requests[n - 1].server, requests[n - 1].now)
  }

  /** The answer to the i-th request. */
  predicate Granted(cooldown: int, requests: seq<Request>, i: nat)
    requires i < |requests|
  {
    Due(WalksAfter(cooldown, requests, i), cooldown, requests[i].server, requests[i].now)
  }

  /** The reference schedule, which records every grant and forgets none. */
  function EverythingAfter(cooldown: int, requests: seq<Request>, n: nat): Walks
    requires n <= |requests|
  {
    if n == 0 then map[]
    else
      var before := EverythingAfter(cooldown, requests, n - 1);
      var r := requests[n - 1];
      if Due(before, cooldown, r.server, r.now) then before[r.server := r.now] else before
  }

  predicate GrantedByReference(cooldown: int, requests: seq<Request>, i: nat)
    requires i < |requests|
  {
    Due(EverythingAfter(cooldown, requests, i), cooldown, requests[i].server, requests[i].now)
  }

  /** `last` is `all` without some entries that can refuse nothing from `now` on. */
  predicate IsPruning(last: Walks, all: Walks, cooldown: int, now: int) {
    && (forall s | s in last :: s in all && last[s] == all[s])
    && (forall s | s in all && s !in last :: now >= all[s] + cooldown)
    && (forall s | s in all :: all[s] <= now)
  }

  lemma TakeKeepsPruning(last: Walks, all: Walks, cooldown: int, before: int, r: Request)
    requires IsPruning(last, all, cooldown, before) && before <= r.now
    ensures Due(last, cooldown, r.server, r.now) <==> Due(all, cooldown, r.server, r.now)
    ensures IsPruning(AfterTake(last, cooldown, r.server, r.now),
                      if Due(all, cooldown, r.server, r.now) then all[r.server := r.now] else all, cooldown, r.now)
  {
  }

  /**
    Pruning is invisible: for every run of requests in the order of time, the limiter answers exactly as
    the schedule that never forgets a grant.
   */
  lemma {:induction false} PruningIsInvisible(cooldown: int, requests: seq<Request>, i: nat)
    requires Chronological(requests) && i < |requests|
    ensures Granted(cooldown, requests, i) <==> GrantedByReference(cooldown, requests, i)
    ensures IsPruning(WalksAfter(cooldown, requests, i + 1), EverythingAfter(cooldown, requests, i + 1), cooldown,
              requests[i].now)
  {
    if i > 0 {
      PruningIsInvisible(cooldown, requests, i - 1);
      TakeKeepsPruning(WalksAfter(cooldown, requests, i), EverythingAfter(cooldown, requests, i), cooldown,
          requests[i - 1].now, requests[i]);
    } else {
      TakeKeepsPruning(map[], map[], cooldown, requests[0].now, requests[0]);
    }
  }

  /** The reference never loses a grant: its entry for a server is at least as late. */
  lemma {:induction false} ReferenceRemembers(cooldown: int, requests: seq<Request>, i: nat, n: nat)
    requires Chronological(requests) && i < n <= |requests|
    requires GrantedByReference(cooldown, requests, i)
    ensures requests[i].server in EverythingAfter(cooldown, requests, n)
    ensures requests[i].now <= EverythingAfter(cooldown, requests, n)[requests[i].server]
  {
    if i < n - 1 {
      ReferenceRemembers(cooldown, requests, i, n - 1);
    }
  }

  /** Two grants for one server are at least a cooldown apart. */
  lemma GrantsAreSpaced(cooldown: int, requests: seq<Request>, i: nat, j: nat)
    requires Chronological(requests) && i < j < |requests|
    requires Granted(cooldown, requests, i) && Granted(cooldown, requests, j)
    requires requests[i].server == requests[j].server
    ensures requests[j].now >= requests[i].now + cooldown
  {
    PruningIsInvisible(cooldown, requests, i);
    PruningIsInvisible(cooldown, requests, j);
    ReferenceRemembers(cooldown, requests, i, j);
  }

  predicate GrantOf(cooldown: int, requests: seq<Request>, server: ServerName, since: int, i: nat)
    requires i < |requests|
  {
    requests[i].server == server && requests[i].now >= since && Granted(cooldown, requests, i)
  }

  /** How many of the first n requests are grants for a server at or after a time. */
  function GrantsSince(cooldown: int, requests: seq<Request>, server: ServerName, since: int, n: nat): nat
    requires n <= |requests|
  {
    if n == 0 then 0
    else
      var before := GrantsSince(cooldown, requests, server, since, n - 1);
      before + if GrantOf(cooldown, requests, server, since, n - 1) then 1 else 0
  }

  /** All grants but the first cost a cooldown each. */
  lemma {:induction false} GrantsTakeTime(cooldown: int, requests: seq<Request>, server: ServerName, since: int, n: nat,
                                          latest: int)
    requires cooldown > 0
    requires Chronological(requests) && n <= |requests|
    requires forall i | 0 <= i < n && GrantOf(cooldown, requests, server, since, i) :: requests[i].now <= latest
    ensures GrantsSince(cooldown, requests, server, since, n) > 0 ==>
              (GrantsSince(cooldown, requests, server, since, n) - 1) * cooldown <= latest - since
  {
    if n == 0 {
    } else {
      var last := requests[n - 1];
      var earlier := GrantsSince(cooldown, requests, server, since, n - 1);
      if GrantOf(cooldown, requests, server, since, n - 1) {
        forall i | 0 <= i < n - 1 && GrantOf(cooldown, requests, server, since, i)
          ensures requests[i].now <= last.now - cooldown
        {
          GrantsAreSpaced(cooldown, requests, i, n - 1);
        }
        GrantsTakeTime(cooldown, requests, server, since, n - 1, last.now - cooldown);
        assert earlier > 0 ==> earlier * cooldown == (earlier - 1) * cooldown + cooldown;
      } else {
        GrantsTakeTime(cooldown, requests, server, since, n - 1, latest);
      }
    }
  }

  lemma Quotient(x: int, y: int, d: int)
    requires d > 0 && x * d <= y
    ensures x <= y / d
  {
    assert y == d * (y / d) + y % d;
    assert y < (y / d + 1) * d;
    CancelFactor(x, y / d + 1, d);
  }

  lemma CancelFactor(a: int, b: int, d: int)
    requires d > 0 && a * d < b * d
    ensures a < b
  {
  }

  /** In any window, a server gets at most one grant per cooldown, and one more. */
  lemma GrantsInAWindow(cooldown: int, requests: seq<Request>, server: ServerName, since: int, window: nat, n: nat)
    requires cooldown > 0
    requires Chronological(requests) && n <= |requests|
    requires n > 0 ==> requests[n - 1].now <= since + window
    ensures GrantsSince(cooldown, requests, server, since, n) <= window / cooldown + 1
  {
    GrantsTakeTime(cooldown, requests, server, since, n, since + window);
    var grants := GrantsSince(cooldown, requests, server, since, n);
    if grants > 0 {
      Quotient(grants - 1, window, cooldown);
    }
  }

  // ---------------------------------------------------------------- size

  /** The time of the last grant among the first n requests. */
  function LastGrant(cooldown: int, requests: seq<Request>, n: nat): int
    requires n <= |requests|
  {
    if n == 0 then 0
    else if Granted(cooldown, requests, n - 1) then requests[n - 1].now
    else LastGrant(cooldown, requests, n - 1)
  }

  /** The servers granted a walk less than a cooldown before `now`. */
  function RecentServers(cooldown: int, requests: seq<Request>, n: nat, now: int): set<ServerName>
    requires n <= |requests|
  {
    set i | 0 <= i < n && now - requests[i].now < cooldown && Granted(cooldown, requests, i) :: requests[i].server
  }

  /** Every entry of the limiter's map is the time of a grant. */
  lemma {:induction false} EntriesAreGrants(cooldown: int, requests: seq<Request>, n: nat, s: ServerName)
    returns (i: nat)
    requires n <= |requests| && s in WalksAfter(cooldown, requests, n)
    ensures i < n && requests[i] == Request(s, WalksAfter(cooldown, requests, n)[s]) && Granted(cooldown, requests, i)
  {
    var before := WalksAfter(cooldown, requests, n - 1);
    if s in before && before[s] == WalksAfter(cooldown, requests, n)[s] {
      i := EntriesAreGrants(cooldown, requests, n - 1, s);
    } else {
      i := n - 1;
    }
  }

  /**
    Bounded memory: a map beyond the prune threshold holds only servers granted a walk within the
    cooldown that ends at the last grant, so it is no larger than their number.
   */
  lemma {:induction false} SizeIsBounded(cooldown: int, requests: seq<Request>, n: nat)
    requires cooldown > 0 && n <= |requests|
    ensures var last := WalksAfter(cooldown, requests, n);
            var recent := RecentServers(cooldown, requests, n, LastGrant(cooldown, requests, n));
            |last| > PRUNE_AT ==> last.Keys <= recent && |last| <= |recent|
  {
    if n == 0 {
    } else {
      SizeIsBounded(cooldown, requests, n - 1);
      var before := WalksAfter(cooldown, requests, n - 1);
      var last := WalksAfter(cooldown, requests, n);
      var recent := RecentServers(cooldown, requests, n, LastGrant(cooldown, requests, n));
      if |last| > PRUNE_AT {
        if Granted(cooldown, requests, n - 1) {
          assert |before| >= PRUNE_AT by {
            assert |before| < PRUNE_AT ==> |last| <= |before| + 1;
          }
          forall s | s in last ensures s in recent {
            var i := EntriesAreGrants(cooldown, requests, n, s);
            assert requests[i].server == s;
          }
        } else {
          assert last == before;
          assert RecentServers(cooldown, requests, n - 1, LastGrant(cooldown, requests, n - 1)) <= recent;
        }
        SubsetIsNoLarger(last.Keys, recent);
      }
    }
  }

  lemma {:induction false} SubsetIsNoLarger<T>(a: set<T>, b: set<T>)
    requires a <= b
    ensures |a| <= |b|
  {
    if a != {} {
      var x :| x in a;
      SubsetIsNoLarger(a - {x}, b - {x});
    }
  }
}
