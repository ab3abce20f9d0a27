/**
  How often an origin that keeps failing is probed, by requests and sweeper together. A probe begins when the
  record is read. It ends with the note of its failure, with a direct store of the whole reply, or, when
  the reply names another server, with nothing that this server's record shows.
 */
module Budget {
  import opened Base
  import opened Schedule
  import opened Tables
  import opened Events

  /** A direct store that writes the whole reply, which is how a probe succeeds. */
  predicate IsSuccess(e: Event) {
    IsDirectStore(e) && Storable(e.info)
  }

  predicate InWindow(e: Event, since: int, until: int) {
    e.ProbeFailed? && since <= e.now <= until
  }

  /** How many failed probes there are within a window. */
  function ProbesIn(events: seq<Event>, since: int, until: int): nat {
    if events == [] then 0
    else (if InWindow(events[0], since, until) then 1 else 0) + ProbesIn(events[1..], since, until)
  }

  // ---------------------------------------------------------------- probes under way

  /** Where the latest probe of a server stands, as far as its record shows. */
  datatype Progress =
    | Ended                           // its failure has been noted, or there was none so far
    | UnderWay(now: int, seen: int)   // it has begun
    | Stopped(now: int, seen: int)    // since then a reply was accepted whose store stopped half-way

  function NextProgress(p: Progress, e: Event): Progress {
    match e
    case ProbeBegins(now, seen) => UnderWay(now, seen)
    case ProbeFailed(_, _, _) => Ended
    case StoreAttempt(_, _, _, _, _) =>
      if p.Ended? || !IsDirectStore(e) then p
      else if IsSuccess(e) then UnderWay(p.now, p.seen)
      else Stopped(p.now, p.seen)
    case Invalidation => p
  }

  /** A failure is noted for the latest probe that began, and once. */
  predicate Fits(p: Progress, e: Event) {
    e.ProbeFailed? ==> !p.Ended? && p.now == e.now && p.seen == e.seen
  }

  /** No two failing probes overlap: each failure is noted before the next probe begins. */
  predicate NotedInTurn(p: Progress, events: seq<Event>)
    decreases |events|
  {
    events != [] ==> Fits(p, events[0]) && NotedInTurn(NextProgress(p, events[0]), events[1..])
  }

  /**
    What gives an origin a clean record other than the probe that fails anyway: a success, and a direct store
    that stops half-way and is not that of a probe whose failure is then noted. No probe of the server makes
    such a store; a reply that another origin gave under its name does.
   */
  predicate Renews(p: Progress, e: Event) {
    IsSuccess(e) || (IsDirectStore(e) && p.Ended?) || (e.ProbeBegins? && p.Stopped?)
  }

  function Renewals(p: Progress, events: seq<Event>): nat
    decreases |events|
  {
    if events == [] then 0
    else (if Renews(p, events[0]) then 1 else 0) + Renewals(NextProgress(p, events[0]), events[1..])
  }

  // ---------------------------------------------------------------- allowance

  /** What a window still allows: the rest of the ladder, then one probe a day. */
  function Allowance(failures: int, next: int, since: int, until: int): int {
    if failures < |ORIGIN_BACKOFF_LADDER| then |ORIGIN_BACKOFF_LADDER| - failures + (until - since) / DAY
    else if until < Max(next, since) then 0
    else 1 + (until - Max(next, since)) / DAY
  }

  /** What one clean record is worth. */
  function FullAllowance(window: nat): nat {
    5 + window / DAY
  }

  /** One due probe, counted or not, leaves the allowance at least one smaller, or as it was. */
  lemma ProbeSpendsAllowance(failures: int, since: int, until: int, now: int, wait: int)
    requires since <= until && failures >= 0 && wait >= 0
    requires failures + 1 >= |ORIGIN_BACKOFF_LADDER| ==> wait == DAY
    ensures (if since <= now <= until then 1 else 0) + Allowance(failures + 1, now + wait, since, until) <=
              Allowance(failures, now, since, until)
  {
  }

  lemma WaitingCostsNothing(failures: int, next: int, now: int, since: int, until: int)
    requires since <= until && next <= now
    ensures Allowance(failures, now, since, until) <= Allowance(failures, next, since, until)
  {
    if failures >= |ORIGIN_BACKOFF_LADDER| && until >= Max(now, since) {
      DayQuotientIsMonotonic(until - Max(now, since), until - Max(next, since));
    }
  }

  lemma AllowanceIsNatural(failures: int, next: int, since: int, until: int)
    requires since <= until
    ensures Allowance(failures, next, since, until) >= 0
  {
  }

  lemma AllowanceIsSmall(failures: nat, next: int, since: int, until: int)
    requires since <= until
    ensures Allowance(failures, next, since, until) <= FullAllowance(until - since)
  {
    if failures >= 5 && until >= Max(next, since) {
      DayQuotientIsMonotonic(until - Max(next, since), until - since);
    }
  }

  lemma DayQuotientIsMonotonic(x: nat, y: nat)
    requires x <= y
    ensures x / DAY <= y / DAY
  {
  }

  // ---------------------------------------------------------------- probe budget

  /** The allowance covers the record, unless it is reset in passing, and the probe under way. */
  predicate Covers(t: Tables, p: Progress, allowance: int, since: int, until: int) {
    && Failures(t) >= 0
    && (p.Stopped? || Allowance(Failures(t), NextAttempt(t), since, until) <= allowance)
    && (p.Ended? || (p.seen >= 0 && Allowance(p.seen, p.now, since, until) <= allowance))
  }

  function AllowanceAfter(p: Progress, e: Event, allowance: int, since: int, until: int): int
    requires since <= until
  {
    if Renews(p, e) then FullAllowance(until - since)
    else if InWindow(e, since, until) then allowance - 1
    else allowance
  }

  lemma ProbeIsCovered(t: Tables, p: Progress, e: Event, allowance: int, since: int, until: int)
    requires e.ProbeBegins? || e.ProbeFailed?
    requires since <= until && DueProbe(t, e) && AfterEpoch(e) && Fits(p, e) && Covers(t, p, allowance, since, until)
    ensures Covers(Apply(t, e), NextProgress(p, e), AllowanceAfter(p, e, allowance, since, until), since, until)
  {
    if e.ProbeBegins? {
      WaitingCostsNothing(e.seen, NextAttempt(t), e.now, since, until);
      AllowanceIsSmall(e.seen, e.now, since, until);
      AllowanceIsSmall(Failures(t), NextAttempt(t), since, until);
    } else {
      ReachabilityOf(t, e);
      ProbeSpendsAllowance(p.seen, since, until, p.now, OriginBackoff(e.seen + 1, e.transient));
    }
  }

  lemma StoreIsCovered(t: Tables, p: Progress, e: Event, allowance: int, since: int, until: int)
    requires e.StoreAttempt? || e.Invalidation?
    requires since <= until && Covers(t, p, allowance, since, until)
    ensures Covers(Apply(t, e), NextProgress(p, e), AllowanceAfter(p, e, allowance, since, until), since, until)
  {
    ReachabilityOf(t, e);
    AllowanceIsSmall(0, 0, since, until);
    if !p.Ended? {
      AllowanceIsSmall(p.seen, p.now, since, until);
    }
  }

  lemma EventIsCovered(t: Tables, p: Progress, e: Event, allowance: int, since: int, until: int)
    requires since <= until && DueProbe(t, e) && AfterEpoch(e) && Fits(p, e) && Covers(t, p, allowance, since, until)
    ensures Covers(Apply(t, e), NextProgress(p, e), AllowanceAfter(p, e, allowance, since, until), since, until)
  {
    if e.ProbeBegins? || e.ProbeFailed? {
      ProbeIsCovered(t, p, e, allowance, since, until);
    } else {
      StoreIsCovered(t, p, e, allowance, since, until);
    }
  }

  lemma CoveredIsNatural(t: Tables, p: Progress, allowance: int, since: int, until: int)
    requires since <= until && Covers(t, p, allowance, since, until)
    ensures allowance >= 0
  {
    if p.Ended? {
      AllowanceIsNatural(Failures(t), NextAttempt(t), since, until);
    } else {
      AllowanceIsNatural(p.seen, p.now, since, until);
    }
  }

  lemma {:induction false} AllowanceBoundsProbes(t: Tables, p: Progress, events: seq<Event>, allowance: int,
                                                 since: int, until: int)
    requires AllDue(t, events) && NotedInTurn(p, events) && forall e | e in events :: AfterEpoch(e)
    requires since <= until && Covers(t, p, allowance, since, until)
    ensures ProbesIn(events, since, until) <= allowance + Renewed(p, events, FullAllowance(until - since))
    decreases |events|
  {
    CoveredIsNatural(t, p, allowance, since, until);
    if events == [] {
    } else {
      var e, rest := events[0], events[1..];
      var left := AllowanceAfter(p, e, allowance, since, until);
      assert e in events;
      EventIsCovered(t, p, e, allowance, since, until);
      AllowanceBoundsProbes(Apply(t, e), NextProgress(p, e), rest, left, since, until);
    }
  }

  /** What all renewals are worth together. */
  function Renewed(p: Progress, events: seq<Event>, worth: nat): nat
    decreases |events|
  {
    if events == [] then 0
    else (if Renews(p, events[0]) then worth else 0) + Renewed(NextProgress(p, events[0]), events[1..], worth)
  }

  lemma {:induction false} RenewedIsProduct(p: Progress, events: seq<Event>, worth: nat)
    ensures Renewed(p, events, worth) == Renewals(p, events) * worth
    decreases |events|
  {
    if events == [] {
    } else {
      RenewedIsProduct(NextProgress(p, events[0]), events[1..], worth);
      OneMoreTime(Renewals(NextProgress(p, events[0]), events[1..]), worth);
    }
  }

  lemma OneMoreTime(n: nat, m: nat)
    ensures (n + 1) * m == n * m + m
  {
  }

  /**
    Probe budget. The due probes of an origin that fail within any window, by requests and sweeper together,
    number at most five plus one per full day of the window, and once more as many for every time that the
    record was renewed. So without a success, and without replies under its name from elsewhere, that is
    five plus one per day: for every mix of transient failures, hard failures, replies that are accepted
    but whose store then stops half-way, and replies under other names. Notary stores and invalidations in
    between do not matter.
   */
  lemma ProbeBudget(t: Tables, events: seq<Event>, since: int, window: nat)
    requires AllDue(t, events) && NotedInTurn(Ended, events) && Failures(t) >= 0
    requires forall e | e in events :: AfterEpoch(e)
    ensures ProbesIn(events, since, since + window) <= (1 + Renewals(Ended, events)) * (5 + window / DAY)
  {
    AllowanceIsSmall(Failures(t), NextAttempt(t), since, since + window);
    AllowanceBoundsProbes(t, Ended, events, FullAllowance(window), since, since + window);
    RenewedIsProduct(Ended, events, FullAllowance(window));
    OneMoreTime(Renewals(Ended, events), FullAllowance(window));
  }

  // ---------------------------------------------------------------- what voids it

  /** Probes that fail, each followed by a reply under the server's name from elsewhere. */
  function FailingAndRenewed(store: Event, n: nat): seq<Event> {
    if n == 0 then []
    else [ProbeBegins(1, 0)] + ([ProbeFailed(1, 0, false)] + ([store] + FailingAndRenewed(store, n - 1)))
  }

  /**
    Replies from elsewhere void the budget. If another origin's reply names the server, and its store stops at
    a taken key, nothing has succeeded, yet the standoff is gone: any number of failing probes then fits
    into a single millisecond.
   */
  lemma ForeignStoresVoidTheBudget(t: Tables, store: Event, n: nat)
    requires IsDirectStore(store) && !Storable(store.info) && Failures(t) == 0 && NextAttempt(t) == 0
    ensures var events := FailingAndRenewed(store, n);
            && AllDue(t, events) && NotedInTurn(Ended, events)
            && (forall e | e in events :: !IsSuccess(e) && AfterEpoch(e))
            && Renewals(Ended, events) == n && ProbesIn(events, 1, 1) == n
  {
    RenewedIsPlain(store, n);
    RenewedFails(t, store, n);
  }

  lemma {:induction false} RenewedIsPlain(store: Event, n: nat)
    requires IsDirectStore(store) && !Storable(store.info)
    ensures forall e | e in FailingAndRenewed(store, n) :: !IsSuccess(e) && AfterEpoch(e)
  {
    if n == 0 {
    } else {
      RenewedIsPlain(store, n - 1);
    }
  }

  lemma {:induction false} RenewedFails(t: Tables, store: Event, n: nat)
    requires IsDirectStore(store) && !Storable(store.info) && Failures(t) == 0 && NextAttempt(t) == 0
    ensures var events := FailingAndRenewed(store, n);
            && AllDue(t, events) && NotedInTurn(Ended, events)
            && Renewals(Ended, events) == n && ProbesIn(events, 1, 1) == n
    decreases n
  {
    if n == 0 {
    } else {
      var begins: Event, fails: Event := ProbeBegins(1, 0), ProbeFailed(1, 0, false);
      var rest := FailingAndRenewed(store, n - 1);
      var failed := Apply(t, fails);
      ReachabilityOf(failed, store);
      RenewedFails(Apply(failed, store), store, n - 1);
      OneMoreEvent(failed, Ended, store, rest);
      OneMoreEvent(t, UnderWay(1, 0), fails, [store] + rest);
      OneMoreEvent(t, Ended, begins, [fails] + ([store] + rest));
    }
  }

  lemma OneMoreEvent(t: Tables, p: Progress, e: Event, rest: seq<Event>)
    ensures var events := [e] + rest;
            && (AllDue(t, events) <==> DueProbe(t, e) && AllDue(Apply(t, e), rest))
            && (NotedInTurn(p, events) <==> Fits(p, e) && NotedInTurn(NextProgress(p, e), rest))
            && Renewals(p, events) == (if Renews(p, e) then 1 else 0) + Renewals(NextProgress(p, e), rest)
            && ProbesIn(events, 1, 1) == (if InWindow(e, 1, 1) then 1 else 0) + ProbesIn(rest, 1, 1)
  {
    assert ([e] + rest)[1..] == rest;
  }

  function Repeated(e: Event, n: nat): seq<Event> {
    if n == 0 then [] else [e] + Repeated(e, n - 1)
  }

  /** Probes that all begin before the first of them has failed. */
  function Overlapping(n: nat): seq<Event> {
    Repeated(ProbeBegins(1, 0), n) + Repeated(ProbeFailed(1, 0, false), n)
  }

  /** So do overlapping probes: any number of requests may read the record before the first failure is noted. */
  lemma OverlapVoidsTheBudget(t: Tables, n: nat)
    requires Failures(t) == 0 && NextAttempt(t) == 0
    ensures var events := Overlapping(n);
            && AllDue(t, events) && (forall e | e in events :: !IsDirectStore(e) && AfterEpoch(e))
            && Renewals(Ended, events) == 0 && ProbesIn(events, 1, 1) == n
  {
    NotesArePlain(t, n);
    BeginningsArePlain(t, n, Repeated(ProbeFailed(1, 0, false), n));
    RenewalsNeedStores(Ended, Overlapping(n));
  }

  lemma {:induction false} NotesArePlain(t: Tables, n: nat)
    ensures var notes := Repeated(ProbeFailed(1, 0, false), n);
            AllDue(t, notes) && ProbesIn(notes, 1, 1) == n && forall e | e in notes :: e == ProbeFailed(1, 0, false)
    decreases n
  {
    if n == 0 {
    } else {
      NotesArePlain(Apply(t, ProbeFailed(1, 0, false)), n - 1);
      var notes := Repeated(ProbeFailed(1, 0, false), n);
      assert notes[1..] == Repeated(ProbeFailed(1, 0, false), n - 1);
    }
  }

  lemma {:induction false} BeginningsArePlain(t: Tables, n: nat, rest: seq<Event>)
    requires Failures(t) == 0 && NextAttempt(t) == 0
    ensures var events := Repeated(ProbeBegins(1, 0), n) + rest;
            && (AllDue(t, events) <==> AllDue(t, rest)) && ProbesIn(events, 1, 1) == ProbesIn(rest, 1, 1)
            && forall e | e in events :: e == ProbeBegins(1, 0) || e in rest
  {
    if n == 0 {
      assert Repeated(ProbeBegins(1, 0), n) + rest == rest;
    } else {
      BeginningsArePlain(t, n - 1, rest);
      var events := Repeated(ProbeBegins(1, 0), n) + rest;
      assert events[0] == ProbeBegins(1, 0) && events[1..] == Repeated(ProbeBegins(1, 0), n - 1) + rest;
    }
  }

  lemma {:induction false} RenewalsNeedStores(p: Progress, events: seq<Event>)
    requires !p.Stopped? && forall e | e in events :: !IsDirectStore(e)
    ensures Renewals(p, events) == 0
    decreases |events|
  {
    if events == [] {
    } else {
      assert events[0] in events;
      RenewalsNeedStores(NextProgress(p, events[0]), events[1..]);
    }
  }
}
