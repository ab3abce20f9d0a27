/**
  What asking the notaries comes to: who is asked, whose word is taken, under whose name it is kept, and that
  it is the answer.
 */
module Notaries {
  import opened Base
  import opened KeyRecords
  import opened Tables
  import opened Events
  import opened NotaryWalks
  import opened Worlds
  import opened Resolution
  import opened Runs
  import opened ResolutionTheorems

  // ---------------------------------------------------------------- one notary

  /** A notary's own record answers by itself: it is fresh, and holds keys, all of which decode to these. */
  predicate KnowsKeys(c: Config, t: Tables, visit: Visit, keys: map<KeyId, Bytes>) {
    && RowIsFresh(t, visit.minNow, visit.own.now)
    && t.keys != map[] && keys.Keys == t.keys.Keys
    && forall id | id in t.keys :: c.scheme.decode(t.keys[id].publicKey) == Some(keys[id])
  }

  /** An entry that could be decoded, is well-formed, and names the server. */
  predicate IsFor(entry: Option<Vouched>, server: ServerName) {
    entry.Some? && server != "" && entry.value.info.verifyKeys != map[] && entry.value.info.serverName == server
  }

  predicate FirstIs(answer: NotaryAnswer, server: ServerName, e: nat) {
    && answer.Returns? && e < |answer.entries| && IsFor(answer.entries[e], server)
    && forall j | 0 <= j < e :: !IsFor(answer.entries[j], server)
  }

  lemma {:induction false} FirstForIs(entries: seq<Option<Vouched>>, server: ServerName, e: nat)
    requires FirstIs(Returns(entries), server, e)
    ensures FirstFor(entries, server) == entries[e]
    decreases e
  {
    if e == 0 {
    } else {
      assert !IsFor(entries[0], server);
      FirstForIs(entries[1..], server, e - 1);
    }
  }

  lemma {:induction false} NoneIsFirst(entries: seq<Option<Vouched>>, server: ServerName)
    requires forall j | 0 <= j < |entries| :: !IsFor(entries[j], server)
    ensures FirstFor(entries, server) == None
    decreases |entries|
  {
    if entries == [] {
    } else {
      NoneIsFirst(entries[1..], server);
    }
  }

  /** With its own keys at hand, a notary is asked at once: nobody else is contacted first. */
  lemma NotaryIsAsked(c: Config, s: Site, notary: ServerName, target: ServerName, visit: Visit,
                      keys: map<KeyId, Bytes>)
    requires KnowsKeys(c, TablesOf(s.world, notary), visit, keys) && Untouched(visit.before.steps, notary)
    ensures var s' := Meanwhile(Meanwhile(s, c.cooldown, visit.before), c.cooldown, visit.during);
            var out, asked := Ask(c, s, notary, target, visit),
                AskWith(c, s', notary, target, keys, visit.answer, visit.storeNow);
            && out.site == asked.site && out.result == asked.result
            && out.contacts == [NotaryQuery(notary, target)]
            && out.steps == visit.before.steps + visit.during.steps + asked.steps
  {
    var s0 := Meanwhile(s, c.cooldown, visit.before);
    StepsElsewhere(s.world, visit.before.steps, notary);
    var own := Resolve(c, s0, notary, visit.minNow, false, visit.own);
    assert own.steps == [] && own.contacts == [] && own.site == s0;
    assert own.result == Some(HeldOf(notary, TablesOf(s0.world, notary)));
    assert NotaryVerifyKeys(c.scheme, own.result.value.keys) == keys;
    assert visit.before.steps + [] == visit.before.steps;
    var s' := Meanwhile(s0, c.cooldown, visit.during);
    var asked := AskWith(c, s', notary, target, keys, visit.answer, visit.storeNow);
    assert [] + asked.contacts == [NotaryQuery(notary, target)];
  }

  /** The word of a notary for a server: accepted, and all rows of what is kept of it distinct. */
  predicate IsGood(c: Config, notary: ServerName, keys: map<KeyId, Bytes>, reply: Vouched) {
    AcceptsViaNotary(c.scheme, notary, reply.info, reply.raw, keys) && Storable(Retained(reply.info))
  }

  function KeptOf(reply: Vouched, notary: ServerName): Bundle
    requires Storable(Retained(reply.info))
  {
    ReplyBundle(Retained(reply.info), AdditionalFields(reply.raw), notary)
  }

  /** The first entry about the target, if good and better than what is held, is stored as that notary's word. */
  lemma NotaryIsBelieved(c: Config, s: Site, notary: ServerName, target: ServerName, visit: Visit,
                         keys: map<KeyId, Bytes>, e: nat)
    requires KnowsKeys(c, TablesOf(s.world, notary), visit, keys) && notary != ""
    requires Untouched(visit.before.steps, notary)
    requires Untouched(visit.before.steps, target) && Untouched(visit.during.steps, target)
    requires FirstIs(visit.answer, target, e)
    requires var reply := visit.answer.entries[e].value;
             && IsGood(c, notary, keys, reply)
             && var t := TablesOf(s.world, target);
                t.row.None? || reply.info.validUntilTs > t.row.value.validUntilTs
    ensures var out, kept := Ask(c, s, notary, target, visit), KeptOf(visit.answer.entries[e].value, notary);
            && out.contacts == [NotaryQuery(notary, target)]
            && out.result.Some? && out.result.value.server == target && out.result.value.updatedTs == visit.storeNow
            && HeldBundle(out.result.value) == kept && BundleOf(TablesOf(out.site.world, target)) == kept
  {
    var reply, s0 := visit.answer.entries[e].value, Meanwhile(s, c.cooldown, visit.before);
    var s' := Meanwhile(s0, c.cooldown, visit.during);
    StepsElsewhere(s.world, visit.before.steps, target);
    StepsElsewhere(s0.world, visit.during.steps, target);
    NotaryIsAsked(c, s, notary, target, visit, keys);
    FirstForIs(visit.answer.entries, target, e);
    StoreMeaning(TablesOf(s'.world, target), Retained(reply.info), AdditionalFields(reply.raw), notary,
        visit.storeNow, reply.order);
  }

  /** A notary that fails, or has nothing about the target, changes nothing. */
  lemma NotaryHasNothing(c: Config, s: Site, notary: ServerName, target: ServerName, visit: Visit,
                         keys: map<KeyId, Bytes>)
    requires KnowsKeys(c, TablesOf(s.world, notary), visit, keys) && Untouched(visit.before.steps, notary)
    requires visit.answer.NotaryFails? || forall j | 0 <= j < |visit.answer.entries| ::
               !IsFor(visit.answer.entries[j], target)
    ensures var out := Ask(c, s, notary, target, visit);
            && out.contacts == [NotaryQuery(notary, target)] && out.result == None
            && out.steps == visit.before.steps + visit.during.steps
  {
    NotaryIsAsked(c, s, notary, target, visit, keys);
    if visit.answer.Returns? {
      NoneIsFirst(visit.answer.entries, target);
    }
  }

  /** Nor does one whose first word about the target is not accepted; a later entry is not looked at. */
  lemma NotaryIsNotBelieved(c: Config, s: Site, notary: ServerName, target: ServerName, visit: Visit,
                            keys: map<KeyId, Bytes>, e: nat)
    requires KnowsKeys(c, TablesOf(s.world, notary), visit, keys) && Untouched(visit.before.steps, notary)
    requires FirstIs(visit.answer, target, e)
    requires var reply := visit.answer.entries[e].value;
             !AcceptsViaNotary(c.scheme, notary, reply.info, reply.raw, keys)
    ensures var out := Ask(c, s, notary, target, visit);
            && out.contacts == [NotaryQuery(notary, target)] && out.result == None
            && out.steps == visit.before.steps + visit.during.steps
  {
    NotaryIsAsked(c, s, notary, target, visit, keys);
    FirstForIs(visit.answer.entries, target, e);
  }

  /** Good word that is no better than what is held leaves it, and what is held is what comes back. */
  lemma NotaryIsOutdone(c: Config, s: Site, notary: ServerName, target: ServerName, visit: Visit,
                        keys: map<KeyId, Bytes>, e: nat)
    requires KnowsKeys(c, TablesOf(s.world, notary), visit, keys) && notary != ""
    requires Untouched(visit.before.steps, notary)
    requires Untouched(visit.before.steps, target) && Untouched(visit.during.steps, target)
    requires FirstIs(visit.answer, target, e)
    requires var reply, t := visit.answer.entries[e].value, TablesOf(s.world, target);
             && AcceptsViaNotary(c.scheme, notary, reply.info, reply.raw, keys)
             && t.row.Some? && reply.info.validUntilTs <= t.row.value.validUntilTs
    ensures var out, t := Ask(c, s, notary, target, visit), TablesOf(s.world, target);
            var row := t.row.value;
            && out.contacts == [NotaryQuery(notary, target)] && TablesOf(out.site.world, target) == t
            && out.result ==
               Some(Held(target, row.updatedTs, row.validUntilTs, row.extra, row.via, t.keys, t.signatures))
  {
    var reply, s0 := visit.answer.entries[e].value, Meanwhile(s, c.cooldown, visit.before);
    var s' := Meanwhile(s0, c.cooldown, visit.during);
    StepsElsewhere(s.world, visit.before.steps, target);
    StepsElsewhere(s0.world, visit.during.steps, target);
    NotaryIsAsked(c, s, notary, target, visit, keys);
    FirstForIs(visit.answer.entries, target, e);
    StoreTurnsDown(TablesOf(s'.world, target), Retained(reply.info), AdditionalFields(reply.raw), notary,
        visit.storeNow, reply.order);
  }

  /** A notary of which no keys are held, or one that cannot be read, is not asked: all of its keys count. */
  lemma NotaryWithoutKeysIsNotAsked(c: Config, s: Site, notary: ServerName, target: ServerName, visit: Visit)
    requires var t := TablesOf(s.world, notary);
             && RowIsFresh(t, visit.minNow, visit.own.now)
             && (t.keys == map[] || exists id :: id in t.keys && c.scheme.decode(t.keys[id].publicKey).None?)
    requires Untouched(visit.before.steps, notary)
    ensures var out := Ask(c, s, notary, target, visit); out.contacts == [] && out.result == None
  {
    StepsElsewhere(s.world, visit.before.steps, notary);
  }

  // ---------------------------------------------------------------- a walk

  /** The target's record is touched by nobody but the activity at hand, which probes it and asks about it. */
  predicate LeftToUs(steps: seq<Step>, target: ServerName) {
    forall x | x in steps && x.server == target ::
      x.own && (x.event.ProbeBegins? || x.event.ProbeFailed? || (x.event.StoreAttempt? && x.event.via != ""))
  }

  /** A notary that is not asked at all, or that fails. */
  predicate GivesNothing(c: Config, notary: ServerName, target: ServerName, visit: Visit) {
    notary == "" || notary == c.self || notary == target || visit.answer.NotaryFails?
  }

  /** The i-th notary can be asked: it is neither nameless, nor ourselves, nor the target, and knows its keys. */
  predicate CanBeAsked(c: Config, w: World, target: ServerName, notary: ServerName, visit: Visit,
                       keys: map<KeyId, Bytes>) {
    notary != "" && notary != c.self && notary != target && KnowsKeys(c, TablesOf(w, notary), visit, keys)
  }

  /** Its word is good and better than what is held of the target. */
  predicate HasABetterCopy(c: Config, w: World, target: ServerName, notary: ServerName, visit: Visit,
                           keys: map<KeyId, Bytes>, e: nat) {
    && FirstIs(visit.answer, target, e) && IsGood(c, notary, keys, visit.answer.entries[e].value)
    && visit.answer.entries[e].value.info.validUntilTs > ValidOn(w, target)
  }

  lemma FailingNotaryTouchesNothing(c: Config, s: Site, notary: ServerName, target: ServerName, visit: Visit,
                                    other: ServerName)
    requires visit.answer.NotaryFails? && other != target
    requires var steps := Ask(c, s, notary, target, visit).steps; Untouched(steps, other) && LeftToUs(steps, target)
    requires notary != target
    ensures var out := Ask(c, s, notary, target, visit);
            && out.result == None
            && TablesOf(out.site.world, other) == TablesOf(s.world, other)
            && BundleOf(TablesOf(out.site.world, target)) == BundleOf(TablesOf(s.world, target))
            && (TablesOf(s.world, target).row.Some? ==> TablesOf(out.site.world, target).row.Some?)
  {
    var out := Ask(c, s, notary, target, visit);
    AskRuns(c, s, notary, target, visit);
    StepsElsewhere(s.world, out.steps, other);
    OwnStoresAreDirect(c, Meanwhile(s, c.cooldown, visit.before), notary, visit.minNow, visit.own);
    KeepsTheBundle(s.world, out.steps, target);
  }

  /** Probes leave the key data alone, also when they create the record. */
  lemma {:induction false} KeepsTheBundle(w: World, steps: seq<Step>, server: ServerName)
    requires forall x | x in steps && x.server == server :: x.event.ProbeBegins? || x.event.ProbeFailed?
    ensures BundleOf(TablesOf(RunSteps(w, steps), server)) == BundleOf(TablesOf(w, server))
    ensures TablesOf(w, server).row.Some? ==> TablesOf(RunSteps(w, steps), server).row.Some?
    decreases |steps|
  {
    if steps == [] {
    } else {
      KeepsTheBundle(StepOn(w, steps[0]), steps[1..], server);
    }
  }

  lemma BeforeIsPart(c: Config, s: Site, notary: ServerName, target: ServerName, visit: Visit)
    ensures forall x | x in visit.before.steps :: x in Ask(c, s, notary, target, visit).steps
  {
  }

  lemma LaterOnesToo(c: Config, target: ServerName, notaries: seq<ServerName>, visits: seq<Visit>, i: nat)
    requires |visits| == |notaries| && 0 < i < |notaries|
    requires forall j | 0 <= j < i :: GivesNothing(c, notaries[j], target, visits[j])
    ensures forall j | 0 <= j < i - 1 :: GivesNothing(c, notaries[1..][j], target, visits[1..][j])
  {
    forall j | 0 <= j < i - 1 ensures GivesNothing(c, notaries[1..][j], target, visits[1..][j]) {
      assert GivesNothing(c, notaries[j + 1], target, visits[j + 1]);
    }
  }

  /** A walk goes on after a notary that fails, with the records in question as they were. */
  lemma FailingNotary(c: Config, s: Site, target: ServerName, minValidUntilTs: Timestamp, notaries: seq<ServerName>,
                      visits: seq<Visit>, best: Option<Held>, other: ServerName)
    requires |visits| == |notaries| && notaries != [] && visits[0].answer.NotaryFails? && other != target
    requires !Skipped(c, notaries[0], target)
    requires var steps := Walk(c, s, target, minValidUntilTs, notaries, visits, best).steps;
             Untouched(steps, other) && LeftToUs(steps, target)
    ensures var asked := Ask(c, s, notaries[0], target, visits[0]);
            var out := Walk(c, s, target, minValidUntilTs, notaries, visits, best);
            var rest := Walk(c, asked.site, target, minValidUntilTs, notaries[1..], visits[1..], best);
            && out.contacts == asked.contacts + rest.contacts && out.result == rest.result && out.site == rest.site
            && Untouched(rest.steps, other) && LeftToUs(rest.steps, target)
            && TablesOf(asked.site.world, other) == TablesOf(s.world, other)
            && BundleOf(TablesOf(asked.site.world, target)) == BundleOf(TablesOf(s.world, target))
  {
    var asked := Ask(c, s, notaries[0], target, visits[0]);
    NothingFromFailing(c, s, notaries[0], target, visits[0]);
    var out := Walk(c, s, target, minValidUntilTs, notaries, visits, best);
    var rest := Walk(c, asked.site, target, minValidUntilTs, notaries[1..], visits[1..], best);
    assert out.steps == asked.steps + rest.steps;
    assert forall x | x in asked.steps :: x in out.steps;
    assert forall x | x in rest.steps :: x in out.steps;
    FailingNotaryTouchesNothing(c, s, notaries[0], target, visits[0], other);
  }

  lemma NothingFromFailing(c: Config, s: Site, notary: ServerName, target: ServerName, visit: Visit)
    requires visit.answer.NotaryFails?
    ensures Ask(c, s, notary, target, visit).result == None
  {
  }

  /** One walk is another one, from another site, after some contacts; two records are as they were. */
  predicate GoesOn(s: Site, out: Outcome<Option<Held>>, before: seq<Contact>, s': Site, rest: Outcome<Option<Held>>,
                   notary: ServerName, target: ServerName) {
    && out.contacts == before + rest.contacts && out.result == rest.result && out.site == rest.site
    && Untouched(rest.steps, notary) && LeftToUs(rest.steps, target)
    && TablesOf(s'.world, notary) == TablesOf(s.world, notary)
    && BundleOf(TablesOf(s'.world, target)) == BundleOf(TablesOf(s.world, target))
  }

  lemma GoesOnTwice(s: Site, out: Outcome<Option<Held>>, a: seq<Contact>, mid: Site, part: Outcome<Option<Held>>,
                    b: seq<Contact>, s': Site, rest: Outcome<Option<Held>>, notary: ServerName, target: ServerName)
    requires GoesOn(s, out, a, mid, part, notary, target) && GoesOn(mid, part, b, s', rest, notary, target)
    ensures GoesOn(s, out, a + b, s', rest, notary, target)
  {
  }

  /**
    A walk passes over notaries and goes on after those that fail: it is the walk from the i-th one on, with
    nobody else's word taken, and with the records of that one and of the target as they were.
   */
  lemma {:induction false} WalkComesTo(c: Config, s: Site, target: ServerName, minValidUntilTs: Timestamp,
                                       notaries: seq<ServerName>, visits: seq<Visit>, best: Option<Held>, i: nat)
    returns (s': Site, before: seq<Contact>)
    requires |visits| == |notaries| && i < |notaries| && notaries[i] != target
    requires forall j | 0 <= j < i :: GivesNothing(c, notaries[j], target, visits[j])
    requires var steps := Walk(c, s, target, minValidUntilTs, notaries, visits, best).steps;
             Untouched(steps, notaries[i]) && LeftToUs(steps, target)
    ensures GoesOn(s, Walk(c, s, target, minValidUntilTs, notaries, visits, best), before, s',
                   Walk(c, s', target, minValidUntilTs, notaries[i..], visits[i..], best), notaries[i], target)
    decreases |notaries|
  {
    if i == 0 {
      s', before := s, [];
      assert notaries[0..] == notaries && visits[0..] == visits;
    } else {
      var mid, a := OneOn(c, s, target, minValidUntilTs, notaries, visits, best, i);
      LaterOnesToo(c, target, notaries, visits, i);
      s', before := WalkComesTo(c, mid, target, minValidUntilTs, notaries[1..], visits[1..], best, i - 1);
      assert notaries[1..][i - 1..] == notaries[i..] && visits[1..][i - 1..] == visits[i..];
      GoesOnTwice(s, Walk(c, s, target, minValidUntilTs, notaries, visits, best), a, mid,
          Walk(c, mid, target, minValidUntilTs, notaries[1..], visits[1..], best), before, s',
          Walk(c, s', target, minValidUntilTs, notaries[i..], visits[i..], best), notaries[i], target);
      before := a + before;
    }
  }

  lemma OneOn(c: Config, s: Site, target: ServerName, minValidUntilTs: Timestamp, notaries: seq<ServerName>,
              visits: seq<Visit>, best: Option<Held>, i: nat) returns (mid: Site, a: seq<Contact>)
    requires |visits| == |notaries| && 0 < i < |notaries| && notaries[i] != target
    requires GivesNothing(c, notaries[0], target, visits[0])
    requires var steps := Walk(c, s, target, minValidUntilTs, notaries, visits, best).steps;
             Untouched(steps, notaries[i]) && LeftToUs(steps, target)
    ensures GoesOn(s, Walk(c, s, target, minValidUntilTs, notaries, visits, best), a, mid,
                   Walk(c, mid, target, minValidUntilTs, notaries[1..], visits[1..], best), notaries[i], target)
  {
    if Skipped(c, notaries[0], target) {
      mid, a := s, [];
    } else {
      var asked := Ask(c, s, notaries[0], target, visits[0]);
      FailingNotary(c, s, target, minValidUntilTs, notaries, visits, best, notaries[i]);
      mid, a := asked.site, asked.contacts;
    }
  }

  /** The first notary that can be asked, after others that are passed over or fail, is asked. */
  lemma WalkAsks(c: Config, s: Site, target: ServerName, minValidUntilTs: Timestamp, notaries: seq<ServerName>,
                 visits: seq<Visit>, best: Option<Held>, i: nat, keys: map<KeyId, Bytes>)
    requires |visits| == |notaries| && i < |notaries|
    requires CanBeAsked(c, s.world, target, notaries[i], visits[i], keys)
    requires forall j | 0 <= j < i :: GivesNothing(c, notaries[j], target, visits[j])
    requires var steps := Walk(c, s, target, minValidUntilTs, notaries, visits, best).steps;
             Untouched(steps, notaries[i]) && LeftToUs(steps, target)
    ensures NotaryQuery(notaries[i], target) in Walk(c, s, target, minValidUntilTs, notaries, visits, best).contacts
  {
    var s', before := WalkComesTo(c, s, target, minValidUntilTs, notaries, visits, best, i);
    BeforeIsPart(c, s', notaries[i], target, visits[i]);
    NotaryIsAsked(c, s', notaries[i], target, visits[i], keys);
    assert NotaryQuery(notaries[i], target) in
        Walk(c, s', target, minValidUntilTs, notaries[i..], visits[i..], best).contacts;
  }

  /** The outcome is this reply, as this notary's word, which was the last to be asked for. */
  predicate IsTheirWord(out: Outcome<Option<Held>>, minValidUntilTs: int, notary: ServerName, target: ServerName,
                        reply: Vouched)
    requires Storable(Retained(reply.info))
  {
    && out.contacts != [] && out.contacts[|out.contacts| - 1] == NotaryQuery(notary, target)
    && HeldSatisfies(out.result, minValidUntilTs) && out.result.value.server == target
    && HeldBundle(out.result.value) == KeptOf(reply, notary)
    && BundleOf(TablesOf(out.site.world, target)) == KeptOf(reply, notary)
  }

  /** And if its word is good, better than what is held and valid for long enough, that is the end and the answer. */
  lemma WalkAnswers(c: Config, s: Site, target: ServerName, minValidUntilTs: Timestamp, notaries: seq<ServerName>,
                    visits: seq<Visit>, best: Option<Held>, i: nat, keys: map<KeyId, Bytes>, e: nat)
    requires |visits| == |notaries| && i < |notaries|
    requires CanBeAsked(c, s.world, target, notaries[i], visits[i], keys)
    requires forall j | 0 <= j < i :: GivesNothing(c, notaries[j], target, visits[j])
    requires HasABetterCopy(c, s.world, target, notaries[i], visits[i], keys, e)
    requires visits[i].answer.entries[e].value.info.validUntilTs >= minValidUntilTs
    requires var steps := Walk(c, s, target, minValidUntilTs, notaries, visits, best).steps;
             Untouched(steps, notaries[i]) && LeftToUs(steps, target)
    ensures IsTheirWord(Walk(c, s, target, minValidUntilTs, notaries, visits, best), minValidUntilTs, notaries[i],
                        target, visits[i].answer.entries[e].value)
  {
    var s', before := WalkComesTo(c, s, target, minValidUntilTs, notaries, visits, best, i);
    SameBetterCopy(c, s.world, s'.world, target, notaries[i], visits[i], keys, e);
    LastWord(c, s', target, minValidUntilTs, notaries[i..], visits[i..], best, keys, e);
    LaterWord(before, Walk(c, s', target, minValidUntilTs, notaries[i..], visits[i..], best),
        Walk(c, s, target, minValidUntilTs, notaries, visits, best), minValidUntilTs, notaries[i], target,
        visits[i].answer.entries[e].value);
  }

  lemma LaterWord(before: seq<Contact>, rest: Outcome<Option<Held>>, out: Outcome<Option<Held>>, minValidUntilTs: int,
                  notary: ServerName, target: ServerName, reply: Vouched)
    requires Storable(Retained(reply.info)) && IsTheirWord(rest, minValidUntilTs, notary, target, reply)
    requires out.contacts == before + rest.contacts && out.result == rest.result && out.site == rest.site
    ensures IsTheirWord(out, minValidUntilTs, notary, target, reply)
  {
  }

  lemma SameBetterCopy(c: Config, w: World, w': World, target: ServerName, notary: ServerName, visit: Visit,
                       keys: map<KeyId, Bytes>, e: nat)
    requires CanBeAsked(c, w, target, notary, visit, keys) && HasABetterCopy(c, w, target, notary, visit, keys, e)
    requires TablesOf(w', notary) == TablesOf(w, notary)
    requires BundleOf(TablesOf(w', target)) == BundleOf(TablesOf(w, target))
    ensures CanBeAsked(c, w', target, notary, visit, keys) && HasABetterCopy(c, w', target, notary, visit, keys, e)
  {
  }

  lemma LastWord(c: Config, s: Site, target: ServerName, minValidUntilTs: Timestamp, notaries: seq<ServerName>,
                 visits: seq<Visit>, best: Option<Held>, keys: map<KeyId, Bytes>, e: nat)
    requires |visits| == |notaries| && notaries != []
    requires CanBeAsked(c, s.world, target, notaries[0], visits[0], keys)
    requires HasABetterCopy(c, s.world, target, notaries[0], visits[0], keys, e)
    requires visits[0].answer.entries[e].value.info.validUntilTs >= minValidUntilTs
    requires var steps := Walk(c, s, target, minValidUntilTs, notaries, visits, best).steps;
             Untouched(steps, notaries[0]) && LeftToUs(steps, target)
    ensures IsTheirWord(Walk(c, s, target, minValidUntilTs, notaries, visits, best), minValidUntilTs, notaries[0],
                        target, visits[0].answer.entries[e].value)
  {
    var notary, visit := notaries[0], visits[0];
    BeforeIsPart(c, s, notary, target, visit);
    NotaryIsAsked(c, s, notary, target, visit, keys);
    OthersLeaveItAlone(c, s, target, minValidUntilTs, notaries, visits, best, keys);
    NotaryIsBelieved(c, s, notary, target, visit, keys, e);
    GoodWordSatisfies(Ask(c, s, notary, target, visit), minValidUntilTs, notary, target, visit.answer.entries[e].value);
  }

  lemma GoodWordSatisfies(out: Outcome<Option<Held>>, minValidUntilTs: int, notary: ServerName, target: ServerName,
                          reply: Vouched)
    requires Storable(Retained(reply.info)) && reply.info.verifyKeys != map[]
    requires reply.info.validUntilTs >= minValidUntilTs
    requires out.contacts == [NotaryQuery(notary, target)] && out.result.Some? && out.result.value.server == target
    requires HeldBundle(out.result.value) == KeptOf(reply, notary)
    requires BundleOf(TablesOf(out.site.world, target)) == KeptOf(reply, notary)
    ensures IsTheirWord(out, minValidUntilTs, notary, target, reply)
  {
    var id :| id in reply.info.verifyKeys;
    assert id in KeyRows(Retained(reply.info));
  }

  lemma OthersLeaveItAlone(c: Config, s: Site, target: ServerName, minValidUntilTs: Timestamp,
                           notaries: seq<ServerName>, visits: seq<Visit>, best: Option<Held>, keys: map<KeyId, Bytes>)
    requires |visits| == |notaries| && notaries != []
    requires CanBeAsked(c, s.world, target, notaries[0], visits[0], keys)
    requires LeftToUs(Walk(c, s, target, minValidUntilTs, notaries, visits, best).steps, target)
    requires Untouched(visits[0].before.steps, notaries[0])
    ensures Untouched(visits[0].before.steps, target) && Untouched(visits[0].during.steps, target)
  {
    var asked, out := Ask(c, s, notaries[0], target, visits[0]),
        Walk(c, s, target, minValidUntilTs, notaries, visits, best);
    NotaryIsAsked(c, s, notaries[0], target, visits[0], keys);
    assert forall x | x in asked.steps :: x in out.steps;
    assert forall x | x in visits[0].before.steps + visits[0].during.steps :: x in asked.steps;
  }

  // ---------------------------------------------------------------- the best of several

  function AsSeq(copy: Option<Held>): seq<Held> {
    if copy.Some? then [copy.value] else []
  }

  /** The copies that the notaries of a walk give, in order, up to the first that is valid for long enough. */
  function CopiesOf(c: Config, s: Site, target: ServerName, minValidUntilTs: Timestamp, notaries: seq<ServerName>,
                    visits: seq<Visit>): seq<Held>
    requires |visits| == |notaries|
    decreases |notaries|
  {
    if notaries == [] then []
    else if notaries[0] == "" || notaries[0] == c.self || notaries[0] == target then
      CopiesOf(c, s, target, minValidUntilTs, notaries[1..], visits[1..])
    else
      var asked := Ask(c, s, notaries[0], target, visits[0]);
      if asked.result.Some? && asked.result.value.keys != map[]
          && asked.result.value.validUntilTs >= minValidUntilTs then [asked.result.value]
      else AsSeq(asked.result) + CopiesOf(c, asked.site, target, minValidUntilTs, notaries[1..], visits[1..])
  }

  /** The first of the longest-valid copies. */
  predicate IsFirstLongest(copies: seq<Held>, k: nat) {
    && k < |copies|
    && (forall j | 0 <= j < k :: copies[j].validUntilTs < copies[k].validUntilTs)
    && (forall j | k < j < |copies| :: copies[j].validUntilTs <= copies[k].validUntilTs)
  }

  /** One copy of several: the last, which is valid for long enough, or the first of the longest-valid ones. */
  predicate IsTheChoice(copies: seq<Held>, minValidUntilTs: int, choice: Option<Held>, k: nat) {
    if copies == [] then choice.None?
    else
      && k < |copies| && choice == Some(copies[k])
      && ((k == |copies| - 1 && choice.value.keys != map[] && choice.value.validUntilTs >= minValidUntilTs)
          || IsFirstLongest(copies, k))
  }

  lemma OneMoreCopy(best: Option<Held>, asked: Option<Held>, rest: seq<Held>, minValidUntilTs: int,
                    choice: Option<Held>, k: nat) returns (k': nat)
    requires IsTheChoice(AsSeq(Better(best, asked)) + rest, minValidUntilTs, choice, k)
    ensures IsTheChoice(AsSeq(best) + (AsSeq(asked) + rest), minValidUntilTs, choice, k')
  {
    var few, all := AsSeq(Better(best, asked)) + rest, AsSeq(best) + (AsSeq(asked) + rest);
    if best.Some? && asked.Some? {
      var other := if Better(best, asked) == best then 0 else 1;
      k' := if k > 0 then k + 1 else other;
      assert all[0] == best.value && all[1] == asked.value && all[other] == few[0];
      assert forall j | 0 < j < |few| :: few[j] == all[j + 1];
      assert forall j | 1 < j < |all| :: all[j] == few[j - 1];
      if IsFirstLongest(few, k) {
        assert IsFirstLongest(all, k');
      }
    } else {
      assert few == all;
      k' := k;
    }
  }

  /** What a walk returns, of the copies that it was given. */
  lemma {:induction false} WalkChooses(c: Config, s: Site, target: ServerName, minValidUntilTs: Timestamp,
                                       notaries: seq<ServerName>, visits: seq<Visit>, best: Option<Held>)
    returns (k: nat)
    requires |visits| == |notaries|
    ensures IsTheChoice(AsSeq(best) + CopiesOf(c, s, target, minValidUntilTs, notaries, visits), minValidUntilTs,
                        Walk(c, s, target, minValidUntilTs, notaries, visits, best).result, k)
    decreases |notaries|
  {
    if notaries == [] {
      k := 0;
    } else if Skipped(c, notaries[0], target) {
      k := WalkChooses(c, s, target, minValidUntilTs, notaries[1..], visits[1..], best);
    } else {
      var asked := Ask(c, s, notaries[0], target, visits[0]);
      if HeldSatisfies(asked.result, minValidUntilTs) {
        k := |AsSeq(best)|;
      } else {
        k := WalkChooses(c, asked.site, target, minValidUntilTs, notaries[1..], visits[1..],
            Better(best, asked.result));
        var rest := CopiesOf(c, asked.site, target, minValidUntilTs, notaries[1..], visits[1..]);
        k := OneMoreCopy(best, asked.result, rest, minValidUntilTs,
            Walk(c, s, target, minValidUntilTs, notaries, visits, best).result, k);
      }
    }
  }

  // ---------------------------------------------------------------- a query

  /** What is held does not answer: it is not fresh, and there are no keys, or they are not valid for long enough. */
  predicate NothingAtHand(t: Tables, minValidUntilTs: int, now: int) {
    !RowIsFresh(t, minValidUntilTs, now)
        && (t.row.None? || t.keys == map[] || t.row.value.validUntilTs < minValidUntilTs)
  }

  /** Nor does the origin: it is not asked yet, it fails, or its reply is not accepted or cannot be stored. */
  predicate OriginGivesNothing(c: Config, t: Tables, script: Script) {
    || (t.row.Some? && script.now < t.row.value.nextAttemptTs)
    || !Accepted(c, script.fetch.answer) || !Storable(script.fetch.answer.reply.info)
  }

  /** The last walk for the server is long enough ago, and nobody else starts one before ours. */
  predicate WalkMayStart(c: Config, walks: Walks, server: ServerName, script: Script) {
    && (server in walks ==> script.now >= walks[server] + c.cooldown)
    && (forall r | r in script.fetch.during.takes + script.fetch.beforeNote.takes + script.beforeWalk.takes ::
          r.server != server)
  }

  lemma {:induction false} TakesElsewhere(walks: Walks, cooldown: int, takes: seq<Request>, server: ServerName,
                                          now: int)
    requires server in walks ==> now >= walks[server] + cooldown
    requires forall r | r in takes :: r.server != server
    ensures var after := TakeAll(walks, cooldown, takes); server in after ==> now >= after[server] + cooldown
    decreases |takes|
  {
    if takes == [] {
    } else {
      assert takes[0] in takes;
      TakesElsewhere(AfterTake(walks, cooldown, takes[0].server, takes[0].now), cooldown, takes[1..], server, now);
    }
  }

  /** What the probe of a query leaves of the walks: what others made of them. */
  lemma WalksAfterProbe(c: Config, s: Site, server: ServerName, script: Script)
    ensures var walks, during := ProbeIfDue(c, s, server, script).site.walks,
              TakeAll(s.walks, c.cooldown, script.fetch.during.takes);
            walks == s.walks || walks == during || walks == TakeAll(during, c.cooldown, script.fetch.beforeNote.takes)
  {
  }

  lemma StillMayStart(c: Config, s: Site, server: ServerName, script: Script)
    requires WalkMayStart(c, s.walks, server, script)
    ensures var s' := Meanwhile(ProbeIfDue(c, s, server, script).site, c.cooldown, script.beforeWalk);
            Due(s'.walks, c.cooldown, server, script.now)
  {
    var probe, fetch := ProbeIfDue(c, s, server, script), script.fetch;
    var during := TakeAll(s.walks, c.cooldown, fetch.during.takes);
    TakesElsewhere(s.walks, c.cooldown, fetch.during.takes, server, script.now);
    TakesElsewhere(during, c.cooldown, fetch.beforeNote.takes, server, script.now);
    WalksAfterProbe(c, s, server, script);
    TakesElsewhere(probe.site.walks, c.cooldown, script.beforeWalk.takes, server, script.now);
  }

  lemma NoAnswerFromOrigin(c: Config, s: Site, server: ServerName, script: Script)
    requires OriginGivesNothing(c, TablesOf(s.world, server), script)
    ensures ProbeIfDue(c, s, server, script).result == None
  {
    var s', answer := Meanwhile(s, c.cooldown, script.fetch.during), script.fetch.answer;
    if Accepted(c, answer) {
      var reply := answer.reply;
      StoreMeaning(TablesOf(s'.world, reply.info.serverName), reply.info, AdditionalFields(reply.raw), "",
          script.fetch.storeNow, reply.order);
    }
  }

  /** Then there is a walk, whatever the probe came to; and what it finds valid for long enough is the answer. */
  lemma QueryComesToItsWalk(c: Config, s: Site, server: ServerName, minValidUntilTs: Timestamp, script: Script)
    requires |script.visits| == |c.notaries| && NothingAtHand(TablesOf(s.world, server), minValidUntilTs, script.now)
    requires OriginGivesNothing(c, TablesOf(s.world, server), script) && WalkMayStart(c, s.walks, server, script)
    ensures var out, walk := Resolve(c, s, server, minValidUntilTs, true, script),
              WalkOf(c, s, server, minValidUntilTs, script);
            && out.contacts == ProbeIfDue(c, s, server, script).contacts + walk.contacts
            && out.steps == StepsBeforeWalk(c, s, server, script) + walk.steps && out.site == walk.site
            && (HeldSatisfies(walk.result, minValidUntilTs) ==> out.result == walk.result)
  {
    NoAnswerFromOrigin(c, s, server, script);
    StillMayStart(c, s, server, script);
    var probe, walk := ProbeIfDue(c, s, server, script), WalkOf(c, s, server, minValidUntilTs, script);
    assert probe.steps + (script.beforeWalk.steps + walk.steps) == StepsBeforeWalk(c, s, server, script) + walk.steps;
  }

  /** The records that matter are at the start of the walk as they were at the start of the query. */
  lemma RecordsAtTheWalk(c: Config, s: Site, server: ServerName, script: Script, notary: ServerName)
    requires notary != server
    requires var steps := StepsBeforeWalk(c, s, server, script); Untouched(steps, notary) && LeftToUs(steps, server)
    ensures var w := WalkStart(c, s, server, script).world;
            && TablesOf(w, notary) == TablesOf(s.world, notary)
            && BundleOf(TablesOf(w, server)) == BundleOf(TablesOf(s.world, server))
  {
    var steps, probe := StepsBeforeWalk(c, s, server, script), ProbeIfDue(c, s, server, script);
    BeforeWalkRuns(c, s, server, script);
    StepsElsewhere(s.world, steps, notary);
    ProbeStoresDirectly(c, s, server, Failures(TablesOf(s.world, server)), script.now, script.fetch);
    assert forall x | x in probe.steps && x.own && x.event.StoreAttempt? :: IsDirectStore(x.event);
    KeepsTheBundle(s.world, steps, server);
  }

  /**
    A query asks the notaries. When neither what is held nor the origin answers, whether the origin was probed just
    now or not, and no walk for the server was started within the cooldown: the first notary that can be
    asked, after others that are passed over or fail, is asked.
   */
  lemma QueryAsksNotaries(c: Config, s: Site, server: ServerName, minValidUntilTs: Timestamp, script: Script, i: nat,
                          keys: map<KeyId, Bytes>)
    requires |script.visits| == |c.notaries| && NothingAtHand(TablesOf(s.world, server), minValidUntilTs, script.now)
    requires OriginGivesNothing(c, TablesOf(s.world, server), script) && WalkMayStart(c, s.walks, server, script)
    requires i < |c.notaries| && CanBeAsked(c, s.world, server, c.notaries[i], script.visits[i], keys)
    requires forall j | 0 <= j < i :: GivesNothing(c, c.notaries[j], server, script.visits[j])
    requires var steps := Resolve(c, s, server, minValidUntilTs, true, script).steps;
             Untouched(steps, c.notaries[i]) && LeftToUs(steps, server)
    ensures NotaryQuery(c.notaries[i], server) in Resolve(c, s, server, minValidUntilTs, true, script).contacts
  {
    QueryComesToItsWalk(c, s, server, minValidUntilTs, script);
    StepsOfBothParts(c, s, server, minValidUntilTs, script, c.notaries[i]);
    RecordsAtTheWalk(c, s, server, script, c.notaries[i]);
    WalkAsks(c, WalkStart(c, s, server, script), server, minValidUntilTs, c.notaries, script.visits, None, i, keys);
  }

  lemma StepsOfBothParts(c: Config, s: Site, server: ServerName, minValidUntilTs: Timestamp, script: Script,
                         notary: ServerName)
    requires |script.visits| == |c.notaries|
    requires var steps := StepsBeforeWalk(c, s, server, script) + WalkOf(c, s, server, minValidUntilTs, script).steps;
             Untouched(steps, notary) && LeftToUs(steps, server)
    ensures var steps := StepsBeforeWalk(c, s, server, script); Untouched(steps, notary) && LeftToUs(steps, server)
    ensures var steps := WalkOf(c, s, server, minValidUntilTs, script).steps;
            Untouched(steps, notary) && LeftToUs(steps, server)
  {
    var a, b := StepsBeforeWalk(c, s, server, script), WalkOf(c, s, server, minValidUntilTs, script).steps;
    assert forall x :: x in a + b <==> x in a || x in b;
  }

  /**
    And takes their word. If, moreover, that notary's word about the server is good, better than what is held and
    valid for long enough, it is the answer, it is what is held afterwards, and it is held as that notary's.
   */
  lemma QueryTakesANotarysWord(c: Config, s: Site, server: ServerName, minValidUntilTs: Timestamp, script: Script,
                               i: nat, keys: map<KeyId, Bytes>, e: nat)
    requires |script.visits| == |c.notaries| && NothingAtHand(TablesOf(s.world, server), minValidUntilTs, script.now)
    requires OriginGivesNothing(c, TablesOf(s.world, server), script) && WalkMayStart(c, s.walks, server, script)
    requires i < |c.notaries| && CanBeAsked(c, s.world, server, c.notaries[i], script.visits[i], keys)
    requires forall j | 0 <= j < i :: GivesNothing(c, c.notaries[j], server, script.visits[j])
    requires HasABetterCopy(c, s.world, server, c.notaries[i], script.visits[i], keys, e)
    requires script.visits[i].answer.entries[e].value.info.validUntilTs >= minValidUntilTs
    requires var steps := Resolve(c, s, server, minValidUntilTs, true, script).steps;
             Untouched(steps, c.notaries[i]) && LeftToUs(steps, server)
    ensures IsTheirWord(Resolve(c, s, server, minValidUntilTs, true, script), minValidUntilTs, c.notaries[i], server,
                        script.visits[i].answer.entries[e].value)
  {
    var start := WalkStart(c, s, server, script);
    QueryComesToItsWalk(c, s, server, minValidUntilTs, script);
    StepsOfBothParts(c, s, server, minValidUntilTs, script, c.notaries[i]);
    RecordsAtTheWalk(c, s, server, script, c.notaries[i]);
    SameBetterCopy(c, s.world, start.world, server, c.notaries[i], script.visits[i], keys, e);
    WalkAnswers(c, start, server, minValidUntilTs, c.notaries, script.visits, None, i, keys, e);
    LaterWord(ProbeIfDue(c, s, server, script).contacts, WalkOf(c, s, server, minValidUntilTs, script),
        Resolve(c, s, server, minValidUntilTs, true, script), minValidUntilTs, c.notaries[i], server,
        script.visits[i].answer.entries[e].value);
  }

  lemma {:induction false} TakesDoNotHelp(walks: Walks, cooldown: int, takes: seq<Request>, server: ServerName,
                                          now: int)
    requires server in walks && now < walks[server] + cooldown && forall r | r in takes :: r.now <= now
    ensures var after := TakeAll(walks, cooldown, takes); server in after && now < after[server] + cooldown
    decreases |takes|
  {
    if takes == [] {
    } else {
      assert takes[0] in takes;
      TakesDoNotHelp(AfterTake(walks, cooldown, takes[0].server, takes[0].now), cooldown, takes[1..], server, now);
    }
  }

  /** Within the cooldown of the last walk for a server no notary is asked about it, whoever else starts walks. */
  lemma NoWalkWithinTheCooldown(c: Config, s: Site, server: ServerName, minValidUntilTs: Timestamp, script: Script)
    requires |script.visits| == |c.notaries|
    requires server in s.walks && script.now < s.walks[server] + c.cooldown
    requires forall r | r in script.fetch.during.takes + script.fetch.beforeNote.takes + script.beforeWalk.takes ::
               r.now <= script.now
    ensures forall k | k in Resolve(c, s, server, minValidUntilTs, true, script).contacts :: k.OriginFetch?
  {
    var probe, fetch, now := ProbeIfDue(c, s, server, script), script.fetch, script.now;
    var during := TakeAll(s.walks, c.cooldown, fetch.during.takes);
    TakesDoNotHelp(s.walks, c.cooldown, fetch.during.takes, server, now);
    TakesDoNotHelp(during, c.cooldown, fetch.beforeNote.takes, server, now);
    WalksAfterProbe(c, s, server, script);
    TakesDoNotHelp(probe.site.walks, c.cooldown, script.beforeWalk.takes, server, now);
    NoWalkNoQueries(c, s, server, minValidUntilTs, script);
  }

  lemma NoWalkNoQueries(c: Config, s: Site, server: ServerName, minValidUntilTs: Timestamp, script: Script)
    requires |script.visits| == |c.notaries|
    requires !Due(Meanwhile(ProbeIfDue(c, s, server, script).site, c.cooldown, script.beforeWalk).walks, c.cooldown,
                  server, script.now)
    ensures forall k | k in Resolve(c, s, server, minValidUntilTs, true, script).contacts :: k.OriginFetch?
  {
    ProbeContacts(c, s, server, Failures(TablesOf(s.world, server)), script.now, script.fetch);
  }

  // ---------------------------------------------------------------- under whose name

  /** The step stores an entry of this answer about the target, reduced to its origin's signatures. */
  predicate IsWordOf(answer: NotaryAnswer, target: ServerName, x: Step) {
    && answer.Returns? && x.server == target && x.event.StoreAttempt?
    && exists e: nat | e < |answer.entries| :: IsEntry(answer.entries[e], target, x.event)
  }

  predicate IsEntry(entry: Option<Vouched>, target: ServerName, event: Event)
    requires event.StoreAttempt?
  {
    && IsFor(entry, target) && event.info == Retained(entry.value.info)
    && event.extra == AdditionalFields(entry.value.raw)
  }

  /** It is the word of the notary under whose name it is stored. */
  predicate IsWordOfItsNotary(notaries: seq<ServerName>, visits: seq<Visit>, target: ServerName, x: Step)
    requires |visits| == |notaries| && x.event.StoreAttempt?
  {
    exists k: nat | k < |notaries| :: notaries[k] == x.event.via && IsWordOf(visits[k].answer, target, x)
  }

  /** Every own store is of a direct reply, or of the word of a notary that was asked about the target. */
  predicate StoresAreNamed(target: ServerName, steps: seq<Step>, contacts: seq<Contact>, notaries: seq<ServerName>,
                           visits: seq<Visit>)
    requires |visits| == |notaries|
  {
    forall x | x in steps && x.own && x.event.StoreAttempt? ::
      x.event.via == ""
      || (NotaryQuery(x.event.via, target) in contacts && IsWordOfItsNotary(notaries, visits, target, x))
  }

  lemma {:induction false} FirstForIsEntry(entries: seq<Option<Vouched>>, target: ServerName)
    ensures FirstFor(entries, target).Some? ==>
              exists e: nat :: e < |entries| && entries[e] == FirstFor(entries, target) && IsFor(entries[e], target)
    decreases |entries|
  {
    if entries != [] && FirstFor(entries, target).Some? {
      if FirstFor(entries, target) == entries[0] {
        assert IsFor(entries[0], target);
      } else {
        FirstForIsEntry(entries[1..], target);
        var e: nat :| e < |entries[1..]| && entries[1..][e] == FirstFor(entries[1..], target)
            && IsFor(entries[1..][e], target);
        assert entries[e + 1] == FirstFor(entries, target);
      }
    }
  }

  lemma AskNames(c: Config, s: Site, notary: ServerName, target: ServerName, visit: Visit)
    ensures var out := Ask(c, s, notary, target, visit);
            forall x | x in out.steps && x.own && x.event.StoreAttempt? && x.event.via != "" ::
              x.event.via == notary && NotaryQuery(notary, target) in out.contacts
              && IsWordOf(visit.answer, target, x)
  {
    var out, s0 := Ask(c, s, notary, target, visit), Meanwhile(s, c.cooldown, visit.before);
    var own := Resolve(c, s0, notary, visit.minNow, false, visit.own);
    OwnStoresAreDirect(c, s0, notary, visit.minNow, visit.own);
    assert forall x | x in own.steps && x.own && x.event.StoreAttempt? :: IsDirectStore(x.event);
    if own.result.Some? && HeldKeysDecode(c.scheme, own.result.value.keys) && own.result.value.keys != map[] {
      var s1, keys := Meanwhile(own.site, c.cooldown, visit.during),
          NotaryVerifyKeys(c.scheme, own.result.value.keys);
      AskWithNames(c, s1, notary, target, keys, visit.answer, visit.storeNow);
      var asked := AskWith(c, s1, notary, target, keys, visit.answer, visit.storeNow);
      assert forall x | x in out.steps && x.own :: x in own.steps || x in asked.steps;
    }
  }

  lemma AskWithNames(c: Config, s: Site, notary: ServerName, target: ServerName, keys: map<KeyId, Bytes>,
                     answer: NotaryAnswer, storeNow: int)
    ensures var out := AskWith(c, s, notary, target, keys, answer, storeNow);
            && out.contacts == [NotaryQuery(notary, target)]
            && forall x | x in out.steps ::
                x.event.StoreAttempt? && x.event.via == notary && IsWordOf(answer, target, x)
  {
    var out := AskWith(c, s, notary, target, keys, answer, storeNow);
    if out.steps != [] {
      FirstForIsEntry(answer.entries, target);
      var e: nat :| e < |answer.entries| && answer.entries[e] == FirstFor(answer.entries, target)
          && IsFor(answer.entries[e], target);
      assert IsEntry(answer.entries[e], target, out.steps[0].event);
    }
  }

  lemma {:induction false} WalkNames(c: Config, s: Site, target: ServerName, minValidUntilTs: Timestamp,
                                     notaries: seq<ServerName>, visits: seq<Visit>, best: Option<Held>)
    requires |visits| == |notaries|
    ensures var out := Walk(c, s, target, minValidUntilTs, notaries, visits, best);
            StoresAreNamed(target, out.steps, out.contacts, notaries, visits)
    decreases |notaries|
  {
    if notaries == [] {
    } else if Skipped(c, notaries[0], target) {
      WalkNames(c, s, target, minValidUntilTs, notaries[1..], visits[1..], best);
      var out := Walk(c, s, target, minValidUntilTs, notaries, visits, best);
      MoreNotaries(target, out.steps, out.contacts, notaries, visits);
    } else {
      var asked, out := Ask(c, s, notaries[0], target, visits[0]),
          Walk(c, s, target, minValidUntilTs, notaries, visits, best);
      AskNames(c, s, notaries[0], target, visits[0]);
      AskedIsNamed(target, asked, notaries, visits);
      if !HeldSatisfies(asked.result, minValidUntilTs) {
        var best' := Better(best, asked.result);
        WalkNames(c, asked.site, target, minValidUntilTs, notaries[1..], visits[1..], best');
        var rest := Walk(c, asked.site, target, minValidUntilTs, notaries[1..], visits[1..], best');
        MoreNotaries(target, rest.steps, rest.contacts, notaries, visits);
        NamedTogether(target, asked.steps, asked.contacts, rest.steps, rest.contacts, notaries, visits);
      }
    }
  }

  lemma AskedIsNamed(target: ServerName, asked: Outcome<Option<Held>>, notaries: seq<ServerName>, visits: seq<Visit>)
    requires |visits| == |notaries| && notaries != []
    requires forall x | x in asked.steps && x.own && x.event.StoreAttempt? && x.event.via != "" ::
               x.event.via == notaries[0] && NotaryQuery(notaries[0], target) in asked.contacts
               && IsWordOf(visits[0].answer, target, x)
    ensures StoresAreNamed(target, asked.steps, asked.contacts, notaries, visits)
  {
  }

  lemma MoreNotaries(target: ServerName, steps: seq<Step>, contacts: seq<Contact>, notaries: seq<ServerName>,
                     visits: seq<Visit>)
    requires |visits| == |notaries| && notaries != []
    requires StoresAreNamed(target, steps, contacts, notaries[1..], visits[1..])
    ensures StoresAreNamed(target, steps, contacts, notaries, visits)
  {
    forall x | x in steps && x.own && x.event.StoreAttempt? && x.event.via != ""
      ensures IsWordOfItsNotary(notaries, visits, target, x)
    {
      var k: nat :| k < |notaries[1..]| && notaries[1..][k] == x.event.via
          && IsWordOf(visits[1..][k].answer, target, x);
      assert notaries[k + 1] == x.event.via && IsWordOf(visits[k + 1].answer, target, x);
    }
  }

  lemma NamedTogether(target: ServerName, a: seq<Step>, ca: seq<Contact>, b: seq<Step>, cb: seq<Contact>,
                      notaries: seq<ServerName>, visits: seq<Visit>)
    requires |visits| == |notaries|
    requires StoresAreNamed(target, a, ca, notaries, visits) && StoresAreNamed(target, b, cb, notaries, visits)
    ensures StoresAreNamed(target, a + b, ca + cb, notaries, visits)
  {
    assert forall x :: x in a + b ==> x in a || x in b;
  }

  /**
    Whose name a query stores under: every own store is of a direct reply, or of an entry about the target in the
    answer of the very notary under whose name it is stored, and which was asked about the target.
   */
  lemma QueryNames(c: Config, s: Site, server: ServerName, minValidUntilTs: Timestamp, script: Script)
    requires |script.visits| == |c.notaries|
    ensures var out := Resolve(c, s, server, minValidUntilTs, true, script);
            StoresAreNamed(server, out.steps, out.contacts, c.notaries, script.visits)
  {
    var out, probe := Resolve(c, s, server, minValidUntilTs, true, script), ProbeIfDue(c, s, server, script);
    var walk, before := WalkOf(c, s, server, minValidUntilTs, script), StepsBeforeWalk(c, s, server, script);
    ProbeStoresDirectly(c, s, server, Failures(TablesOf(s.world, server)), script.now, script.fetch);
    assert OwnStoresDirect(probe.steps);
    WalkNames(c, WalkStart(c, s, server, script), server, minValidUntilTs, c.notaries, script.visits, None);
    NamedTogether(server, before, probe.contacts, walk.steps, walk.contacts, c.notaries, script.visits);
    PartsOfQuery(c, s, server, minValidUntilTs, script);
  }

  /** What a query consists of: nothing, its probe, or its probe and its walk. */
  lemma PartsOfQuery(c: Config, s: Site, server: ServerName, minValidUntilTs: Timestamp, script: Script)
    requires |script.visits| == |c.notaries|
    ensures var out, probe := Resolve(c, s, server, minValidUntilTs, true, script), ProbeIfDue(c, s, server, script);
            var walk, before := WalkOf(c, s, server, minValidUntilTs, script), StepsBeforeWalk(c, s, server, script);
            || (out.steps == [] && out.contacts == [])
            || ((out.steps == probe.steps || out.steps == before) && out.contacts == probe.contacts)
            || (out.steps == before + walk.steps && out.contacts == probe.contacts + walk.contacts)
  {
    var t, probe := TablesOf(s.world, server), ProbeIfDue(c, s, server, script);
    var held, probed, before := LoadHeld(s.world, server), ShouldProbe(t.row, script.now), script.beforeWalk.steps;
    if !RowIsFresh(t, minValidUntilTs, script.now) && probe.result.None? {
      ResolveGoesOn(c, s, server, minValidUntilTs, true, script);
      PartsOfTheRest(c, probe.site, server, minValidUntilTs, held, probed, script);
      var rest, walk := WithoutOrigin(c, probe.site, server, minValidUntilTs, true, held, probed, script),
          WalkOf(c, s, server, minValidUntilTs, script);
      JoinParts(probe.steps, probe.contacts, before, rest.steps, rest.contacts, walk.steps, walk.contacts);
    }
  }

  lemma JoinParts(steps: seq<Step>, contacts: seq<Contact>, before: seq<Step>, restSteps: seq<Step>,
                  restContacts: seq<Contact>, walkSteps: seq<Step>, walkContacts: seq<Contact>)
    requires || ((restSteps == [] || restSteps == before) && restContacts == [])
             || (restSteps == before + walkSteps && restContacts == walkContacts)
    ensures var all, allContacts := steps + restSteps, contacts + restContacts;
            || ((all == steps || all == steps + before) && allContacts == contacts)
            || (all == steps + before + walkSteps && allContacts == contacts + walkContacts)
  {
    assert steps + [] == steps && contacts + [] == contacts;
    assert steps + (before + walkSteps) == steps + before + walkSteps;
  }

  lemma PartsOfTheRest(c: Config, s: Site, server: ServerName, minValidUntilTs: Timestamp, held: Option<Held>,
                       probed: bool, script: Script)
    requires |script.visits| == |c.notaries|
    ensures var out := WithoutOrigin(c, s, server, minValidUntilTs, true, held, probed, script);
            var start := Started(c, Meanwhile(s, c.cooldown, script.beforeWalk), server, script.now);
            var walk := Walk(c, start, server, minValidUntilTs, c.notaries, script.visits, None);
            || ((out.steps == [] || out.steps == script.beforeWalk.steps) && out.contacts == [])
            || (out.steps == script.beforeWalk.steps + walk.steps && out.contacts == walk.contacts)
  {
  }
}
