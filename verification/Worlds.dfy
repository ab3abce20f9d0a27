/**
  The records of all servers, and what requests and the sweeper do to them: steps, each of which is one
  event of one server's record. A step says whether the activity at hand takes it or somebody else does.
 */
module Worlds {
  import opened Base
  import opened Events
  import opened NotaryWalks
  import opened Tables

  type World = map<ServerName, Tables>

  function TablesOf(w: World, server: ServerName): Tables {
    if server in w then w[server] else EMPTY_TABLES
  }

  /** `own` distinguishes the steps of the request or sweep under consideration from those of all others. */
  datatype Step = Step(server: ServerName, event: Event, own: bool)

  function StepOn(w: World, step: Step): World {
    if step.event.ProbeBegins? then w else w[step.server := Apply(TablesOf(w, step.server), step.event)]
  }

  function RunSteps(w: World, steps: seq<Step>): World
    decreases |steps|
  {
    if steps == [] then w else RunSteps(StepOn(w, steps[0]), steps[1..])
  }

  // ---------------------------------------------------------------- what others do meanwhile

  datatype OthersData = OthersData(steps: seq<Step>, takes: seq<Request>)

  /** What others do between two steps of an activity: to the records, and to the schedule of walks. */
  type Others = o: OthersData | forall s | s in o.steps :: !s.own
    witness OthersData([], [])

  const NOBODY: Others := OthersData([], [])

  /** The records, and the schedule of notary walks. */
  datatype Site = Site(world: World, walks: Walks)

  function TakeAll(walks: Walks, cooldown: int, takes: seq<Request>): Walks
    decreases |takes|
  {
    if takes == [] then walks else TakeAll(AfterTake(walks, cooldown, takes[0].server, takes[0].now), cooldown,
        takes[1..])
  }

  function Meanwhile(s: Site, cooldown: int, others: Others): Site {
    Site(RunSteps(s.world, others.steps), TakeAll(s.walks, cooldown, others.takes))
  }

  // ---------------------------------------------------------------- rules that steps keep to

  /** Every probe among the steps, or every probe of others, begins only when it is due. */
  predicate StepsDue(w: World, steps: seq<Step>, ofOthersOnly: bool)
    decreases |steps|
  {
    steps != [] ==>
      && ((ofOthersOnly && steps[0].own) || (DueProbe(TablesOf(w, steps[0].server), steps[0].event)
          && AfterEpoch(steps[0].event)))
      && StepsDue(StepOn(w, steps[0]), steps[1..], ofOthersOnly)
  }

  lemma {:induction false} RunStepsConcat(w: World, a: seq<Step>, b: seq<Step>)
    ensures RunSteps(w, a + b) == RunSteps(RunSteps(w, a), b)
    decreases |a|
  {
    if a == [] {
      assert a + b == b;
    } else {
      assert (a + b)[0] == a[0] && (a + b)[1..] == a[1..] + b;
      RunStepsConcat(StepOn(w, a[0]), a[1..], b);
    }
  }

  lemma {:induction false} StepsDueConcat(w: World, a: seq<Step>, b: seq<Step>, ofOthersOnly: bool)
    ensures StepsDue(w, a + b, ofOthersOnly) <==>
              StepsDue(w, a, ofOthersOnly) && StepsDue(RunSteps(w, a), b, ofOthersOnly)
    decreases |a|
  {
    if a == [] {
      assert a + b == b;
    } else {
      assert (a + b)[0] == a[0] && (a + b)[1..] == a[1..] + b;
      StepsDueConcat(StepOn(w, a[0]), a[1..], b, ofOthersOnly);
    }
  }

  /** Among steps of others only, the two ways of looking at them are the same. */
  lemma {:induction false} OthersDueIsDue(w: World, steps: seq<Step>)
    requires (forall s | s in steps :: !s.own)
    ensures StepsDue(w, steps, true) <==> StepsDue(w, steps, false)
    decreases |steps|
  {
    if steps == [] {
    } else {
      assert steps[0] in steps;
      OthersDueIsDue(StepOn(w, steps[0]), steps[1..]);
    }
  }

  // ---------------------------------------------------------------- one server of many

  /** The events of one server among the steps. */
  function EventsOf(steps: seq<Step>, server: ServerName): seq<Event> {
    if steps == [] then []
    else
      var rest := EventsOf(steps[1..], server);
      if steps[0].server == server then [steps[0].event] + rest else rest
  }

  lemma {:induction false} EventsOfConcat(a: seq<Step>, b: seq<Step>, server: ServerName)
    ensures EventsOf(a + b, server) == EventsOf(a, server) + EventsOf(b, server)
  {
    if a == [] {
      assert a + b == b;
    } else {
      assert (a + b)[0] == a[0] && (a + b)[1..] == a[1..] + b;
      EventsOfConcat(a[1..], b, server);
    }
  }

  lemma {:induction false} EventsOfAre(steps: seq<Step>, server: ServerName)
    ensures forall e | e in EventsOf(steps, server) :: exists s :: s in steps && s.server == server && s.event == e
    ensures forall s | s in steps && s.server == server :: s.event in EventsOf(steps, server)
  {
    if steps == [] {
    } else {
      EventsOfAre(steps[1..], server);
      assert steps == [steps[0]] + steps[1..];
    }
  }

  lemma {:induction false} RunStepsApply(w: World, steps: seq<Step>, server: ServerName)
    ensures TablesOf(RunSteps(w, steps), server) == AppliedAll(TablesOf(w, server), EventsOf(steps, server))
    decreases |steps|
  {
    if steps == [] {
    } else {
      var rest := EventsOf(steps[1..], server);
      RunStepsApply(StepOn(w, steps[0]), steps[1..], server);
      if steps[0].server == server {
        assert EventsOf(steps, server)[0] == steps[0].event && EventsOf(steps, server)[1..] == rest;
        assert TablesOf(StepOn(w, steps[0]), server) == Apply(TablesOf(w, server), steps[0].event);
      } else {
        assert TablesOf(StepOn(w, steps[0]), server) == TablesOf(w, server);
      }
    }
  }

  /** Records are independent: what a run does to one server is what its own events do. */
  lemma RunStepsOnOneServer(w: World, steps: seq<Step>, server: ServerName)
    ensures TablesOf(RunSteps(w, steps), server) ==
              After(TablesOf(w, server), EventsOf(steps, server), |EventsOf(steps, server)|)
  {
    var events := EventsOf(steps, server);
    RunStepsApply(w, steps, server);
    AppliedIsAfter(TablesOf(w, server), events, |events|);
    assert events[..|events|] == events;
  }

  /** Due probes of a run are due probes of their server. */
  lemma {:induction false} StepsDueOnOneServer(w: World, steps: seq<Step>, server: ServerName)
    requires StepsDue(w, steps, false)
    ensures AllDue(TablesOf(w, server), EventsOf(steps, server))
    ensures forall e | e in EventsOf(steps, server) :: AfterEpoch(e)
    decreases |steps|
  {
    EventsOfAre(steps, server);
    if steps == [] {
    } else {
      var rest := EventsOf(steps[1..], server);
      StepsDueOnOneServer(StepOn(w, steps[0]), steps[1..], server);
      if steps[0].server == server {
        assert EventsOf(steps, server) == [steps[0].event] + rest;
        assert EventsOf(steps, server)[1..] == rest;
      } else {
        assert EventsOf(steps, server) == rest;
      }
    }
  }

  // ---------------------------------------------------------------- copies held during a run

  /** At some moment of the run, its ends included, the record of the server held this copy. */
  predicate WasHeld(w: World, steps: seq<Step>, server: ServerName, copy: Bundle)
    decreases |steps|
  {
    || BundleOf(TablesOf(w, server)) == copy
    || (steps != [] && WasHeld(StepOn(w, steps[0]), steps[1..], server, copy))
  }

  lemma {:induction false} WasHeldConcat(w: World, a: seq<Step>, b: seq<Step>, server: ServerName, copy: Bundle)
    ensures WasHeld(w, a + b, server, copy) <==> WasHeld(w, a, server, copy) || WasHeld(RunSteps(w, a), b, server, copy)
    decreases |a|
  {
    if a == [] {
      assert a + b == b;
    } else {
      assert (a + b)[0] == a[0] && (a + b)[1..] == a[1..] + b;
      WasHeldConcat(StepOn(w, a[0]), a[1..], b, server, copy);
    }
  }

  lemma {:induction false} HeldAtTheEnd(w: World, steps: seq<Step>, server: ServerName)
    ensures WasHeld(w, steps, server, BundleOf(TablesOf(RunSteps(w, steps), server)))
    decreases |steps|
  {
    if steps == [] {
    } else {
      HeldAtTheEnd(StepOn(w, steps[0]), steps[1..], server);
    }
  }

  function ValidOn(w: World, server: ServerName): int {
    BundleOf(TablesOf(w, server)).validUntilTs
  }

  /** Under offers and probes alone, whatever was held in between lies between the first copy and the last. */
  lemma {:induction false} WasHeldInBetween(w: World, steps: seq<Step>, server: ServerName, copy: Bundle)
    requires OnlyOffers(EventsOf(steps, server)) && TablesOf(w, server).row.Some?
    requires WasHeld(w, steps, server, copy)
    ensures var w' := RunSteps(w, steps);
            && TablesOf(w', server).row.Some?
            && ValidOn(w, server) <= copy.validUntilTs <= ValidOn(w', server)
            && (TablesOf(w, server).keys != map[] ==> copy.keys != map[])
            && (copy.keys != map[] ==> TablesOf(w', server).keys != map[])
    decreases |steps|
  {
    if steps == [] {
    } else {
      var w1 := StepOn(w, steps[0]);
      OffersFromFront(steps, server);
      OneStepImproves(w, steps[0], server);
      if WasHeld(w1, steps[1..], server, copy) {
        WasHeldInBetween(w1, steps[1..], server, copy);
      } else {
        HeldAtTheEnd(w1, steps[1..], server);
        WasHeldInBetween(w1, steps[1..], server, BundleOf(TablesOf(RunSteps(w1, steps[1..]), server)));
      }
    }
  }

  lemma OffersFromFront(steps: seq<Step>, server: ServerName)
    requires steps != [] && OnlyOffers(EventsOf(steps, server))
    ensures OnlyOffers(EventsOf(steps[1..], server))
    ensures steps[0].server == server ==> OnlyOffers([steps[0].event])
  {
    var rest := EventsOf(steps[1..], server);
    forall e | e in rest ensures e in EventsOf(steps, server) {
    }
    if steps[0].server == server {
      assert EventsOf(steps, server)[0] == steps[0].event;
    }
  }

  /** One offer or probe leaves the copy as it was, or replaces it by a longer-valid one with keys. */
  lemma OneStepImproves(w: World, step: Step, server: ServerName)
    requires TablesOf(w, server).row.Some?
    requires step.server == server ==> OnlyOffers([step.event])
    ensures var t, t' := TablesOf(w, server), TablesOf(StepOn(w, step), server);
            && t'.row.Some?
            && (BundleOf(t') == BundleOf(t) || (ValidOn(StepOn(w, step), server) > ValidOn(w, server)
                && t'.keys != map[]))
  {
    if step.server == server {
      var e := step.event;
      assert e in [e];
      OfferStep(TablesOf(w, server), e);
      if e.StoreAttempt? {
        StoreMeaning(TablesOf(w, server), e.info, e.extra, e.via, e.now, e.order);
      }
    }
  }

  /** A copy as long valid as the last one is the last one: equally long-valid copies replace nothing. */
  lemma {:induction false} EquallyValidIsTheLast(w: World, steps: seq<Step>, server: ServerName, copy: Bundle)
    requires OnlyOffers(EventsOf(steps, server)) && TablesOf(w, server).row.Some?
    requires WasHeld(w, steps, server, copy) && copy.validUntilTs == ValidOn(RunSteps(w, steps), server)
    ensures copy == BundleOf(TablesOf(RunSteps(w, steps), server))
    decreases |steps|
  {
    if steps == [] {
    } else {
      var w1 := StepOn(w, steps[0]);
      OffersFromFront(steps, server);
      OneStepImproves(w, steps[0], server);
      StartIsHeld(w1, steps[1..], server);
      WasHeldInBetween(w1, steps[1..], server, BundleOf(TablesOf(w1, server)));
      if WasHeld(w1, steps[1..], server, copy) {
        EquallyValidIsTheLast(w1, steps[1..], server, copy);
      }
    }
  }

  lemma StartIsHeld(w: World, steps: seq<Step>, server: ServerName)
    ensures WasHeld(w, steps, server, BundleOf(TablesOf(w, server)))
  {
  }

  /** Under offers and probes, a copy without keys is the first one, as it was. */
  lemma {:induction false} KeylessIsTheFirst(w: World, steps: seq<Step>, server: ServerName, copy: Bundle)
    requires OnlyOffers(EventsOf(steps, server)) && WasHeld(w, steps, server, copy) && copy.keys == map[]
    ensures copy == BundleOf(TablesOf(w, server))
    decreases |steps|
  {
    if steps != [] && copy != BundleOf(TablesOf(w, server)) {
      var w1 := StepOn(w, steps[0]);
      OffersFromFront(steps, server);
      KeylessIsTheFirst(w1, steps[1..], server, copy);
      if steps[0].server == server {
        var e := steps[0].event;
        assert e in [e];
        if e.StoreAttempt? {
          StoreMeaning(TablesOf(w, server), e.info, e.extra, e.via, e.now, e.order);
        }
      }
    }
  }

  predicate Untouched(steps: seq<Step>, server: ServerName) {
    forall x | x in steps :: x.server != server
  }

  lemma {:induction false} NoEventsElsewhere(steps: seq<Step>, server: ServerName)
    requires forall x | x in steps :: x.server != server
    ensures EventsOf(steps, server) == []
  {
    if steps == [] {
    } else {
      assert steps[0] in steps;
      NoEventsElsewhere(steps[1..], server);
    }
  }

  /** Steps on other servers leave a record alone. */
  lemma StepsElsewhere(w: World, steps: seq<Step>, server: ServerName)
    requires Untouched(steps, server)
    ensures TablesOf(RunSteps(w, steps), server) == TablesOf(w, server)
  {
    NoEventsElsewhere(steps, server);
    RunStepsOnOneServer(w, steps, server);
  }

  /** No record is ever deleted. */
  lemma {:induction false} RecordsStay(w: World, steps: seq<Step>, server: ServerName)
    requires TablesOf(w, server).row.Some?
    ensures TablesOf(RunSteps(w, steps), server).row.Some?
    decreases |steps|
  {
    if steps == [] {
    } else {
      var e := steps[0].event;
      if steps[0].server == server && e.StoreAttempt? {
        StoreMeaning(TablesOf(w, server), e.info, e.extra, e.via, e.now, e.order);
        ClearedMeaning(TablesOf(w, server), e.info, e.extra, e.via, e.now);
      }
      RecordsStay(StepOn(w, steps[0]), steps[1..], server);
    }
  }

  /** Without an offer or an invalidation, the copy held stays the same. */
  lemma {:induction false} ProbesKeepTheCopy(w: World, steps: seq<Step>, server: ServerName)
    requires TablesOf(w, server).row.Some?
    requires forall x | x in steps && x.server == server :: x.event.ProbeBegins? || x.event.ProbeFailed?
    ensures BundleOf(TablesOf(RunSteps(w, steps), server)) == BundleOf(TablesOf(w, server))
    decreases |steps|
  {
    if steps == [] {
    } else {
      assert steps[0] in steps;
      ProbesKeepTheCopy(StepOn(w, steps[0]), steps[1..], server);
    }
  }
}
