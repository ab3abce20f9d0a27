/**
  The reachability columns under concurrency: statement by statement, failure notes without a lock, they are at
  every moment what the notes and resets make of them one after another.
 */
module Reachability {
  import opened Schedule
  import opened Tables
  import opened Events
  import opened Budget
  import opened StoreProtocol

  /** The event, if any, that a step is as far as reachability goes. */
  function EventAt(st: State, action: Action): seq<Event>
    requires Enabled(st, action)
  {
    match action
    case Begin(_, _, _) => []
    case Advance(id) =>
      var a := st.active[id];
      match a.call
      case FailingProbe(transient) =>
        if a.pc.Waiting? then [ProbeBegins(a.now, Failures(st.tables))]
        else if a.pc.Noting? then [ProbeFailed(a.now, a.pc.seen, transient)]
        else []
      case StoreCall(info, extra, via, order) =>
        if a.pc.Resetting? && via == "" && WellFormed(a.call) then [StoreAttempt(info, extra, via, a.now, order)]
        else []
      case _ => []
  }

  /** The notes and resets of a run, and the moments at which probes read the record. */
  function EventsAlong(st: State, actions: seq<Action>): seq<Event>
    requires Run(st, actions).Some?
    decreases |actions|
  {
    if actions == [] then [] else EventAt(st, actions[0]) + EventsAlong(Next(st, actions[0]), actions[1..])
  }

  predicate SameReach(t: Tables, t': Tables) {
    Failures(t) == Failures(t') && NextAttempt(t) == NextAttempt(t')
  }

  /** One step changes the columns as its event does, or not at all. */
  lemma StepIsItsEvent(st: State, action: Action, t: Tables)
    requires Basics(st) && Enabled(st, action) && SameReach(st.tables, t)
    ensures SameReach(Next(st, action).tables, AppliedAll(t, EventAt(st, action)))
  {
    var events := EventAt(st, action);
    if action.Advance? {
      var a := st.active[action.id];
      assert ActivityBasics(st, a);
      if events != [] {
        assert events[1..] == [];
        ReachabilityOf(t, events[0]);
      }
      if a.call.StoreCall? && (PastUpsert(a) || a.pc.Upserting?) {
        StatementReach(st, action.id);
      }
    }
  }

  /** Of the statements of a store, the reset alone touches the columns. */
  lemma StatementReach(st: State, id: nat)
    requires Basics(st) && id in st.active && st.active[id].call.StoreCall?
    ensures var t := NextOfStore(st, id, st.active[id].call).tables;
            if st.active[id].pc.Resetting? then Failures(t) == 0 && NextAttempt(t) == 0 else SameReach(t, st.tables)
  {
    assert ActivityBasics(st, st.active[id]);
    if st.active[id].pc.Inserting? && st.active[id].pc.todo != [] {
      ExecInsertKeepsRow(st.tables, st.active[id].pc.todo[0]);
    }
  }

  lemma {:induction false} RunIsItsEvents(st: State, actions: seq<Action>, t: Tables)
    requires Basics(st) && Run(st, actions).Some? && SameReach(st.tables, t)
    ensures SameReach(Run(st, actions).value.tables, AppliedAll(t, EventsAlong(st, actions)))
    decreases |actions|
  {
    if actions == [] {
    } else {
      var next, first := Next(st, actions[0]), EventAt(st, actions[0]);
      StepIsItsEvent(st, actions[0], t);
      NextKeepsBasics(st, actions[0]);
      RunIsItsEvents(next, actions[1..], AppliedAll(t, first));
      AppliedConcat(t, first, EventsAlong(next, actions[1..]));
    }
  }

  /**
    However stores, loads, invalidations and unlocked failure notes overlap, torn stores included: failure
    count and next attempt are those that the notes and resets of the run leave one after another.
   */
  lemma ReachabilityIsAtomic(actions: seq<Action>)
    requires Run(INITIAL, actions).Some?
    ensures SameReach(Run(INITIAL, actions).value.tables, AppliedAll(EMPTY_TABLES, EventsAlong(INITIAL, actions)))
  {
    RunIsItsEvents(INITIAL, actions, EMPTY_TABLES);
  }

  // ---------------------------------------------------------------- the budget, statement by statement

  /** Every probe of the run reads a record by which it is due. */
  predicate ProbesAreDue(st: State, actions: seq<Action>)
    requires Run(st, actions).Some?
    decreases |actions|
  {
    actions != [] ==>
      && (forall e | e in EventAt(st, actions[0]) :: e.ProbeBegins? ==> ShouldProbe(st.tables.row, e.now))
      && ProbesAreDue(Next(st, actions[0]), actions[1..])
  }

  lemma {:induction false} DueConcat(t: Tables, a: seq<Event>, b: seq<Event>)
    ensures AllDue(t, a + b) <==> AllDue(t, a) && AllDue(AppliedAll(t, a), b)
    decreases |a|
  {
    if a == [] {
      assert a + b == b;
    } else {
      assert (a + b)[0] == a[0] && (a + b)[1..] == a[1..] + b;
      DueConcat(Apply(t, a[0]), a[1..], b);
    }
  }

  lemma {:induction false} DueAlong(st: State, actions: seq<Action>, t: Tables)
    requires Basics(st) && Run(st, actions).Some? && SameReach(st.tables, t) && ProbesAreDue(st, actions)
    ensures AllDue(t, EventsAlong(st, actions)) && forall e | e in EventsAlong(st, actions) :: AfterEpoch(e)
    decreases |actions|
  {
    if actions == [] {
    } else {
      var next, first := Next(st, actions[0]), EventAt(st, actions[0]);
      FirstIsDue(st, actions[0], t);
      StepIsItsEvent(st, actions[0], t);
      NextKeepsBasics(st, actions[0]);
      DueAlong(next, actions[1..], AppliedAll(t, first));
      DueConcat(t, first, EventsAlong(next, actions[1..]));
    }
  }

  lemma FirstIsDue(st: State, action: Action, t: Tables)
    requires Basics(st) && Enabled(st, action) && SameReach(st.tables, t)
    requires forall e | e in EventAt(st, action) :: e.ProbeBegins? ==> ShouldProbe(st.tables.row, e.now)
    ensures AllDue(t, EventAt(st, action)) && forall e | e in EventAt(st, action) :: AfterEpoch(e)
  {
    var events := EventAt(st, action);
    if events != [] {
      assert ActivityBasics(st, st.active[action.id]);
      assert events[0] in events && events[1..] == [];
    }
  }

  /**
    The probe budget of one server, statement by statement: whatever calls overlap with the probes, as long as
    each probe is due when it reads the record, and noted before the next one does.
   */
  lemma BudgetUnderConcurrency(actions: seq<Action>, since: int, window: nat)
    requires Run(INITIAL, actions).Some? && ProbesAreDue(INITIAL, actions)
    requires NotedInTurn(Ended, EventsAlong(INITIAL, actions))
    ensures var events := EventsAlong(INITIAL, actions);
            ProbesIn(events, since, since + window) <= (1 + Renewals(Ended, events)) * (5 + window / DAY)
  {
    DueAlong(INITIAL, actions, EMPTY_TABLES);
    ProbeBudget(EMPTY_TABLES, EventsAlong(INITIAL, actions), since, window);
  }
}
