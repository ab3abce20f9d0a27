/**
  How a server's keys are resolved: from what is held, from the origin, or from the trusted notaries.
  What the network answers, what the clock reads and what other requests and the sweeper do in between
  is a script, an argument like any other, so every statement about resolutions is about all answers,
  all readings and all interleavings with others.
 */
module Resolution {
  import opened Base
  import opened Signing
  import opened KeyRecords
  import opened Schedule
  import opened Tables
  import opened Events
  import opened NotaryWalks
  import opened Worlds

  // ---------------------------------------------------------------- the outside world

  datatype ReplyData = ReplyData(info: ServerKeys, raw: Fields, order: InsertOrder)

  /** A decoded reply, with the order in which its maps would be ranged over to store it. */
  type Reply = r: ReplyData | Orders(r.order, r.info)
    witness ReplyData(ServerKeys("", 0, map[], None, None), map[], InsertOrder([], [], []))

  /** One entry of a notary's answer; the order is that of the part that would be stored. */
  type Vouched = r: ReplyData | Orders(r.order, Retained(r.info))
    witness ReplyData(ServerKeys("", 0, map[], None, None), map[], InsertOrder([], [], []))

  datatype OriginAnswer = Fails(error: FetchError) | Replies(reply: Reply)

  /** The entries that could be decoded, in order; None stands for one that could not. */
  datatype NotaryAnswer = NotaryFails | Returns(entries: seq<Option<Vouched>>)

  /**
    One fetch from an origin: what others do while it lasts, its answer, the clock when the reply is
    stored, and what others do between a failure and its note.
   */
  datatype Exchange = Exchange(during: Others, answer: OriginAnswer, storeNow: Timestamp, beforeNote: Others)

  /** One resolution: its clock, its fetch, what others do before the notaries are asked, and the visits. */
  datatype Script = Script(now: Timestamp, fetch: Exchange, beforeWalk: Others, visits: seq<Visit>)

  /**
    One visit to a notary: its own keys are resolved, and then, with others active before and during it, it
    is asked.
   */
  datatype Visit = Visit(before: Others, minNow: Timestamp, own: Script, during: Others, answer: NotaryAnswer,
      storeNow: Timestamp)

  datatype Config = Config(scheme: Scheme, self: ServerName, notaries: seq<ServerName>, cooldown: int)

  // ---------------------------------------------------------------- state and outcome

  /** A record as it is handed to callers: the key data, without the reachability columns. */
  datatype Held = Held(
    server: ServerName,
    updatedTs: int,
    validUntilTs: Timestamp,
    extra: Fields,
    via: string,
    keys: map<KeyId, KeyRow>,
    signatures: map<KeyId, string>)

  function HeldOf(server: ServerName, t: Tables): Held
    requires t.row.Some?
  {
    var row := t.row.value;
    Held(server, row.updatedTs, row.validUntilTs, row.extra, row.via, t.keys, t.signatures)
  }

  /** The key data of a held record. */
  function HeldBundle(held: Held): Bundle {
    Bundle(held.validUntilTs, held.extra, held.via, held.keys, held.signatures)
  }

  function LoadHeld(w: World, server: ServerName): Option<Held> {
    var t := TablesOf(w, server);
    if t.row.None? then None else Some(HeldOf(server, t))
  }

  datatype Contact = OriginFetch(server: ServerName, answer: OriginAnswer) | NotaryQuery(notary: ServerName,
      target: ServerName)

  /** The site afterwards, what was done to which record by whom, who was contacted, and the result. */
  datatype Outcome<+R> = Outcome(site: Site, steps: seq<Step>, contacts: seq<Contact>, result: R)

  // ---------------------------------------------------------------- origins

  /** A store attempt, and the copy it leaves when it succeeds. */
  function StoreReply(s: Site, info: ServerKeys, extra: Fields, via: string, now: int,
                      order: InsertOrder): Outcome<Option<Held>>
    requires Orders(order, info) && Validates(info)
  {
    var out := Store(TablesOf(s.world, info.serverName), info, extra, via, now, order);
    Outcome(
      s.(world := s.world[info.serverName := out.tables]),
      [Step(info.serverName, StoreAttempt(info, extra, via, now, order), true)],
      [],
      if out.ok && out.tables.row.Some? then Some(HeldOf(info.serverName, out.tables)) else None)
  }

  /** An answer that passes every check made of a direct reply. */
  predicate Accepted(c: Config, answer: OriginAnswer) {
    answer.Replies? && AcceptsDirect(c.scheme, answer.reply.info, answer.reply.raw)
  }

  datatype Fetched = FetchedKeys(held: Held) | FetchFailed(error: FetchError)

  function FetchDirect(c: Config, s: Site, server: ServerName, fetch: Exchange): Outcome<Fetched> {
    var s' := Meanwhile(s, c.cooldown, fetch.during);
    match fetch.answer
    case Fails(error) => Outcome(s', fetch.during.steps, [OriginFetch(server, fetch.answer)], FetchFailed(error))
    case Replies(reply) =>
      if !AcceptsDirect(c.scheme, reply.info, reply.raw) then
        Outcome(s', fetch.during.steps, [OriginFetch(server, fetch.answer)], FetchFailed(OtherError))
      else
        var stored := StoreReply(s', reply.info, AdditionalFields(reply.raw), "", fetch.storeNow, reply.order);
        Outcome(stored.site, fetch.during.steps + stored.steps, [OriginFetch(server, fetch.answer)],
                if stored.result.Some? then FetchedKeys(stored.result.value) else FetchFailed(OtherError))
  }

  /** A probe: a fetch, and on failure the note that schedules the next one. */
  function Probe(c: Config, s: Site, server: ServerName, seen: int, now: int,
                 exchange: Exchange): Outcome<Option<Held>> {
    var begins := Step(server, ProbeBegins(now, seen), true);
    var fetch := FetchDirect(c, s, server, exchange);
    match fetch.result
    case FetchedKeys(held) => Outcome(fetch.site, [begins] + fetch.steps, fetch.contacts, Some(held))
    case FetchFailed(error) =>
      var s' := Meanwhile(fetch.site, c.cooldown, exchange.beforeNote);
      var note := ProbeFailed(now, seen, IsTransient(error));
      Outcome(
        s'.(world := s'.world[server := Apply(TablesOf(s'.world, server), note)]),
        [begins] + fetch.steps + exchange.beforeNote.steps + [Step(server, note, true)], fetch.contacts, None)
  }

  // ---------------------------------------------------------------- resolution

  predicate HeldSatisfies(held: Option<Held>, minValidUntilTs: int) {
    held.Some? && held.value.keys != map[] && held.value.validUntilTs >= minValidUntilTs
  }

  /** The answer about a server that is dead and of which no keys are held anywhere. */
  function NothingHeld(server: ServerName, now: Timestamp): Held {
    Held(server, now, now, map[], "", map[], map[])
  }

  /** The last resort: whatever is held inside the backoff; after a probe, at least an empty answer. */
  function BestEffort(server: ServerName, held: Option<Held>, probed: bool, now: Timestamp): Option<Held> {
    if !probed || (held.Some? && held.value.keys != map[]) then held else Some(NothingHeld(server, now))
  }

  /** Resolves a server's keys; only with `fallback` are notaries asked. */
  function Resolve(c: Config, s: Site, server: ServerName, minValidUntilTs: Timestamp, fallback: bool,
                   script: Script): Outcome<Option<Held>>
    requires fallback ==> |script.visits| == |c.notaries|
    decreases script, 1
  {
    var t := TablesOf(s.world, server);
    var held := LoadHeld(s.world, server);
    if t.row.Some? && IsFresh(t.row.value.updatedTs, t.row.value.validUntilTs, minValidUntilTs, script.now) then
      Outcome(s, [], [], held)
    else
      var probe := ProbeIfDue(c, s, server, script);
      if probe.result.Some? then probe
      else
        var rest := WithoutOrigin(c, probe.site, server, minValidUntilTs, fallback, held,
            ShouldProbe(t.row, script.now), script);
        Outcome(rest.site, probe.steps + rest.steps, probe.contacts + rest.contacts, rest.result)
  }

  /** A resolution that finds nothing fresh is a probe, and then the rest if the origin does not answer. */
  lemma ResolveGoesOn(c: Config, s: Site, server: ServerName, minValidUntilTs: Timestamp, fallback: bool,
                      script: Script)
    requires fallback ==> |script.visits| == |c.notaries|
    requires !RowIsFresh(TablesOf(s.world, server), minValidUntilTs, script.now)
    ensures var out, probe := Resolve(c, s, server, minValidUntilTs, fallback, script),
              ProbeIfDue(c, s, server, script);
            var rest := WithoutOrigin(c, probe.site, server, minValidUntilTs, fallback, LoadHeld(s.world, server),
                ShouldProbe(TablesOf(s.world, server).row, script.now), script);
            if probe.result.Some? then out == probe
            else out.site == rest.site && out.result == rest.result && out.contacts == probe.contacts + rest.contacts
                 && out.steps == probe.steps + rest.steps
  {
  }

  /** The probe of a resolution, if its origin is due one. */
  function ProbeIfDue(c: Config, s: Site, server: ServerName, script: Script): Outcome<Option<Held>> {
    var t := TablesOf(s.world, server);
    if ShouldProbe(t.row, script.now) then Probe(c, s, server, Failures(t), script.now, script.fetch)
    else Outcome(s, [], [], None)
  }

  /** The rest of a resolution that the origin did not answer. */
  function WithoutOrigin(c: Config, s: Site, server: ServerName, minValidUntilTs: Timestamp, fallback: bool,
                         held: Option<Held>, probed: bool, script: Script): Outcome<Option<Held>>
    requires fallback ==> |script.visits| == |c.notaries|
    decreases script, 0
  {
    if fallback && !HeldSatisfies(held, minValidUntilTs) then
      var s' := Meanwhile(s, c.cooldown, script.beforeWalk);
      if Due(s'.walks, c.cooldown, server, script.now) then
        var walk := Walk(c, Started(c, s', server, script.now), server, minValidUntilTs, c.notaries, script.visits,
            None);
        var steps := script.beforeWalk.steps + walk.steps;
        if HeldSatisfies(walk.result, minValidUntilTs) then walk.(steps := steps)
        else
          var best := if walk.result.Some? then walk.result else held;
          walk.(steps := steps, result := BestEffort(server, best, probed, script.now))
      else
        Outcome(s', script.beforeWalk.steps, [], BestEffort(server, held, probed, script.now))
    else
      Outcome(s, [], [], BestEffort(server, held, probed, script.now))
  }

  /** The site with a walk recorded as started. */
  function Started(c: Config, s: Site, server: ServerName, now: int): Site {
    s.(walks := AfterTake(s.walks, c.cooldown, server, now))
  }

  predicate Skipped(c: Config, notary: ServerName, target: ServerName) {
    notary == "" || notary == c.self || notary == target
  }

  /** Asks the notaries in order until one has a copy that is valid for long enough; else the best copy. */
  function Walk(c: Config, s: Site, target: ServerName, minValidUntilTs: Timestamp, notaries: seq<ServerName>,
                visits: seq<Visit>, best: Option<Held>): Outcome<Option<Held>>
    requires |visits| == |notaries|
    decreases visits, 3
  {
    if notaries == [] then Outcome(s, [], [], best)
    else if Skipped(c, notaries[0], target) then Walk(c, s, target, minValidUntilTs, notaries[1..], visits[1..], best)
    else
      var asked := Ask(c, s, notaries[0], target, visits[0]);
      var best' := Better(best, asked.result);
      if HeldSatisfies(asked.result, minValidUntilTs) then asked
      else
        var rest := Walk(c, asked.site, target, minValidUntilTs, notaries[1..], visits[1..], best');
        Outcome(rest.site, asked.steps + rest.steps, asked.contacts + rest.contacts, rest.result)
  }

  /** The longer valid of two copies; the earlier one when they are equally good. */
  function Better(best: Option<Held>, cached: Option<Held>): Option<Held> {
    if cached.Some? && (best.None? || cached.value.validUntilTs > best.value.validUntilTs) then cached else best
  }

  predicate HeldKeysDecode(scheme: Scheme, keys: map<KeyId, KeyRow>) {
    forall id | id in keys :: scheme.decode(keys[id].publicKey).Some?
  }

  /** A notary's verify keys, expired ones included. */
  function NotaryVerifyKeys(scheme: Scheme, keys: map<KeyId, KeyRow>): map<KeyId, Bytes>
    requires HeldKeysDecode(scheme, keys)
  {
    map id | id in keys :: scheme.decode(keys[id].publicKey).value
  }

  /** The first entry of an answer that is usable and about the server asked for. */
  function FirstFor(entries: seq<Option<Vouched>>, target: ServerName): (r: Option<Vouched>)
    ensures r.Some? ==> r in entries && Validates(r.value.info) && r.value.info.serverName == target
  {
    if entries == [] then None
    else if entries[0].Some? && Validates(entries[0].value.info)
        && entries[0].value.info.serverName == target then entries[0]
    else FirstFor(entries[1..], target)
  }

  /** Asks one notary: its own keys come from its own origin, never from another notary. */
  function Ask(c: Config, s: Site, notary: ServerName, target: ServerName, visit: Visit): Outcome<Option<Held>>
    decreases visit, 2
  {
    var own := Resolve(c, Meanwhile(s, c.cooldown, visit.before), notary, visit.minNow, false, visit.own);
    var steps := visit.before.steps + own.steps;
    if own.result.None? || !HeldKeysDecode(c.scheme, own.result.value.keys) || own.result.value.keys == map[] then
      own.(steps := steps, result := None)
    else
      var notaryKeys := NotaryVerifyKeys(c.scheme, own.result.value.keys);
      var s' := Meanwhile(own.site, c.cooldown, visit.during);
      var asked := AskWith(c, s', notary, target, notaryKeys, visit.answer, visit.storeNow);
      Outcome(asked.site, steps + visit.during.steps + asked.steps, own.contacts + asked.contacts, asked.result)
  }

  /** Asks a notary whose keys are known, and stores what it vouches for. */
  function AskWith(c: Config, s: Site, notary: ServerName, target: ServerName, notaryKeys: map<KeyId, Bytes>,
                   answer: NotaryAnswer, storeNow: int): Outcome<Option<Held>> {
    var contacts := [NotaryQuery(notary, target)];
    var entry := if answer.Returns? then FirstFor(answer.entries, target) else None;
    if entry.None? || !AcceptsViaNotary(c.scheme, notary, entry.value.info, entry.value.raw, notaryKeys) then
        Outcome(s, [], contacts, None)
    else
      var reply := entry.value;
      StoreReply(s, Retained(reply.info), AdditionalFields(reply.raw), notary, storeNow,
          reply.order).(contacts := contacts)
  }
}
