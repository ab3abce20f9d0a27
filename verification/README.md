# The key reservoir, verified

A Dafny model of a Matrix notary server's key reservoir: what it stores about each remote server, when
it asks origins and other notaries, and what it serves back. The model follows the Go code branch by
branch; the properties are proved for every input, every answer of the network, every clock reading
within the hypotheses below, and every interleaving where there is concurrency.

Run `dafny verify dfyconfig.toml` to check everything.

## How it is organised

| file | what it holds |
|---|---|
| `Base.dfy` | options, names, 64-bit timestamps, normalised JSON |
| `Signing.dfy`, `Redaction.dfy` | signing, checking, redacting and hashing JSON objects |
| `KeyRecords.dfy`, `Decoding.dfy` | server-key replies, the two ways one is accepted, and how one is read from JSON |
| `Tables.dfy` | the rows stored about one server, the SQL statements on them, and a whole store |
| `StoreProtocol.dfy`, `StoreConsistency.dfy`, `FastPath.dfy` | stores, loads, invalidations and unlocked failure notes, one SQL statement or lock operation a step, any number of them at once |
| `Tears.dfy` | the replies whose store stops half-way, and what the next load then returns |
| `Schedule.dfy`, `Events.dfy`, `Budget.dfy` | freshness, the backoff ladder, the life of one record as a run of events, and how often a failing origin is probed |
| `Reachability.dfy` | failure counts and standoffs under concurrency, statement by statement |
| `NotaryWalks.dfy` | the rate limiter of notary walks and the unpruned schedule it stands for |
| `Worlds.dfy` | the records of all servers, and runs of steps on them, one's own and others' |
| `Resolution.dfy`, `Runs.dfy`, `ResolutionTheorems.dfy` | resolving a server's keys, as a function of the records, the answers, the clock, and what others do in between |
| `Provenance.dfy`, `Notaries.dfy` | whose records are written as coming directly from their origin; which notaries are asked, and whose word is kept under which name |
| `Reservoir.dfy` | the same resolution as a class whose methods change the tables statement by statement |
| `Sweeper.dfy`, `SweeperTheorems.dfy`, `Starvation.dfy` | the background sweep over due origins |
| `Serving.dfy`, `ServingTheorems.dfy` | putting a record back together, signing it and checking it one last time |
| `Decisions.dfy`, `Outcomes.dfy`, `Refusals.dfy` | what a resolution does, what a lookup answers and what is refused, case by case down to single fields, clocks and signatures |
| `EndToEnd.dfy` | concurrent stores and loads together with signatures: what is loaded is served |
| `LocalKeys.dfy` | the server's own published keys, and two servers of this kind in a row |
| `Witnesses.dfy` | replies that pass every check and still run into each shortfall listed below |
| `Batch.dfy` | the goroutines, semaphore and wait group of a batch query |

Code that changes state in Go is a class or a method with loops here, proved equal to a function of the
old state; the properties are then lemmas about those functions. What each function comes to is stated
again without it: in terms of the arguments, the fields of the result, and the `verify`, `sign` and `canonical`
of the signature scheme.

Concurrency is modelled at two levels. `StoreProtocol` interleaves single SQL statements and lock
operations on one server's tables, and `StoreConsistency` shows that every run of it looks as if whole
calls had run one after another, in the order of their returns. One level up, a query or a sweep is a
sequence of whole steps: its loads, stores, invalidations, failure notes, and grants of walks. Between any
two of its own steps anybody else may take any number of steps, on any record and on the schedule of
walks (`Others`). Each step is an event of one server's record, marked as one's own or somebody else's, so
that a theorem says of whose steps it assumes what. `Reachability` ties the two levels together for the
failure count and the next attempt, which are written without a lock. A batch query runs up to eight
lookups at once (`Batch`); each of them is such a query among the others.

Ed25519, SHA-256, base64 and canonical JSON are the fields of a `Scheme`, a parameter of every theorem.
`Scheme.Sound` states the two laws needed of them: a signature verifies under the public key of its
private key, and base64 decoding undoes encoding. `Signing.SoundSchemeExists` shows that they can be met.

Answers of the network, clock readings and the steps of others are arguments (`Script`, `Visit`,
`Exchange`, `Turn`), and so is the order in which Go ranges over a map when the order can be seen
(`InsertOrder`). Where only the result of a loop over a map can be seen, the loop takes the keys in an
arbitrary order.

## Hypotheses

The code does not enforce these, and the theorems that need them say so in their `requires`.

- **Clock.** Positive, and not decreasing; far enough from the end of an int64 for seven days to be
  added (`IsClock`). Freshness itself is computed with 64-bit wrap-around and truncating division. The bound
  on revivals needs every failure to be noted with a clock reading no earlier than the record's last update
  (`ClockRuns`), which a probe that overlaps with another write of the record need not keep.
- **Database.** Statements succeed, except that an insert fails on a taken primary key. A store is not a
  transaction, so a failing insert leaves what was written before it. Key ids, public keys and signatures
  are columns of at most 255 characters; the model has no such limit, so a reply with a longer one is
  `Storable` here although its store stops half-way in the same manner.
- **Names.** The code never compares the name in a direct reply with the server it asked. It stores under the
  name in the reply and clears that server's standoff. No theorem excludes such replies altogether: against
  starvation, fewer than 25 origins may send them (`FairTurns`); in the probe budget, each one that names the
  server counts (`Renewals`); and `OriginAnswerIsServed` is about a reply that is not misnamed.
- **Reply shape.** Snapshot consistency and best-copy keeping need replies whose rows do not share a key id
  (`Storable`); acceptance does not imply it. What it takes beyond that to be served unchanged is the
  condition of the round-trip theorems: `old_verify_keys` present with positive `expired_ts`, `unsigned`
  missing or an object (`Serviceable`). The remote server must not bear our own name.
- **Signatures.** A domain that lists no signature passes the check; a direct reply may thus be accepted
  without any. No theorem claims a signature on the direct path.
- **Probe overlap.** The probe budget needs each failure of a server to be noted before the next probe of it
  begins (`NotedInTurn`). The code does not see to that. Snapshot consistency, the downgrade theorems and
  the absence of starvation do not need it.
- **Slow probes.** The absence of starvation needs every failure to be noted before the moment for which it
  schedules the next probe (`LooksAhead`), which is at least a minute after the probe began.
- **Panics.** A failed type assertion panics in Go, and so does checking a signature with a public key of the
  wrong length. The model counts either as a check that fails. In the goroutine of a batch lookup, and in
  that of the sweeper, nothing recovers a panic, so there the process ends; that consequence is outside the
  model.

## Where the code falls short of its promises

Each of these is proved, with the exact condition under which the promise holds. Where a reply is to blame,
`Witnesses` has one that is signed, passes every check, and does not meet the condition.

- A reply with a key id both in `verify_keys` and in `old_verify_keys` can pass every check
  (`Witnesses.AcceptedButNotStorable`). Its store stops half-way, whoever sent it and whatever was held, and
  the next load returns the half-written record; a good copy held before is gone
  (`Tears.ConsistentIffStorable`, `Tears.TearDestroysTheHeldCopy`, `Witnesses.VouchedForButNotStorable`).
- A null `old_verify_keys`, or an old key without a positive `expired_ts`, does not come back from the
  store as it went in, so the signed part changes (`ServingTheorems.RebuildsTheSignedPartIff`,
  `Witnesses.AcceptedButNotRebuildable`).
- A reply whose `unsigned` is not an object is accepted and stored, but can never be signed and served
  (`ServingTheorems.HeldReplyIsServedIff`, `Witnesses.AcceptedButNotSignable`).
- A reply under another name, signed by keys that it brings along, replaces the record of the server it
  names (`Provenance.QueryStoresWhatIsNamed`, `ResolutionTheorems.AcceptedReplyTakesOver`).
- An origin that answers under another name stays due after its probe (`SweeperTheorems.ProbeTakesOffTheListIff`).
  Fewer than 25 of those cannot keep another one from being probed (`SweeperTheorems.NoStarvation`); a whole
  batch of them that are due earlier can, for ever (`Starvation.StarvationIffABatch`,
  `Witnesses.StarvationHappens`).
- The budget of probes fails when another origin's reply names the server and its store stops half-way: the
  standoff is gone, and nothing has succeeded (`Budget.ForeignStoresVoidTheBudget`). It fails when probes
  overlap (`Budget.OverlapVoidsTheBudget`). It holds in all other cases, and each renewal costs no more than
  one budget (`Budget.ProbeBudget`).
- A record torn at its keys has no signature of its origin left, which the last check lets pass: it is served,
  signed by this server alone (`EndToEnd.TornRecordIsServedIff`).
- The last check is made on the copy loaded, but its failure invalidates whatever is held by then, a good copy
  that was stored in between included (`ServingTheorems.FailedCheckZeroesANewCopy`).
- Signatures are checked over the typed form written out again. A reply that leaves out `old_verify_keys`, or
  that says anything more about a key, is rejected although its origin signed exactly what it sent
  (`Decoding.AcceptedAsSentIff`).
- The server signs its own published keys with its expired keys too, but a server of this kind accepts a
  direct reply only if every signature is by a current key. It therefore rejects what another one
  publishes as soon as that one has an expired key, and everything relayed by it
  (`LocalKeys.LocalKeysAreAcceptedIff`, `LocalKeys.ServedKeysAreAcceptedDownstreamIff`).
- The comment on `InvalidateHeld` says that an invalidated record answers nothing. It is never fresh,
  but it still satisfies a caller whose minimum is not positive
  (`ResolutionTheorems.InvalidatedRecordSatisfies`).

## Model

| member | source | states |
|---|---|---|
| Signing.VerifySignatures | signing/verification.go:26-79 | Accepts exactly by the reference verdict, whatever the order of the maps; and what is accepted lists no signature that `verify` does not confirm, under the key of its domain and id, over the canonical form of the object without `unsigned` and `signatures`. |
| Signing.VerdictMeans | signing/verification.go:26-79 | The verdict, both ways: at least one domain is listed, and every signature listed is a string that decodes and is confirmed by `verify` in that way. |
| Signing.SignObject | signing/signing.go:47-102 | Succeeds exactly when `unsigned`, `signatures` and the domain's entry are objects or missing; the result keeps every other signature and `unsigned`; the argument loses both fields. |
| Signing.GetSignatureOfObject | signing/signing.go:104-118 | The signature over the signed part, independent of what signatures the object carries, or nothing when it cannot be signed. |
| Signing.SignedKeepsTheRest | signing/signing.go:54-99 | Signing changes neither the signed part nor any other field, keeps every other signature, and leaves the object signable by whoever could sign it before. |
| Signing.SignedVerifies | signing/signing.go:64-99 | An object all of whose signatures verify still verifies after one more signature, under the ring with the new public key. |
| Signing.MultiSignerRoundTrip | signing/signing.go:47-102 | Signing in sequence under any list of signers gives an object that verifies under all their public keys, with the signed part and `unsigned` untouched. |
| Signing.EverySignerIsPresent | signing/signing.go:76-96 | With distinct (domain, key id) pairs, the signature and public key of every single signer are there at the end: none is overwritten by a later one. |
| Redaction.PruneObject | signing/redaction.go:80-108 | Fails exactly when `type` is no string or a `content` to be read is no object, and otherwise gives the pruned object. |
| Redaction.RedactionKeeps | signing/redaction.go:45-69 | The pruned object has exactly the fifteen allowed fields that the event has, unchanged, but for `content`, which has exactly the fields that its type calls for. |
| Redaction.SignedEventMeans | signing/signing.go:25-45 | A signed event is the redaction with its own `unsigned`, the hash of the event without `unsigned`, `signatures` and `hashes`, and a signature over the canonical form of what is signed. |
| Redaction.RedactObject | signing/redaction.go:37-78 | Redaction by room version 1, with `unsigned` handed back separately. |
| Redaction.CalculateSha256ContentHash | signing/hashing.go:25-46 | The hash of the event without `unsigned`, `signatures` and `hashes`. |
| Redaction.SignEvent | signing/signing.go:25-45 | Signs the redaction with the content hash and `unsigned` put in; succeeds exactly when the event can be redacted and signed. |
| Redaction.SignableSurvivesRedaction | signing/signing.go:25-45 | The object to be signed for an event can be signed by a domain exactly when the event itself can. |
| Redaction.RedactionIsIdempotent | signing/redaction.go:37-108 | A redacted event can be redacted again, to itself. |
| Redaction.RedactionKeepsTheSignedPart | signing/signing.go:25-45 | Redacting the result of signing an event drops nothing that its signatures cover, and no signature. |
| Redaction.SignedEventSurvivesRedaction | signing/signing.go:25-45 | Under any ring a signed event verifies if and only if its redaction does; the signature just made is valid for the redaction. |
| Redaction.ContentHashIgnores | signing/hashing.go:31-35 | Events that agree outside `unsigned`, `signatures` and `hashes` have the same content hash, and signing records it. |
| KeyRecords.ReconstructObject | keys/notary.go:306-321 | The object to be verified is the typed form completed with exactly the fields that it does not know. |
| KeyRecords.GrabPublicKeys | keys/notary.go:496-509 | A ring with the reply's own current keys under its own name and nothing else; fails exactly when one does not decode. |
| KeyRecords.VerifyDirectReply | keys/notary.go:292-326 | Accepts exactly the well-formed replies with decodable keys whose only signing domain is the server itself, with an entry that is not null, and all of whose signatures are valid. |
| KeyRecords.DirectVerdict | keys/notary.go:301-326 | The general signature check under the self-made ring means: signed by the named server alone, all signatures valid. |
| Decoding.ReadAsSentIff | keys/notary.go:287-321 | What the signatures of a reply are checked over is what was sent if and only if the standard fields are all there and hold nothing unknown. |
| Decoding.AcceptedAsSentIff | keys/notary.go:287-326 | A reply that its origin signed as it sent it, with signatures valid for nothing else, is accepted if and only if the standard fields are all there and hold nothing unknown. |
| Decoding.DecodeUndoesWriting | api/api_models/local.go:36-46 | Writing a typed reply out with additional fields and decoding it again gives back both. |
| Decoding.DecodableIff | keys/notary.go:287-291 | A reply decodes if and only if every standard field that is there and not null is of its type, inside and out. |
| KeyRecords.DirectAcceptanceAllowsNoSignature | signing/verification.go:42-60 | A direct reply whose own signature map is empty is accepted. |
| KeyRecords.DropThirdParties | keys/notaryFallback.go:216-224 | Exactly the signatures of target and notary are left, in whatever order the domains are visited. |
| KeyRecords.VerifyNotaryResult | keys/notaryFallback.go:179-236 | Accepts exactly the answers in which origin and notary each signed at least once and all of their signatures are valid over one object; hands back the object with the origin's signatures alone. |
| KeyRecords.NotaryVerdictIgnoresThirdParties | keys/notaryFallback.go:216-233 | Neither the verdict nor what is retained depends on other domains' signatures or on `unsigned`. |
| KeyRecords.RetainedStillVerifies | keys/notaryFallback.go:230-235 | What is retained of an accepted notary answer would be accepted from the origin directly, and carries at least one signature. |
| Refusals.DirectAcceptanceMeans | keys/notary.go:292-326 | What it takes for a direct reply to be accepted, both ways, down to `verify` on every signature of the one domain that may sign. |
| Refusals.NotaryAcceptanceMeans | keys/notaryFallback.go:179-236 | The same for a notary's answer: at least one signature of each of the two, and `verify` on all of them. |
| Refusals.ForgedReplyIsRejected | signing/verification.go:71-74 | A direct reply with one signature by a listed key that `verify` does not confirm is rejected. |
| Refusals.ForgedAnswerIsRejected | signing/verification.go:71-74 | So is a notary's answer, be it the origin's signature or the notary's. |
| Tables.InsertsSucceedIffStorable | keys/notary.go:450-491 | Into emptied tables, the inserts of a reply all succeed if and only if no two of its rows share a key id, for every order of the maps; then the tables hold exactly its rows. |
| Tables.SingleSignerIsStorableIffDisjoint | db/migrations/20190728135345-AddRemoteKeyTables.go:31-36 | For a reply signed by its own server alone, the only way to a duplicate row is a key id both current and old. |
| Tables.StoreMeaning | keys/notary.go:392-494 | A store succeeds unless it has to write a reply that is not storable; one that the upgrade rule turns down changes nothing; one that writes leaves exactly the reply. |
| Tables.StoreWrites | keys/notary.go:392-494 | A direct copy always, and a notary's when nothing is held or it is strictly longer valid, is written with the time of the store, its provenance, current keys without and old keys with their expiry and every signature; a direct copy clears the standoff, a notary's keeps it. |
| Tables.StoreTurnsDown | keys/notary.go:400-413 | A notary's copy no longer valid than what is held changes nothing. |
| Tables.StatementsMean | db/queries.go:57-86 | What a failure note and an invalidation write to each column, also where there was no row. |
| StoreProtocol.RunKeepsBasics | keys/notary.go:337-390 | In every reachable state: the write lock excludes all others, holders and lock fields agree, timestamps lie between zero and the clock, and the standoff columns say whether the last reachability write was a failure. |
| StoreConsistency.SnapshotConsistency | keys/notary.go:331-359 | For every interleaving of stores, loads, invalidations and unlocked failure notes, the finished calls are a run of an atomic record: each load returns validity, provenance, extra fields, keys and signatures of one completed store, zeroed if invalidated since; no insert hits a taken key. |
| Tears.ConsistentIffStorable | keys/notary.go:464-476 | A reply, direct or a notary's, can be stored any number of times, amid any other calls, without a load ever returning a mixture, if and only if its rows have distinct key ids. |
| Tears.UnstorableTears | keys/notary.go:464-476 | On any record at rest, the store of a reply that is not storable, and that the upgrade rule lets through, ends half-way and leaves the rows inserted so far with nothing committed. |
| Tears.TornIsLoaded | keys/notary.go:346-359 | Loading a record at rest that differs from what the completed calls left returns what no atomic run explains. |
| Tears.TearDestroysTheHeldCopy | keys/notary.go:427-476 | On any record at rest that holds a signed copy, storing a reply with a key id both current and old leaves no signature and no row but the reply's, and the next load returns exactly that, which no atomic run explains. |
| EndToEnd.TornRecordIsServedIff | api/keys_v2/query.go:250-267 | Such a record is served, signed by this server alone, if and only if its current keys can be read, as they can whenever the reply's old keys are expired, and it can be signed. |
| StoreConsistency.StandoffIffLastProbeFailed | db/queries.go:63-80 | In every reachable state, torn ones included, a next attempt is scheduled exactly when failures are counted, exactly when the last reachability write was a failure. |
| StoreConsistency.OnlyProbesTouchTheStandoff | db/queries.go:53-57 | Every step but a failure note and the reset of a direct store leaves both reachability columns as they are: a notary store cannot wipe a standoff. |
| Reachability.ReachabilityIsAtomic | db/queries.go:57-80 | In every interleaving of statements, torn stores and unlocked notes included, failure count and next attempt are those that the run's notes and resets leave one after another. |
| Reachability.BudgetUnderConcurrency | keys/notary.go:240-262 | The probe budget for every interleaving of statements in which probes are due when they read the record and are noted in turn. |
| FastPath.RecordsWithoutKeys | db/queries.go:88-92 | In every reachable state, torn ones included, a record that no store is rewriting and that has no keys has no validity and did not come from a notary; so has every record ever returned. |
| FastPath.FastPathIsSound | keys/notary.go:161-165 | In every reachable state, torn ones included, a loaded record that is fresh carries keys, meets the minimum, is unexpired, and has as much validity ahead as has passed since its update. |
| StoreConsistency.SomeCallCanAdvance | keys/notary.go:339-350 | No deadlock: while any call is in progress, some call can take a step. |
| StoreConsistency.Locality | keys/notary.go:337-342 | What one server sees of a run over many servers is a run of its own. |
| StoreConsistency.ReservoirIsConsistent | keys/notary.go:331-359 | Snapshot consistency for any number of servers at once. |
| Schedule.OriginBackoff | keys/notary.go:54-84 | Between a minute and a day, and a full day from the fifth failure on, whatever the kinds of failure. |
| Schedule.BackoffClimbs | keys/notary.go:54-84 | More failures never wait less; a transient one never waits longer than a hard one, a minute for the first two and just as long from the third on; and the value of every rung. |
| Schedule.FreshIff | keys/notary.go:121-127 | What freshness computes, 64-bit overflow and truncation included, means: minimum met, updated within seven days, at least as much validity ahead as time has passed. |
| Schedule.FreshIsUnexpired | keys/notary.go:121-127 | A fresh record is unexpired and meets the minimum. |
| NotaryWalks.WalkSchedule.Take | keys/notaryWalks.go:40-55 | Grants exactly when the last grant for the server is a cooldown old, and records it; refusals change nothing; other entries stay, unless the map had reached 10,000 entries, and then exactly the expired ones go. |
| NotaryWalks.PruningIsInvisible | keys/notaryWalks.go:40-55 | Under a clock that does not go back, every answer is that of a schedule that never forgets, and every live entry is still there. |
| NotaryWalks.GrantsAreSpaced | keys/notaryWalks.go:43-45 | Two grants for one server are at least a cooldown apart. |
| NotaryWalks.GrantsInAWindow | keys/notaryWalks.go:43-45 | A window of length W holds at most W / cooldown + 1 grants for one server. |
| NotaryWalks.SizeIsBounded | keys/notaryWalks.go:46-53 | Once past the prune size, every entry was live at the last prune or granted since, so the map is no larger than the number of recent grants. |
| Events.ReachabilityOf | db/queries.go:57-86 | What each event does to the reachability columns: a failed probe sets both, a direct store clears both, even one that stops half-way, and nothing else touches them. |
| Events.NotesAndInvalidationsMean | db/queries.go:57-86 | What the note of a failure and an invalidation write to the row of a record, known or not; neither touches keys or signatures. |
| Budget.ProbeBudget | keys/notary.go:240-262 | The due probes of one origin that fail within any window, each noted before the next begins, number at most five plus one per full day, times one more than the number of successes and of direct stores under its name that are not its own failing probe's: for every mix of transient failures, hard failures, misnamed replies and accepted replies whose store stops half-way, whatever else is stored. |
| Budget.ForeignStoresVoidTheBudget | keys/notary.go:436-448 | With direct stores under its name from elsewhere that stop half-way, and without a single success, any number of due probes noted in turn fails within one millisecond. |
| Budget.OverlapVoidsTheBudget | keys/notary.go:168-177 | With probes that read the record before the first failure is noted, and without any direct store, any number of due probes fails within one millisecond. |
| Events.StandoffAgreesThroughout | db/queries.go:63-80 | Failure count and next attempt are positive together after any run of events. |
| Events.BestCopyIsKept | keys/notary.go:400-413 | Through any sequence of verified notary offers and failed probes, the record holds its prior copy or the first offer to reach the maximum validity. |
| Events.BestDominates | keys/notary.go:400-413 | The copy held is at least as long valid as the prior one and every offer. |
| Events.RevivalCosts | keys/notary.go:121-127 | A failed probe that makes a stale record fresh again follows more than seven days, or the loss of more than half of the validity that lay ahead, and never reaches past the expiry. |
| Events.RevivalsAreBounded | db/queries.go:63-66 | Until the copy is replaced or invalidated, the revivals of a record are bounded by a potential of the validity it started with. |
| Events.InvalidatedStaysStale | keys/notary.go:361-370 | Once invalidated, a record stays without validity and never fresh through any number of failed probes and worthless offers. |
| Events.FirstUsableCopyReplaces | keys/notary.go:408-413 | An invalidated record is replaced by any direct copy, and by exactly those notary copies that have positive validity. |
| Worlds.RunStepsOnOneServer | keys/notary.go:337-342 | What a run over many servers does to one of them is what its own events do. |
| Worlds.StepsDueOnOneServer | keys/notary.go:337-342 | Due probes of a run over many servers are due probes of the server concerned. |
| Runs.ResolveRuns | keys/notary.go:154-230 | Whatever others do in between, a resolution is a run of store attempts and probes of its own and of their steps; with positive clocks each of its probes begins when it is due. |
| ResolutionTheorems.BoundedWorkAndAResult | keys/notary.go:154-230 | One query with N notaries makes at most N + 1 origin fetches and N notary queries, asks for no server but the target and the notaries, and always has a result. |
| Decisions.FreshIsAnsweredAtOnce | keys/notary.go:161-165 | A fresh record is the answer, field by field; nobody is contacted and nothing changes. |
| Decisions.OriginIsAskedInItsTurn | keys/notary.go:167-177 | The origin is asked, and first, exactly when nothing fresh is held and the server is unknown or its next attempt has come; without notaries nobody else is. |
| Decisions.NobodyElseIsAsked | keys/notary.go:185 | When notaries may not be asked, or what is held has keys that are valid for long enough, no notary is asked and no notary's word stored. |
| Decisions.LastResort | keys/notary.go:204-230 | When the origin gives nothing and no notary's word is taken, for whatever reason, the answer is what was held at first, expired or not; after a probe in vain of a server without keys it is an empty answer of that moment. |
| Notaries.QueryAsksNotaries | keys/notary.go:185-191 | When neither what is held nor the origin answers, probed just now or not, and no walk was started within the cooldown: the first notary with keys of its own at hand, after others that are passed over or fail, is asked about the server. |
| Notaries.QueryTakesANotarysWord | keys/notary.go:185-203 | If its first entry about the server is accepted, storable, longer valid than what is held and valid for long enough, the query ends there: that entry, with its origin's signatures and under that notary's name, is the answer and what is held. |
| Notaries.NoWalkWithinTheCooldown | keys/notary.go:185 | Within the cooldown of the last walk for a server no query asks a notary about it, whoever else starts walks meanwhile. |
| Notaries.QueryNames | keys/notaryFallback.go:146-172 | Every own store of a query is of a direct reply, or of an entry about the server in the answer of the very notary under whose name it is stored and which was asked. |
| Notaries.NotaryIsBelieved | keys/notaryFallback.go:101-172 | One notary with its own keys at hand: it alone is contacted, and its first entry about the target, if good and better than what is held, is stored as its word and returned. |
| Notaries.NotaryIsOutdone | keys/notary.go:400-413 | If it is good but no better, what is held stays and is returned. |
| Notaries.NotaryHasNothing | keys/notaryFallback.go:126-160 | A notary that fails or has no usable entry about the target changes nothing. |
| Notaries.NotaryIsNotBelieved | keys/notaryFallback.go:157-172 | Nor does one whose first entry about the target is not accepted. |
| Notaries.NotaryWithoutKeysIsNotAsked | keys/notaryFallback.go:106-116 | A notary of which no keys are held, or one that does not decode, is not asked. |
| Decisions.QueryDominatesOffers | keys/notaryFallback.go:79-96 | Unless the origin answers, a query returns a copy at least as long valid as every notary's that it could store. |
| Notaries.WalkChooses | keys/notaryFallback.go:79-96 | Of the copies that the notaries give in order, up to the first valid for long enough, a walk returns that one, or else the first of the longest-valid ones. |
| ResolutionTheorems.WalkKeepsTheBest | keys/notaryFallback.go:62-96 | Whatever verified offers and probes others add between its steps: after a walk the record holds the maximum of what was held and of all offers, the first to reach it; the walk returns a copy exactly when it made an offer, and that copy was held during the walk, dominates the prior one and each offer of the walk, and is at most the final record. |
| ResolutionTheorems.WalkReturnsTheRecord | keys/notaryFallback.go:62-96 | When nobody else makes offers for the target, the walk returns exactly what is held in the end; without an offer the record is unchanged. |
| ResolutionTheorems.QueryReturnsAHeldCopy | keys/notary.go:161-230 | A query about a server with keys on record that the origin does not answer returns a copy that the record held at some moment of the query, whatever others offer meanwhile. |
| ResolutionTheorems.QueryNeverDowngrades | keys/notary.go:185-216 | Whatever verified offers and probes others add between its steps: a query that the origin does not answer never loses keys, and its answer is at least as long-valid as what was held before and at most as what is held after. |
| ResolutionTheorems.OriginAnswerIsServed | keys/notary.go:169-177 | When the origin is asked and its reply is accepted, storable and names it, the answer is that reply, it is what is stored, and the standoff is cleared, whatever others do meanwhile. |
| ResolutionTheorems.AcceptedReplyTakesOver | keys/notary.go:392-448 | An accepted and storable reply replaces the record of the server that it names, whichever server was asked, and clears that one's standoff. |
| Provenance.ProbeStoresWhatIsNamed | keys/notary.go:301-328 | A probe writes records directly of exactly the servers that an accepted answer names. |
| Provenance.QueryStoresWhatIsNamed | keys/notary.go:154-230 | A query writes records directly of exactly the servers that accepted answers name, whichever origins gave them. |
| ResolutionTheorems.InvalidatedRecordSatisfies | keys/notary.go:361-370 | An invalidated record satisfies a caller if and only if it has keys and the minimum is not positive. |
| KeyReservoir.Reservoir.constructor | keys/notaryWalks.go:30-32 | A new reservoir knows no server and has started no walk. |
| KeyReservoir.Reservoir.Insert | keys/notary.go:457-460 | One insert; it fails, and changes nothing, exactly when the key is taken. |
| KeyReservoir.Reservoir.InsertKeys | keys/notary.go:450-476 | The inserts of one map of keys, up to the first that fails. |
| KeyReservoir.Reservoir.InsertSignatures | keys/notary.go:478-491 | The inserts of the signatures, up to the first that fails. |
| KeyReservoir.Reservoir.ClearFor | keys/notary.go:427-448 | Upsert, both deletes, and the reset for a direct reply, statement by statement, leave the tables as a whole store starts its inserts from. |
| KeyReservoir.Reservoir.StoreRemoteKeys | keys/notary.go:392-494 | The whole store, the upgrade rule and the half-written record of a failing insert included; no other server's record changes. |
| KeyReservoir.Reservoir.InvalidateHeld | keys/notary.go:365-370 | Zeroes validity and update time of one record and nothing else. |
| KeyReservoir.Reservoir.FetchDirectFromOrigin | keys/notary.go:267-329 | One origin fetch: what it changes, whom it contacts, and whether it succeeds. |
| KeyReservoir.Reservoir.ProbeOrigin | keys/notary.go:240-262 | A failed fetch is noted, with the count and clock from before it and the next attempt scheduled; a successful one is stored. |
| Decisions.FailedProbeIsNoted | keys/notary.go:240-262 | A probe contacts the origin once and fails exactly if the origin fails or its reply is not accepted or cannot be stored; then the count is one more than was seen, and the next attempt a minute away after a first or second failure by a 5xx, and otherwise 5 or 15 minutes, 1, 6 or 24 hours by the count. |
| KeyReservoir.Reservoir.QueryRemoteKeys | keys/notary.go:154-230 | New tables, new walk schedule, contacts and answer are those of the resolution function, with others running between the method's own steps. |
| KeyReservoir.Reservoir.ProbeWhenDue | keys/notary.go:169-177 | The origin is probed exactly when its standoff has run out. |
| KeyReservoir.Reservoir.AnswerWithoutOrigin | keys/notary.go:185-230 | Walk if what is held does not satisfy and one is granted, then the best copy, or an empty answer after a probe in vain. |
| KeyReservoir.Reservoir.QueryViaTrustedNotaries | keys/notaryFallback.go:62-96 | The loop over the notaries has the outcome of the recursive walk, others' steps between any two visits included. |
| KeyReservoir.Reservoir.QueryOneNotary | keys/notaryFallback.go:101-161 | Resolves the notary's own keys without any notary, lets others run, then asks it, checks and stores. |
| KeyReservoir.Reservoir.DecodeNotaryKeys | keys/notaryFallback.go:247-257 | All of a notary's keys, expired ones included, decoded; fails exactly when one does not decode. |
| KeyReservoir.Reservoir.FindEntry | keys/notaryFallback.go:146-158 | The first entry that decodes, is well-formed and names the target. |
| OriginSweeper.OriginProbeCandidates | db/queries.go:73-77 | The servers with a next attempt that has come, in the order of those, each once and at most 25; one is left out only if there are 25, none of them later. |
| OriginSweeper.SweepOriginsOnce | keys/originSweeper.go:64-100 | Each candidate's record is read again and probed only if still due; tables, contacts and both counts are those of the sweep function, whatever others do in between. |
| OriginSweeper.SweepOrigin | keys/originSweeper.go:79-94 | One candidate's turn. |
| SweeperTheorems.ProbeTakesOffTheListIff | keys/notary.go:240-262 | A probe takes its server off the due list, whether it succeeds or fails, whatever others do meanwhile that does not schedule into the past, unless and only unless the reply is good and names another server. |
| SweeperTheorems.SweepTakesABatch | keys/originSweeper.go:64-100 | With m origins that may answer as they like: after one sweep any other due server has had its turn, or at least 25 - m servers due no later have; nobody enters the list. |
| SweeperTheorems.AttemptsAreFetches | keys/originSweeper.go:75-94 | One sweep contacts exactly as many origins as it counts attempts, listed ones only and none twice; recoveries are among the attempts. |
| SweeperTheorems.TurnMeans | keys/originSweeper.go:75-94 | A candidate is asked, once, exactly if it is still due when it is read again; it counts as recovered exactly if its origin gave keys. |
| SweeperTheorems.RecoveriesGaveKeys | keys/originSweeper.go:89-94 | A sweep counts as recovered exactly the origins asked that gave keys. |
| SweeperTheorems.NoStarvation | keys/originSweeper.go:64-100 | With any m < 25 origins that may answer under other names: a due origin with k others due no later has a probe end, by the note of a failure or a direct store, within k / (25 - m) + 1 sweeps, whatever runs before, between and inside them, as long as no failure is noted after the moment it schedules the next probe for. |
| SweeperTheorems.QuietTickIsFair | keys/originSweeper.go:64-100 | A sweep that nothing disturbs and that no origin answers meets the hypotheses of the theorem, from every site. |
| Starvation.MisnamedRepliesStarve | keys/originSweeper.go:64-100 | An origin due strictly later than 25 others that all answer under the names of servers not due is never probed by any number of undisturbed sweeps, however ties are broken: no event of its record occurs. |
| Starvation.StarvationIffABatch | keys/originSweeper.go:64-100 | If the origins due strictly before a given one answer as they like, that one can be left unprobed by any number of sweeps that are fair to all others if and only if they number at least 25. |
| SweeperTheorems.TicksRun | keys/originSweeper.go:64-100 | Any number of sweeps, with anything in between, is a run in which the sweeper's probes begin when they are due. |
| SweeperTheorems.ProbeBudgetOfTheSystem | keys/originSweeper.go:64-100 | The probe budget over any number of sweeps with any due steps of others before, between and inside them, for a server whose failures are noted in turn. |
| SweeperTheorems.SweepStoresWhatIsNamed | keys/originSweeper.go:64-100 | A sweep writes records directly of exactly the servers that accepted answers name. |
| Serving.RebuildKeys | api/keys_v2/query.go:184-201 | Splits the stored keys by positive expiry, and decodes the current ones. |
| Serving.SignWithOwnKeys | api/keys_v2/query.go:228-243 | A signature and public key for each of our own keys; fails exactly when one does not load or the object cannot be signed. |
| Serving.PrepareKeys | api/keys_v2/query.go:158-267 | Empty answer, wrong name, unreadable keys, failed signing, failed check, or the signed object: which one, and exactly what object. |
| Outcomes.ServedShowsTheRecord | api/keys_v2/query.go:177-267 | What is served shows exactly the record: name, validity, current and old keys by expiry, additional fields, the stored signatures, and one of ours for every own key, over the canonical form of the rest. |
| Outcomes.OutcomeMeans | api/keys_v2/query.go:152-267 | Which outcome a record meets, by the first condition that fails; it is served exactly if its current keys and ours can be read, it can be signed, and `verify` confirms every stored signature under a current key. |
| Outcomes.ForgedRecordIsNotServed | api/keys_v2/query.go:250-267 | A record with one stored signature that `verify` does not confirm over the object to be served is not served. |
| Outcomes.OwnNameMeans | api/keys_v2/query.go:222-248 | About ourselves, our signatures and the stored ones are shown under our one name, the stored ones counting. |
| Serving.FindAndPrepareKeys | api/keys_v2/query.go:152-267 | The answer to one lookup; the record is invalidated, after whatever others did, exactly when the last check fails, and otherwise is as the resolution left it. |
| Outcomes.AnswerMeans | api/keys_v2/query.go:152-267 | Nothing found is a refusal, and otherwise the outcome is that of what was found; a failed last check zeroes validity and update time of that server's record as it is by then, and nothing else ever changes. |
| ServingTheorems.KeyRowsSplitIff | api/keys_v2/query.go:184-201 | Key rows split back into the maps they came from if and only if every old key has a positive expiry. |
| ServingTheorems.RebuildsTheSignedPartIff | api/keys_v2/query.go:177-220 | A stored reply is put back together to exactly what was signed if and only if `old_verify_keys` is present with positive expiries. |
| ServingTheorems.OwnSignaturesVerify | api/keys_v2/query.go:228-243 | Our own signatures verify under our own public keys. |
| ServingTheorems.HeldReplyIsServedIff | api/keys_v2/query.go:152-267 | A held accepted reply is served with its signed part and its origin's signatures unchanged if and only if `old_verify_keys` is present with positive expiries and, unless there is nothing to sign with, `unsigned` is missing or an object. |
| ServingTheorems.DirectReplyRoundTripIff | keys/notary.go:267-329 | An accepted direct reply is stored whole and served unchanged, whatever was stored before, if and only if no key id is both current and old and the condition for held replies is met. |
| ServingTheorems.NotaryReplyRoundTripIff | keys/notaryFallback.go:166-236 | The same if and only if for a notary's accepted answer that the upgrade rule lets through. |
| ServingTheorems.ServesOnlyWhatVerifies | api/keys_v2/query.go:250-267 | Whatever is served with keys names the server asked about and passed the check under exactly the keys that its own `verify_keys` lists, and ours. |
| ServingTheorems.InvalidationChangesTheSignedPartIff | db/queries.go:84-86 | An invalidated record is no longer what was signed, unless its validity was zero. |
| ServingTheorems.FailedCheckClearsTheWay | api/keys_v2/query.go:252-265 | A record that fails the last check is replaced by the next direct copy or notary copy with positive validity that can be stored, however long-lived it claimed to be; no other answer changes any record. |
| ServingTheorems.FailedCheckZeroesANewCopy | api/keys_v2/query.go:252-265 | A direct copy that somebody stores between the load and the invalidation loses its validity and is not fresh, whatever it is. |
| ServingTheorems.UnsignedRecordIsServedIff | api/keys_v2/query.go:250-267 | A record without any signature of its origin always passes the last check: it is served, signed by this server alone, if and only if its current keys can be read and it can be signed. |
| EndToEnd.EveryLoadIsServedIff | api/keys_v2/query.go:152-267 | In every interleaving of stores of accepted and storable replies with loads, invalidations and failure notes, a load that returns after a completed store and no invalidation since is served with the signed part and origin signatures of the last reply stored if and only if that reply is serviceable. |
| LocalKeys.SplitOwnKeys | api/keys_v2/local.go:46-57 | The published current and expired keys are those without and with a positive expiry. |
| LocalKeys.GetLocalKeys | api/keys_v2/local.go:32-83 | The published object, signed with every own key; fails exactly when one does not load. |
| Outcomes.PublishedMeans | api/keys_v2/local.go:32-83 | The published object is valid for 86,400,000 ms, lists as current exactly the keys without and as old exactly those with a positive expiry, and has one signature for each key, over the canonical form of the rest. |
| LocalKeys.LocalKeysAreAcceptedIff | api/keys_v2/local.go:32-83 | The published object passes the direct check of another server of this kind if and only if there is a key and none has expired. |
| LocalKeys.PublishedKeysAreHeld | keys/notaryFallback.go:238-257 | Whoever stores the published object and decodes it as a notary's keys, expired ones included, holds every public key that ever signed. |
| LocalKeys.ServedKeysAreAcceptedDownstreamIff | keys/notaryFallback.go:166-236 | What this server serves about another is accepted by a receiver that fetches its published keys and trusts it as a notary if and only if this server has a key and none expired, and the origin signed at least once; what the receiver keeps is the reply as the origin signed it. |
| LocalKeys.PublishedKeysAreServedIff | api/keys_v2/query.go:152-267 | What a server of this kind publishes is accepted, stored and served again with its signed part and signatures unchanged if and only if that server has a key and none has expired. |
| BatchQuery.EffectiveMinimum | api/keys_v2/query.go:101-109 | Now when no minimum asked for is positive, and otherwise the greatest one asked for. |
| BatchQuery.Flatten | api/keys_v2/query.go:99-111 | One item for each domain, with its effective minimum by the clock reading made for it, in any order. |
| BatchQuery.MinimumDominates | api/keys_v2/query.go:101-109 | With positive clocks, each domain's minimum is at least every minimum asked for in it. |
| BatchQuery.Collect | api/keys_v2/query.go:140-147 | The answer is taken, in item order and each once, from exactly those results that are objects. |
| BatchQuery.RunKeepsInvariant | api/keys_v2/query.go:122-134 | In every reachable state the semaphore counts the goroutines that hold it, the wait group those not yet done, and a slot is written exactly when its goroutine is past the write. |
| BatchQuery.AtMostEightInFlight | api/keys_v2/query.go:122-134 | For every schedule, at most eight lookups are in flight. |
| BatchQuery.SomeActionIsEnabled | api/keys_v2/query.go:122-134 | Until the batch is answered, something can always move. |
| BatchQuery.EveryRunEnds | api/keys_v2/query.go:122-134 | No schedule is longer than five actions an item and one more, and every one that answers is exactly that long. |
| BatchQuery.SlotsAreWrittenOnce | api/keys_v2/query.go:124-133 | No slot is written twice, and a slot holds what was written to it. |
| BatchQuery.EverySlotIsWritten | api/keys_v2/query.go:124-134 | When the batch is answered, every slot has been written. |
| BatchQuery.BatchIsSequential | api/keys_v2/query.go:122-149 | However the goroutines are scheduled, the answer is that of resolving the items one after another, in item order, with the same results. |
| BatchQuery.BatchAnswers | api/keys_v2/query.go:122-149 | Of an answered batch, however scheduled: each item's lookup returned one result, and the answer is taken, in item order and each once, from exactly those that are objects. |
| Witnesses.SelfSignedIsAccepted | keys/notary.go:292-326 | A reply with one current key and one signature by it, sent as JSON, decodes to itself and passes the direct check, whatever its old keys and additional fields. |
| Witnesses.AcceptedButNotStorable | keys/notary.go:464-476 | A signed and accepted reply that lists one key as current and as old, which no store can write. |
| Witnesses.VouchedForButNotStorable | keys/notaryFallback.go:179-236 | The same from a notary: signed by origin and notary, accepted, and what is retained of it cannot be written. |
| Witnesses.AcceptedButNotRebuildable | api/keys_v2/query.go:184-201 | Accepted and storable replies with null old keys, and with an old key without an expiry. |
| Witnesses.AcceptedButNotSignable | signing/signing.go:47-60 | An accepted and storable reply whose old keys come back and whose `unsigned` is null. |
| Witnesses.MisnamedAnswersExist | keys/notary.go:301-328 | For every server that is not due, a signed, accepted and storable answer under its name. |
| Witnesses.StarvationHappens | keys/originSweeper.go:64-100 | A site with n origins due before another one, and an answer for them, at which that one can be starved for ever if and only if n is at least 25. |

## Left out

- Federation: discovery, HTTP, TLS and reply size limits; an origin or a notary is an arbitrary answer.
- Canonical JSON, base64, Ed25519, SHA-256 and key generation are abstract; a JSON number is an integer, and field names are matched exactly, where Go would also take one that differs in case only.
- Database failures other than a taken primary key, connection handling and migrations; the foreign keys are met because the upsert comes first.
- Part of the arguments a batch request can carry: a body that is not JSON, and the single-server endpoint's parsing of its query string.
- The minimum that a notary is sent along with a query about a server (`keys/notaryFallback.go:123-124`): what a notary answers is arbitrary anyway.
- Our own keys are a list; generating and caching the active one (`keys/self.go:43-104`) is not modelled. All own keys sign, the expired ones too, as in the code.
- `isArchived`, metric labels, logging, health and version endpoints, and the count of known servers.
- The `X-Matrix` header parsing in `api/custom/verify.go`.
- Rate limiting and probing by several processes that share one database; locks are those of one process.
- Below the level of whole steps, `StoreConsistency` covers one server's calls only: a failure note is not locked, nor is the sweeper's reading of a record, so a note that lands inside a store can leave its own `updated_ts`; a snapshot is therefore validity, provenance, additional fields, keys and signatures, without `updated_ts`, and the reachability columns have theorems of their own (`Reachability`).
- Provenance.QueryStoresWhatIsNamed: states whose record is written, not that the writer was entitled to it; the code does not check that.
- Signing.SignObject: what is left of the argument when a type assertion panics half-way is not stated, because no caller sees it.
- ResolutionTheorems.WalkKeepsTheBest: states nothing for a record that a direct store or an invalidation changes during the walk, because then the maximum is not what is promised.
