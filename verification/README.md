# AirBridge: a verified model of the cargo handoff

AirBridge moves air cargo from draft to departure. Its service calls read the store, decide, and write in a separate
critical section; only version numbers tie the two together. This project models the store, the service calls and the
smaller engines around them, and proves what holds over every interleaving, every run and every input.

How the model is built:

- A store or engine is a class whose methods update its maps as the program does. Each method is proved equal to a
  function on the map contents, and the theorems are about those functions, over whole runs.
- A service call is also a small program (`Handoff.Call`, `Identity.Call`): one step per store call, carrying what it
  has read. A run interleaves any number of such programs. `Application.Service` and `Identity.Service` are the calls
  as ordinary methods, proved to do what their programs do when nothing comes in between (`Solo`); `Outcomes` and
  `IdentityOutcomes` say in plain terms what that is, exactly when each succeeds and which error it answers otherwise.
- Clocks, random ids and tokens, password comparison, the outcome of publishing or handling an item, and whether a
  context is cancelled are arguments. Where a Go map is ranged over, the order is arbitrary.
- Weights are 64-bit and additions wrap (`Int64`). Instants and durations are integers of nanoseconds.
- Statuses and roles are open strings, so each has a case for any other text.

Several properties one might expect of the code do not hold as such; each is stated with an input at which it fails and
the exact condition under which it holds:

- A leg can be overbooked when the 64-bit sum in the capacity check overflows (`Domain.CapacityCheckOverflows`,
  `CapacityConservation.GrantOverbooks`); it never is if and only if no granted sum overflows
  (`CapacityConservation.NeverOverbookedExactlyWithoutOverflow`). Warehouse slots and the booking ledger overflow in the
  same way, and lose count when a live id is reused (`OverflowAccepted`, `ReusedIdAccepted`, `UsedSlotAccepted` and
  `OverwriteAccepted` there); `Warehouse.ExactExactlyWhenClean` and `BookingLedger.ExactExactlyWhenClean` are exact.
- A creation that names a leg puts weight on it that was never reserved, and booking such a draft does not mend it
  (`CapacityConservation.CreationUnbalances`, `RebookingUnbalances`); the books balance at every moment if and only if
  neither happens (`CapacityConservation.CapacityConserved`).
- A shipment can be loaded at a moment when its security check stands as failed. On a leg, that takes a filing between
  the gate's reads and the write (`Compliance.GateCanCloseBeforeTheWrite`): customs and security are in order at the
  write if and only if the last statuses filed since they were read, if any, are (`Compliance.LoadedInOrderExactly`,
  and likewise atomicity, `Compliance.GatedTransitionIsAtomicExactly`). Without a leg nothing is read at all
  (`Compliance.LoadedWithoutALeg`). What every run does guarantee is `Compliance.ComplianceGate`.
- A released customs case can become held, which its status graph does not allow: when another filing comes between a
  filing's lookup and its write (`CaseGraph.ReleasedCaseCanBeHeld`), or by one filing alone, even by another tenant,
  since the case is checked under the shipment's id and written under its own (`CaseGraph.StrangerHoldsReleasedCase`).
  The edge taken is legal if and only if the last status filed under the case's id since the lookup allows it or, when
  there is none, the ids agree or the edge was legal then (`CaseGraph.EdgeIsLegalExactly`,
  `CaseGraph.CasesFollowGraphExactly`; `CaseGraph.TidyCasesFollowGraph` is the safe discipline).
- A passed security check can fail (`CaseGraph.PassedCheckCanFail`): nothing consults that graph, so the edge is legal
  if and only if it is legal from the status last filed (`CaseGraph.SecurityEdgeExactly`).
- A creation that lost the race for its key is refused instead of answered with the winner's shipment, or, with the
  same id, answered with a record that is not stored (`IdempotencyIndex.LostRaceIsAConflict`,
  `RepeatIsAnsweredButNotStored`). It is atomic, and a successful answer is the stored record, if and only if its key
  is not taken by then, unless by this very record (`Atomicity.CreationIsAtomicExactly`,
  `IdempotencyIndex.CreationExactlySince`).
- Two tenants can share an entry of an idempotency map if and only if one name extends the other across a `|`
  (`JoinedKey.CollisionExactlyWhenExtending`), so a lookup or a replay can answer with another tenant's record
  (`IdempotencyIndex.CollidingLookup`, `IdempotencyStore.ReplayOfAnotherTenant`), if and only if the two names are not
  separable (`IdempotencyIndex.LookupAgreesWithScan`, `IdempotencyStore.AnswersAreExplained`).
- A cleanup is visible to `Complete` (`IdempotencyStore.SweptBeforeCompletion`), if and only if it came a day or more
  after the latest fresh admission under the key (`IdempotencyStore.CompleteSeesSweep`).
- A migration body can run after a later one (`Migration.GapRunsOutOfOrder`), if and only if it was missing when the
  later one was already recorded at the start (`Migration.LateExactlyOverAGap`, `Migration.InOrderExactlyWithoutAGap`).
- A token is granted although its session has been revoked (`IdentityRaces.RevokedTokenIsGranted`), if and only if the
  lookup came before and the user is still active (`IdentityRaces.PastItsLookup`, `Identity.RevocationIsFinal`).
- A deactivated id can become active again (`IdentityRaces.CreationRevives`), if and only if an active user is created
  under it (`Identity.BarredExactlyUntilRevived`).
- Two coordinators can deactivate each other, and a login can be answered after its user's deactivation
  (`IdentityRaces.MutualDeactivation`, `LoginAfterDeactivation`); both calls have their exact condition
  (`IdentityRaces.DeactivationIsAtomicExactly`, `LoginIsAtomicExactly`).

Files, by component: `Domain`, `Int64`, `Clock`, `Totals`, `Strings`, `JoinedKey` (foundations); `CargoStore`,
`Handoff`, `Application`, `Outcomes`, `Authority` (store and service); `Atomicity`, `Lockstep`, `Compliance`,
`CaseGraph`, `CapacityConservation`, `IdempotencyIndex` (what holds of every run of the service); `Identity`,
`IdentityOutcomes`, `IdentityRaces`; `Outbox`, `OutboxRetry`; `Migration`; `Bulk`; `Warehouse`; `BookingLedger`;
`RateLimit`; `IdempotencyStore`; `Route`; `Labels`.

## Model

| member | source | states |
|---|---|---|
| Atomicity.NoAba | internal/repository/memory/store.go:115-158 | in every interleaving of any number of calls, two moments at which a shipment carries the same version show the same whole record |
| Atomicity.VersionPinsRecord | internal/repository/memory/store.go:145-158 | versions never go back, and while a version stands still the record is constant at every moment in between |
| Atomicity.NoLegAba | internal/repository/memory/store.go:203-271 | two moments at which a leg carries the same version show the same whole leg |
| Atomicity.CommittedChangeIsLegal | internal/service/application.go:160-184 | every change to a stored shipment is one status edge from the record stored at commit time, one version up, with all other fields kept and the leg set only by a booking |
| Atomicity.BookingIsAtomic | internal/service/application.go:136-159 | a booking that succeeds after three separate store calls has the effect and reply of the whole call run alone at its last step |
| Atomicity.TransitionIsAtomicExactly | internal/service/application.go:160-184 | a committed transition found the record it had checked, and equals the whole call run alone at the write if and only if the compliance gate, when there is one, is still open then |
| Atomicity.OpeningIsAtomic | internal/service/application.go:203-217 | an opening that succeeds has the effect and reply of the whole call run alone at its write, and answers with the leg as stored |
| Atomicity.FilingIsAtomicExactly | internal/service/application.go:219-236 | a customs filing, which checks no version, equals the whole call run alone at its write if and only if the edge from the case on file is legal then |
| Atomicity.SecurityFilingIsAtomic | internal/service/application.go:237-254 | a security filing always equals the whole call run alone at its write |
| Atomicity.CreationIsAtomicExactly | internal/service/application.go:98-126 | a keyed creation equals the whole call run alone at its write if and only if its key is not taken by then, unless by this very record |
| Lockstep.LockstepAlways | internal/domain/rules.go:5-14 | at every moment of every run a shipment's version is one plus its status's rank on the main line, and 2 to 5 when cancelled |
| Lockstep.VersionCountsChanges | internal/repository/memory/store.go:145-158 | a shipment's version is its first version plus the number of steps that changed it; the only booking is the change from version 1 |
| Lockstep.AtMostFiveChanges | internal/repository/memory/store.go:239-271 | no run changes a shipment more than five times or books it more than once |
| Lockstep.EdgesClimb | internal/domain/rules.go:5-14 | the status graph is exactly one step up the line, or a cancellation before loading |
| Compliance.ComplianceGate | internal/service/application.go:171-177 | whenever a shipment on a leg becomes loaded or departed, an earlier moment showed customs released and a later one security passed, with the record unchanged from then until this change |
| Compliance.LoadedInOrderExactly | internal/service/application.go:160-184 | whenever a shipment becomes loaded or departed: on a leg, customs and security stand in order at that very moment if and only if the last customs status filed under its id since the call read it, if any, is released and the last security status, likewise, is passed; without a leg, the call has read neither |
| Compliance.GatedTransitionIsAtomicExactly | internal/service/application.go:160-184 | a gated transition that commits has read customs and security at two earlier steps, and equals the whole call run alone at its write if and only if the last customs status filed under the shipment's id since the first, if any, is released and the last security status filed since the second, if any, is passed |
| Compliance.FilingIsAtomicExactlySince | internal/service/application.go:219-236 | a customs filing equals the whole call run alone at its write if and only if the last status filed under the shipment's id since it read the case, if any, allows its edge |
| Compliance.OnlyTransitionsLoad | internal/service/application.go:160-184 | only the write of a transition that read this very record makes a shipment loaded or departed |
| Compliance.GateCanCloseBeforeTheWrite | internal/service/application.go:237-254 | a concrete run in which a shipment is loaded while its security check stands as failed |
| Compliance.LoadedWithoutALeg | internal/service/application.go:171-177 | a concrete run of one lone transition that loads a shipment without a leg while its security check stands as failed |
| CaseGraph.ReleasedCaseCanBeHeld | internal/service/application.go:219-236 | a concrete run in which a released case becomes held, an edge the graph does not have, because the filing had read the case under review |
| CaseGraph.EdgeIsLegalExactly | internal/service/application.go:219-236 | the edge a filing takes in the case it replaces is legal if and only if the last status filed under that id since its lookup allows it or, when there is none, the case's id is its shipment's or the edge was legal at the lookup |
| CaseGraph.CasesFollowGraphExactly | internal/domain/rules.go:21-23 | over every run, all filings take legal edges if and only if each one keeps to that condition |
| CaseGraph.TidyCasesFollowGraph | internal/service/application.go:219-236 | in every run in which filings carry their shipment's id and none is overtaken, every case follows the status graph and is filed by coordinators of its shipment's tenant only |
| CaseGraph.FilerOwnsShipment | internal/service/application.go:219-236 | whoever files a case started the call as a coordinator of the tenant of the shipment it names |
| CaseGraph.StrangerHoldsReleasedCase | internal/repository/memory/store.go:272-286 | a concrete run of one lone filing by another tenant's coordinator that moves a released case to held |
| CaseGraph.SecurityEdgeExactly | internal/domain/rules.go:24-26 | a security filing always takes effect, and takes an edge outside the graph if and only if the last status filed under its id, or the one on file at the start, has no such edge |
| CaseGraph.PassedCheckCanFail | internal/service/application.go:237-254 | a concrete run of one lone filing that moves a passed check to failed |
| CapacityConservation.CapacityConserved | internal/repository/memory/store.go:203-271 | from any moment of a run at which the leg exists, the reservation is its value then plus the weight of shipments assigned since, cancelled included, plus direct grants, in 64-bit arithmetic, at every moment if and only if no shipment is created on the leg and none already on it is booked |
| CapacityConservation.ReservedFromCreation | internal/repository/memory/store.go:185-271 | when shipments are created without a leg, a leg created within 0..capacity holds, at every later moment and in plain integers, its created value plus the weight of every shipment on it plus direct grants, within 0..capacity, if no sum overflowed |
| CapacityConservation.NeverOverbookedExactlyWithoutOverflow | internal/domain/rules.go:43-48 | a leg that starts within 0..capacity stays there at every moment if and only if no granted sum overflows 64 bits |
| CapacityConservation.OutOfRangeNeverGranted | internal/domain/rules.go:43-48 | a leg outside its range is never granted anything if and only if no granted sum overflows, and then its reservation never moves |
| CapacityConservation.NewLegIsEmpty | internal/repository/memory/store.go:185-193 | when shipments are created without a leg, nothing rides on a leg at its creation, so conservation starts from its created value |
| CapacityConservation.CreationUnbalances | internal/service/application.go:98-126 | a concrete run in which a creation naming the leg is accepted and the books stop balancing |
| CapacityConservation.RebookingUnbalances | internal/repository/memory/store.go:239-271 | a concrete run in which a draft already on the leg is booked onto it and the books stop balancing |
| CapacityConservation.GrantOverbooks | internal/repository/memory/store.go:203-220 | a concrete run in which a grant of 2^63-1 kilos is accepted and the leg leaves its range |
| CapacityConservation.GrantOutOfRange | internal/repository/memory/store.go:203-220 | a concrete grant of 2^63-1 kilos that is accepted on a leg outside its range |
| Domain.CapacityCheckOverflows | internal/domain/rules.go:43-48 | a ten-kilo leg with one kilo reserved accepts 2^63-1 kilos and its reservation turns negative |
| IdempotencyIndex.LookupAgreesWithScan | internal/repository/memory/store.go:176-184 | at every moment of every run, for any tenant: at most one shipment has a non-empty key; not-found means none has; a shipment found is the tenant's own if and only if the tenant names are separable, and otherwise none has the key |
| IdempotencyIndex.SeparableLookupAgrees | internal/repository/memory/store.go:176-184 | for a tenant that collides with no stored one, the lookup returns exactly what a full scan finds |
| IdempotencyIndex.PlainTenantsNeverCollide | internal/repository/memory/store.go:176-184 | in every run whose creating tenants have no separator in their names, lookup and scan agree at every moment for every such tenant |
| IdempotencyIndex.IndexAlwaysSound | internal/repository/memory/store.go:115-135 | index entries and keyed shipments correspond one to one in every run, also when two creations both missed the lookup |
| JoinedKey.CollisionExactlyWhenExtending | internal/repository/memory/store.go:118-118 | two different tenants can have the same joined key for some keys if and only if one name extends the other across the separator |
| IdempotencyIndex.CollidingLookup | internal/repository/memory/store.go:176-184 | for such a tenant there is a key whose lookup answers with the other tenant's shipment |
| IdempotencyIndex.LostRaceIsAConflict | internal/service/application.go:98-126 | a concrete run in which two creations with one key both miss the lookup: the second is refused as a conflict, where the whole call at that moment would return the first one's shipment |
| IdempotencyIndex.CreationExactlySince | internal/service/application.go:98-126 | a keyed creation finds its key taken at the write if and only if another creation took it since the lookup; then nothing changes and it succeeds if and only if it was taken for the same id; a successful answer is the stored record if and only if the key is not taken, unless by this very record |
| IdempotencyIndex.RepeatIsAnsweredButNotStored | internal/repository/memory/store.go:118-127 | a concrete run in which the second of two creations with one key and id is answered with a record that is not stored |
| Outcomes.GrantAnswers | internal/repository/memory/store.go:203-220 | in plain integers: a grant at the expected version succeeds if and only if the weight is positive, the reservation not negative and the 64-bit sum at most the capacity; each error has its exact condition |
| Outcomes.LegCanBeFilled | internal/domain/rules.go:43-48 | the weight that fills a leg to the last kilo is granted, and one kilo more is not |
| Outcomes.LegStatusAnswers | internal/domain/rules.go:18-20 | a leg status is set at the expected version if and only if the edge is one of six; each error has its exact condition |
| Outcomes.LookupAnswers | internal/repository/memory/store.go:136-144 | the store finds a shipment or leg if and only if it belongs to the tenant |
| Outcomes.InsertionAnswers | internal/repository/memory/store.go:115-135 | the store inserts a shipment if and only if its key and id are free; a key taken for the same id is no error, any other clash is a conflict |
| Outcomes.ReplacementAnswers | internal/repository/memory/store.go:145-158 | the store replaces a record with the next version if and only if the version is the expected one; each error exactly |
| Outcomes.StoreBookingAnswers | internal/repository/memory/store.go:239-271 | the store books if and only if both records are the tenant's and at the expected versions, a draft, an open leg, one route and room left, whatever its caller has seen; each error exactly |
| Outcomes.BookingAnswers | internal/service/application.go:136-159 | the whole booking run alone succeeds if and only if a coordinator books a draft of its tenant onto an open leg of its tenant on the same route with room left; new store, answer and each error exactly |
| Outcomes.TransitionAnswers | internal/service/application.go:160-184 | the whole transition run alone succeeds if and only if a coordinator or ground agent moves a shipment of its tenant along one of nine edges and, on a leg to loaded or departed, customs is released and security passed; new store, answer and each error exactly |
| Outcomes.CreationAnswers | internal/service/application.go:98-126 | the whole creation run alone: role, well-formedness, a taken key answered with its shipment, a taken id refused, otherwise exactly this record stored as a draft |
| Outcomes.LegCreationAnswers | internal/service/application.go:186-202 | the whole creation of a leg run alone succeeds if and only if role, fields, times and a free id are right, and stores a planned leg |
| Outcomes.OpeningAnswers | internal/service/application.go:203-217 | the whole opening run alone succeeds if and only if a coordinator opens a planned leg of its tenant |
| Outcomes.CustomsAnswers | internal/service/application.go:219-236 | the whole customs filing run alone succeeds if and only if a coordinator of the shipment's tenant files along one of five edges from the case on file |
| Outcomes.SecurityAnswers | internal/service/application.go:237-254 | the whole security filing run alone succeeds if and only if a coordinator or ground agent of the shipment's tenant files, and a passed check is signed and dated |
| Authority.ShipmentsChangeByRight | internal/service/application.go:136-184 | in every run, whatever changes a shipment was asked for by a coordinator of its tenant booking it, or a coordinator or ground agent of its tenant moving it to exactly this status |
| Authority.ShipmentsAppearByRight | internal/service/application.go:98-126 | in every run, a new shipment was asked for by a shipper or coordinator of its tenant |
| Authority.LegsChangeByRight | internal/service/application.go:186-217 | in every run, calls create, book onto or open a leg only for a coordinator of its tenant |
| Authority.SecurityFiledByRight | internal/service/application.go:237-254 | in every run, a security check is filed for a coordinator or ground agent of the tenant of the shipment it names, who signs a passed one |
| Authority.AnswersAreEntitled | internal/service/application.go:98-254 | in every run, whoever is answered with anything but an error had the role the call asks for |
| Application.Service.CreateShipment | internal/service/application.go:98-126 | the method does what its interleavable program does when run alone, reply included |
| Application.Service.BookShipment | internal/service/application.go:136-159 | the method does what its interleavable program does when run alone, reply included; Outcomes.BookingAnswers says what that is |
| Application.Service.TransitionShipment | internal/service/application.go:160-184 | the method does what its program does when run alone, which Outcomes.TransitionAnswers says; the reply carries the old version |
| Application.Service.CreateLeg | internal/service/application.go:186-202 | the method does what its program does when run alone |
| Application.Service.OpenLeg | internal/service/application.go:203-217 | the method does what its program does when run alone |
| Application.Service.PutCustoms | internal/service/application.go:219-236 | the method does what its program does when run alone |
| Application.Service.PutSecurity | internal/service/application.go:237-254 | the method does what its program does when run alone, signing a passed check |
| CargoStore.Store.constructor | internal/repository/memory/store.go:27-29 | an empty store |
| CargoStore.Store.CreateShipment | internal/repository/memory/store.go:115-135 | new contents and error for every input: repeat of an indexed id, conflict, or insertion with index entry |
| CargoStore.Store.GetShipment | internal/repository/memory/store.go:136-144 | the record, or not-found for a missing id or another tenant |
| CargoStore.Store.UpdateShipment | internal/repository/memory/store.go:145-158 | replaces the record with the next version exactly when the stored version is the expected one |
| CargoStore.Store.FindByIdempotency | internal/repository/memory/store.go:176-184 | the shipment under the joined key, or not-found |
| CargoStore.Store.CreateLeg | internal/repository/memory/store.go:185-193 | inserts a leg, or conflict |
| CargoStore.Store.GetLeg | internal/repository/memory/store.go:194-202 | the leg, or not-found for a missing id or another tenant |
| CargoStore.Store.ReserveCapacity | internal/repository/memory/store.go:203-220 | new contents and error in every branch, with the wrapping sum; Outcomes.GrantAnswers says exactly when it succeeds |
| CargoStore.Store.UpdateLegStatus | internal/repository/memory/store.go:221-238 | new contents and error in every branch |
| CargoStore.Store.BookShipment | internal/repository/memory/store.go:239-271 | new contents and result in every branch: leg and shipment change together or not at all |
| CargoStore.Store.GetCustoms | internal/repository/memory/store.go:272-280 | the case filed under the id, or not-found |
| CargoStore.Store.PutCustoms | internal/repository/memory/store.go:281-286 | files the case under its own id |
| CargoStore.Store.GetSecurity | internal/repository/memory/store.go:287-295 | the check filed under the id, or not-found |
| CargoStore.Store.PutSecurity | internal/repository/memory/store.go:296-301 | files the check under its own id |
| Identity.DeactivationIsFinal | internal/service/application.go:67-96 | after the store step that deactivates a user, no authentication that had not already returned ever succeeds for that user, in any interleaving with logins and creations, unless the id is created anew as active |
| Identity.BarredExactlyUntilRevived | internal/repository/memory/store.go:49-76 | a deactivated user is inactive at every later moment if and only if no creation stores an active user under the id |
| Identity.RevocationIsFinal | internal/service/application.go:58-83 | in every run, after a step that revokes a token's session, no authentication of that token that starts later or has not looked the session up yet is ever granted, until a login issues the same hash |
| Identity.RevocationHappens | internal/repository/memory/store.go:59-103 | a logout revokes its session, and a deactivation or wholesale revocation every session of the user |
| Identity.RevokedExactlyBy | internal/repository/memory/store.go:59-114 | a session that stands is revoked by a step if and only if it is its logout, or a deactivation or wholesale revocation for its user |
| IdentityRaces.PastItsLookup | internal/service/application.go:67-83 | in every run, an authentication about to read its user found its session usable at an earlier step, and is granted if and only if the user is active now |
| IdentityRaces.GrantsAreExplained | internal/service/application.go:67-83 | every grant in every run goes back to a step at which the session was on file, unrevoked and unexpired, and a later one at which the user was active, both as in the reply |
| IdentityRaces.RevokedTokenIsGranted | internal/service/application.go:67-83 | a concrete run in which a logout revokes a session between the two steps of an authentication that is then granted |
| IdentityRaces.CreationRevives | internal/repository/memory/store.go:49-58 | a concrete creation with a new email that makes a deactivated id active again |
| IdentityRaces.LoginIsAtomicExactly | internal/service/application.go:36-57 | a login equals the whole call run alone at its write if and only if the account under the email is still the one it read |
| IdentityRaces.DeactivationIsAtomicExactly | internal/service/application.go:84-96 | a deactivation equals the whole call run alone at its write if and only if the actor's token would authenticate a coordinator then |
| IdentityRaces.MutualDeactivation | internal/service/application.go:84-96 | a concrete run in which two coordinators deactivate each other and both are answered that it is done |
| IdentityRaces.LoginAfterDeactivation | internal/service/application.go:36-57 | a concrete run in which a login is answered with a session after its user was deactivated |
| Identity.SessionsExpire | internal/domain/rules.go:51-59 | in every run, a token passes the session check only if an earlier login issued its hash to that user, strictly within that login's time to live, and the session is not revoked |
| Identity.SessionsComeFromLogins | internal/service/application.go:36-57 | every stored session was issued by an earlier login step, with its user, creation and expiry |
| Identity.Store.GetUserByEmail | internal/repository/memory/store.go:31-39 | the user the email points to, the zero user if that is gone, or not-found |
| Identity.Store.GetUser | internal/repository/memory/store.go:40-48 | the user, or not-found |
| Identity.Store.CreateSession | internal/repository/memory/store.go:77-82 | files the session under its hash, replacing any other |
| Identity.Store.GetSession | internal/repository/memory/store.go:83-91 | the session under the hash, or not-found |
| Identity.Store.DeactivateUser | internal/repository/memory/store.go:59-76 | deactivates the user and revokes exactly that user's sessions, all in one step |
| Identity.Store.RevokeUserSessions | internal/repository/memory/store.go:104-114 | revokes exactly the user's sessions, whatever the order of the map |
| Identity.Store.CreateUser | internal/repository/memory/store.go:49-58 | conflict on a taken email, otherwise stores under id and email |
| Identity.Store.RevokeSession | internal/repository/memory/store.go:92-103 | revokes the session under the hash, or not-found |
| IdentityOutcomes.LoginAnswers | internal/service/application.go:36-57 | the whole login run alone succeeds if and only if the email is on file, its user active, the password right and a token generated; session, answer and each error exactly |
| IdentityOutcomes.LogoutAnswers | internal/service/application.go:58-66 | the whole logout run alone refuses an empty token only, and revokes the session under the token's hash and no other |
| IdentityOutcomes.AuthenticationAnswers | internal/service/application.go:67-83 | the whole authentication run alone changes nothing and grants if and only if the session is on file, not revoked, not expired, and its user active |
| IdentityOutcomes.DeactivationAnswers | internal/service/application.go:84-96 | the whole deactivation run alone succeeds if and only if a coordinator's valid token names a user on file, and then deactivates that user and revokes that user's sessions, no others |
| IdentityOutcomes.CreationAnswers | internal/repository/memory/store.go:49-58 | a user is created if and only if the email is free, and is then found by email and id while all others are found as before |
| IdentityOutcomes.WholesaleAnswers | internal/repository/memory/store.go:104-114 | wholesale revocation touches the user's sessions and no others |
| IdentityOutcomes.SessionsAreProven | internal/service/application.go:36-57 | in every run, whoever is about to be given a session started a login with the right password, and the email pointed to that user, active, when it was read |
| IdentityOutcomes.LoginsAreProven | internal/service/application.go:36-57 | so has whoever is answered with a token |
| IdentityOutcomes.StoredSessionsAreProven | internal/service/application.go:36-57 | behind every session on file stands such a login of its user |
| IdentityOutcomes.DeactivationsAreEntitled | internal/service/application.go:84-96 | in every run, a deactivation about to be written goes back to a usable session of the actor and, later, an active coordinator behind it |
| Identity.Service.Login | internal/service/application.go:36-57 | trims and lower-cases the email, then does what its program does when run alone, a failing token generator and the reply's expiry included |
| Identity.Service.Logout | internal/service/application.go:58-66 | the method does what its program does when run alone |
| Identity.Service.Authenticate | internal/service/application.go:67-83 | changes nothing and answers as its program run alone |
| Identity.Service.DeactivateUser | internal/service/application.go:84-96 | authenticates the actor, then does what its program does when run alone |
| OutboxRetry.BackoffBound | internal/repository/memory/store.go:350-362 | for an event that enters with no attempts, its n-th claim is at least n(n-1)/2 minutes after its first in every run of any number of workers, crashes included and clocks unrelated |
| OutboxRetry.FailedTookTenMinutes | internal/repository/memory/store.go:363-376 | an event counted as failed had at least ten minutes between its first and fifth claims |
| OutboxRetry.CountedFailedExactly | internal/repository/memory/store.go:363-376 | an event that entered with no attempts is counted as failed if and only if it is unpublished and has been claimed five times or more |
| OutboxRetry.FailedIsDueExactly | internal/repository/memory/store.go:350-362 | a failed event is unclaimed, carries the error, and is due exactly one minute per attempt after the tick that failed it |
| OutboxRetry.ClaimsAreExclusive | internal/worker/outbox.go:39-52 | between any two claims of the same event lies a failure of it |
| OutboxRetry.PublishedNeverClaimed | internal/repository/memory/store.go:325-349 | a published event is never claimed again |
| OutboxRetry.AttemptsCountClaims | internal/repository/memory/store.go:325-338 | attempts equals its first value plus the number of claims |
| OutboxRetry.OrphanIsStuck | internal/worker/outbox.go:39-52 | a claimed event that no worker holds any more stays as it is and is never claimed again |
| OutboxRetry.EnqueuedUnheld | internal/repository/memory/store.go:319-324 | an event just enqueued is stored as given and held by nobody |
| Outbox.AlwaysExclusive | internal/worker/outbox.go:39-52 | at every moment at most one worker is about to settle a given event, and the stored claim carries that tick's time |
| Outbox.PickAnswers | internal/repository/memory/store.go:325-338 | a claim picks at most n events, only ones that are due, unclaimed and unpublished, and all of these when there are fewer |
| Outbox.SettledAnswers | internal/worker/outbox.go:39-60 | what a tick leaves of an event it picked: one more attempt, and stamped, or due again a minute per attempt later with the error text |
| Outbox.Store.Enqueue | internal/repository/memory/store.go:319-324 | files the event under its id, replacing any other |
| Outbox.Store.Claim | internal/repository/memory/store.go:325-338 | claims as many eligible events as there are up to n, changes nothing else, and returns each claimed record once |
| Outbox.Store.MarkPublished | internal/repository/memory/store.go:339-349 | stamps the event, or not-found |
| Outbox.Store.MarkFailed | internal/repository/memory/store.go:350-362 | releases the claim and delays the event by one minute per attempt, or not-found |
| Outbox.Runner.Tick | internal/worker/outbox.go:39-52 | undisturbed, a tick settles every event it picked, published or put back, and leaves all others alone |
| Migration.HistoryIsAlwaysAPrefix | internal/repository/postgres/migration.go:36-60 | from a recorded prefix, under any number of concurrent startups, failures and crashes, the recorded versions stay a prefix of the sorted list, each newly recorded body took effect exactly once and in order, and a run that returned without error implies the whole list |
| Migration.RunnersActAsOne | internal/repository/postgres/migration.go:36-60 | from any history, the database is at every moment what one undisturbed runner leaves after some number of items, and all of them once any runner returned without error |
| Migration.NewBodiesInOrder | internal/repository/postgres/migration.go:36-60 | from any history, the bodies run since the start come in list order, each once, and are exactly those of the newly recorded items |
| Migration.LateExactlyOverAGap | internal/repository/postgres/migration.go:44-51 | when exactly the recorded versions have taken effect at the start, a body runs after a later one if and only if an item newly applied had a later one recorded at the start |
| Migration.InOrderExactlyWithoutAGap | internal/repository/postgres/migration.go:44-51 | without a gap in the history no run is out of order, and with one every run that succeeds is |
| Migration.NeverTwice | internal/repository/postgres/migration.go:97-113 | from any history and for any list, no body takes effect twice or for a recorded version, and a run without error implies every item is recorded; order is stated by NewBodiesInOrder |
| Migration.GapRunsOutOfOrder | internal/repository/postgres/migration.go:44-51 | a concrete run in which, with a gap at the start, an earlier body runs after a later one |
| Migration.UndisturbedFinishes | internal/repository/postgres/migration.go:36-60 | from wherever it stands, a runner that nobody disturbs and nothing fails returns without error with every item recorded |
| Migration.ScriptsAnswers | internal/repository/postgres/migration.go:70-89 | a name is on the list if and only if it is that of a file, not a directory, and ends in the extension |
| Migration.FailuresEndTheRunner | internal/repository/postgres/migration.go:44-55 | a failing lookup, and a commit that fails or seems to, end their runner with an error |
| Migration.Discover | internal/repository/postgres/migration.go:70-89 | fails exactly when the directory or one of its scripts cannot be read; otherwise, whatever the order of the directory, the list is the one ascending list of its sql files |
| Migration.Table.Run | internal/repository/postgres/migration.go:36-60 | undisturbed, a runner applies in order exactly the missing ones of the items it gets through, and succeeds if and only if no lookup fails and every missing item commits |
| Bulk.OneResultEach | internal/bulk/bulk.go:20-70 | every complete schedule yields exactly one result per index, except indexes lost to a cancelled context; with a live one there are none |
| Bulk.SendNeverBlocks | internal/bulk/bulk.go:28-46 | whenever a worker is about to send a result the buffer has room |
| Bulk.AtMostWorkersMinusOneLate | internal/bulk/bulk.go:38-49 | at most workers-1 handler calls return after the stop flag is set with a live context, at most all with a cancelled one |
| Bulk.OneWorkerStopsAtFirstFailure | internal/bulk/bulk.go:37-50 | with one worker that stops on error the handled items are exactly the prefix ending at the first failure, in order, and the rest are skipped |
| Bulk.SkippedOnlyAfterFailure | internal/bulk/bulk.go:31-50 | with any number of workers and in any schedule, an item is skipped only if the context was cancelled, or the run stops on error and an earlier result is a failure |
| Bulk.FlagSetExactly | internal/bulk/bulk.go:47-61 | in the end the stop flag is set if and only if the context was cancelled, or the run stops on error and some result is a failure |
| Bulk.ResultsAreReturns | internal/bulk/bulk.go:45-46 | in the end a result reports its item as handled, failing or not, if and only if Handle so returned for it |
| Bulk.StepMakesProgress | internal/bulk/bulk.go:53-64 | every step decreases a measure, so no schedule goes on for ever |
| Bulk.NeverDeadlocks | internal/bulk/bulk.go:53-64 | until every worker has left, some step is possible |
| Bulk.Process | internal/bulk/bulk.go:27-69 | under an arbitrary scheduler and arbitrary handler outcomes the goroutines finish, with those results; with a live context and without stopping on error nothing is skipped |
| Bulk.Run | internal/bulk/bulk.go:20-70 | a missing handler gives the one error result; otherwise one report for each index, with its value if and only if it was handled; with a live context nothing is skipped except after a failure of a run that stops on error, and with one worker exactly what follows the first failure |
| Warehouse.AlwaysSafe | internal/warehouse/slot.go:46-86 | after any sequence of operations, reused ids included, live bookings of a slot are pairwise disjoint and inside its window |
| Warehouse.BookedTimeFitsWindow | internal/warehouse/slot.go:61-68 | the total duration of a slot's live bookings is at most its window |
| Warehouse.ExactExactlyWhenClean | internal/warehouse/slot.go:46-86 | every slot's used weight is the sum of its live bookings and within its limit at every moment if and only if slots start empty, live ids are not reused and no sum overflows |
| Warehouse.BookingAnswers | internal/warehouse/slot.go:46-73 | a booking is accepted if and only if it is sane, inside the window of its slot, its weight fits and no live booking of that slot takes part of its time; each error exactly |
| Warehouse.AdditionAnswers | internal/warehouse/slot.go:34-45 | a slot is added if and only if it is sane and new; each error exactly |
| Warehouse.CancelledCanBeBooked | internal/warehouse/slot.go:74-86 | after a cancellation the very same booking is accepted again |
| Warehouse.OverflowAccepted | internal/warehouse/slot.go:61-68 | a ten-kilo slot with one kilo booked accepts 2^63-1 more and its counter turns negative |
| Warehouse.ReusedIdAccepted | internal/warehouse/slot.go:69-72 | a live booking id is accepted again and the slot counts two bookings where one is left |
| Warehouse.UsedSlotAccepted | internal/warehouse/slot.go:34-45 | a slot added as already used is accepted, so its counter is wrong from the start |
| Warehouse.Calendar.constructor | internal/warehouse/slot.go:33-33 | no slots, no bookings |
| Warehouse.Calendar.Add | internal/warehouse/slot.go:34-45 | new contents and error in every branch |
| Warehouse.Calendar.Book | internal/warehouse/slot.go:46-73 | new contents and error in every branch; conflict exactly when some live booking of the slot overlaps |
| Warehouse.Calendar.Cancel | internal/warehouse/slot.go:74-86 | removes the booking and gives its weight back, or not-found |
| BookingLedger.ExactExactlyWhenClean | internal/booking/booking.go:50-88 | every leg's reservation is the sum of its accepted allocations within 0..capacity at every moment if and only if no accepted allocation is overwritten and no sum overflows |
| BookingLedger.AvailableAfterCleanHistory | internal/booking/booking.go:89-97 | after every clean history, what is available on a leg is its capacity less the weight of its accepted allocations, within 0..capacity |
| BookingLedger.RequestAnswers | internal/booking/booking.go:50-72 | a request is accepted if and only if it asks for a positive weight on a defined leg of at most what is available, or so much that the 64-bit sum goes round; each error exactly |
| BookingLedger.ReservationTakes | internal/booking/booking.go:50-72 | a clean reservation takes its weight from what is available on its leg and from no other |
| BookingLedger.ReleaseGivesBack | internal/booking/booking.go:73-88 | a release gives the weight of an accepted allocation back to its leg, to no other, and is not-found exactly for an unknown id |
| BookingLedger.DefinitionAnswers | internal/booking/booking.go:37-49 | a leg is defined if and only if it is named, has capacity and is new, and then all of it is available; each error exactly |
| BookingLedger.OverflowAccepted | internal/booking/booking.go:50-72 | a ten-kilo leg with one kilo reserved accepts 2^63-1 more and its reservation turns negative |
| BookingLedger.OverwriteAccepted | internal/booking/booking.go:50-88 | an accepted allocation whose id comes up again is overwritten, and its weight stays reserved even after release |
| BookingLedger.ReleaseAllRestores | internal/booking/booking.go:73-97 | releasing every accepted allocation in any order, repetitions allowed, makes every leg fully available |
| BookingLedger.ReleaseTwice | internal/booking/booking.go:73-88 | a repeated release changes nothing and answers the same |
| BookingLedger.Ledger.constructor | internal/booking/booking.go:34-36 | no legs, no allocations |
| BookingLedger.Ledger.DefineLeg | internal/booking/booking.go:37-49 | new contents and error in every branch |
| BookingLedger.Ledger.Reserve | internal/booking/booking.go:50-72 | new contents, allocation and error in every branch, a cancelled context included |
| BookingLedger.Ledger.Release | internal/booking/booking.go:73-88 | new contents and error in every branch |
| BookingLedger.Ledger.Available | internal/booking/booking.go:89-97 | capacity less reservation, or not-found |
| RateLimit.SlidingBound | internal/ratelimit/limiter.go:29-46 | over any half-open interval as long as the window, at most 2*limit-1 calls of a key are allowed, the clock not running backwards |
| RateLimit.BoundIsTight | internal/ratelimit/limiter.go:29-46 | for every limit, and every duration longer than one tick of the clock, some ordered history attains that bound |
| RateLimit.RefusedOnlyWhenFull | internal/ratelimit/limiter.go:29-46 | a call is refused only when a full limit of calls of its key has been allowed less than a duration ago |
| RateLimit.KeysAreIndependent | internal/ratelimit/limiter.go:29-46 | what is allowed of one key does not depend on the calls for any other |
| RateLimit.ResetRestores | internal/ratelimit/limiter.go:47-59 | after a reset the key has its whole limit again, and no other key is touched |
| RateLimit.RemainingIsExact | internal/ratelimit/limiter.go:48-59 | after any history, of the next m calls at one instant exactly the first Remaining succeed |
| RateLimit.Limiter.constructor | internal/ratelimit/limiter.go:20-28 | a limit below one becomes one, a duration that is not positive one minute, and no window is open |
| RateLimit.Limiter.Allow | internal/ratelimit/limiter.go:29-46 | new windows and answer in every branch |
| RateLimit.Limiter.Remaining | internal/ratelimit/limiter.go:48-59 | what is left of the open window, or the limit |
| RateLimit.Limiter.Reset | internal/ratelimit/limiter.go:47-47 | forgets the key's window |
| IdempotencyStore.FreshAnswersAreADayApart | internal/idempotency/store.go:30-46 | two fresh admissions under one joined key are at least 24 hours apart, whatever completions and cleanups come between |
| IdempotencyStore.FreshExactly | internal/idempotency/store.go:30-46 | a Begin is invalid if and only if something is missing, and otherwise fresh if and only if there is no fresh admission under the joined key less than 24 hours before |
| IdempotencyStore.CleanupIsInvisible | internal/idempotency/store.go:60-71 | removing every cleanup from a history changes no answer of any Begin |
| IdempotencyStore.CompleteSeesSweep | internal/idempotency/store.go:47-71 | after any ordered history and after the same history without its cleanups, Complete answers differently if and only if some cleanup came 24 hours or more after the latest fresh admission under the joined key |
| IdempotencyStore.SweptBeforeCompletion | internal/idempotency/store.go:47-71 | a concrete history after which Complete is not found with the cleanup and succeeds without it |
| IdempotencyStore.AnswersAreExplained | internal/idempotency/store.go:30-59 | every replay returns the record of the latest fresh admission under the joined key, with the same fingerprint and less than 24 hours old, carrying the last completion since; it is the caller's own tenant and key if and only if the two tenant names are separable; every conflict comes from such an admission with another fingerprint |
| IdempotencyStore.ReplayOfAnotherTenant | internal/idempotency/store.go:30-46 | a tenant whose name extends another's across the separator is answered with the other tenant's record |
| IdempotencyStore.Store.constructor | internal/idempotency/store.go:25-25 | no records |
| IdempotencyStore.Store.Begin | internal/idempotency/store.go:30-46 | new records and answer in every branch |
| IdempotencyStore.Store.Complete | internal/idempotency/store.go:47-59 | sets status and body, or not-found |
| IdempotencyStore.Store.Cleanup | internal/idempotency/store.go:60-71 | deletes exactly the expired records and returns their number |
| Route.Planner.FindPlan | internal/route/planner.go:61-92 | with a live context a plan is returned exactly when a direct or one-stop route exists; any plan is such a route in strict time order, and nothing that can complete a route arrives before its first segment; each error is characterized; a context cancelled from the start leaves only direct routes |
| Route.Planner.FindSecond | internal/route/planner.go:79-89 | the first connecting segment in insertion order, or none connects |
| Route.RouteExactlyWhenViable | internal/route/planner.go:75-90 | a first segment that can be completed exists if and only if a route of one or two segments does |
| Route.RoutesArePlain | internal/route/planner.go:64-85 | in plain terms: a route is one segment with room and not too early, or two through a hub, the second leaving later than the hub's handling minutes after the first arrives |
| Route.Planner.constructor | internal/route/planner.go:37-37 | no hubs, no segments |
| Route.Planner.AddHub | internal/route/planner.go:38-47 | error or extended hubs, keeping the network valid |
| Route.Planner.AddSegment | internal/route/planner.go:48-60 | error or appended segment, keeping the network valid |
| Labels.RoundTripExactlyWhenConforming | internal/labels/format.go:8-25 | parsing the text of a set gives the set back if and only if keys have no comma or equals sign, values no comma, and both are trimmed |
| Labels.ParseConforms | internal/labels/format.go:16-25 | whatever the text, the parsed set conforms |
| Labels.FormatInjective | internal/labels/format.go:8-15 | conforming sets with the same text are equal |
| Labels.ParseIsCanonical | internal/labels/format.go:8-25 | one pass through parse and format settles any text |
| Labels.ParseAnswers | internal/labels/format.go:16-25 | for any text: a key is parsed if and only if some part between commas names it before its first equals sign, and its value is that of the last such part |
| Labels.Format | internal/labels/format.go:8-15 | the loop builds the joined entries in key order |
| Labels.Parse | internal/labels/format.go:16-25 | the loop builds the map of the trimmed entries, last one wins |
| Labels.Keys | internal/labels/labels.go:32-39 | the keys in their one ascending order |
| Strings.LessIsLexicographic | internal/labels/labels.go:32-39 | the order of the keys is lexicographic by character |
| Strings.TrimCutsOnlySpaces | internal/labels/format.go:21-21 | trimming cuts off nothing but space |

## Left out

- HTTP server, middleware, configuration, logging, health checks and `cmd/server`: input and output only.
- SQL text and the PostgreSQL store: the database is not visible; only the migration protocol is modelled, with a transaction that commits its body and history row together or not at all.
- bcrypt, SHA-256, random ids and tokens: a password check is a boolean, a token's hash any function of it, an id or token an argument.
- Unicode lower-casing of the login email: any function from strings to strings.
- Audit records, `ListShipments`, `ListAudit` and both summaries: no property beyond a filter; `OutboxRetry.CountedFailed` is the condition by which the outbox summary counts an event as failed.
- Version counters are unbounded integers: a shipment's never passes 6 (`Lockstep.AtMostFiveChanges`), a leg's would need 2^63 updates to wrap.
- Saturation of instants and durations, and int64 overflow of the retry delay.
- Route.Planner.FindPlan: total minutes are the exact integer quotient, without the rounding of float64; a hub's opening hours are stored but, as in the program, not looked at.
- Labels: `Clean`, `Merge`, `Validate` and `SortedValues` would only add easy members.
- BookingLedger: `List` only filters and sorts.
- Registries and validators such as alerts, approvals, claims, scan, transport and permissions, and floating-point code such as geo, ratios and utilization.
- JSON, gzip, base64 and the priority queue, whose behaviour is mostly that of library code.
