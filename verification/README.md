# Verified model of the service's transactional core

The service keeps its rules in Postgres rows that short transactions change. This project models those
rules as steps over tables and proves what every run keeps, for any number of callers and any interleaving.
Where the service works by updating rows or variables, the model has a class or a method with the same
branches, proved against a specification function; the theorems are about runs of that function.

- **Budgets** (`Ledger`, `LedgerRuns`, `LedgerOverruns`, `LedgerHistory`, `LedgerTable`, `ClubSpend`, `GateProtocol`,
  `ActionQuota`): reservation ledgers with rolling windows, generic in scope and row details and used for
  micro-cents per club and for tokens per member and club; prices and the reservation margin; the gate call that
  reserves in both ledgers and settles both; quotas counted on an event log.
- **Exactly once** (`Transaction`, `Idempotency`, `Barrier`): the retrying transaction runner, execution under a
  client key, and the barrier that holds a key from before the gate until after the handler.
- **Admission** (`Admission`, `AdmissionInvariants`, `AdmissionQuota`, `InvitationListing`, `AdmissionHistory`,
  `AdmissionFates`, `InvitationFates`, `AdmissionTables`): invitations and applications, the sponsor quota and its
  second computation, what an application shows of its history, and what was done to it and to invitations.
- **Versions and indexes** (`Mentions`, `Rerender`, `Content`, `ContentHistory`, `ContentStore`, `Rsvp`): the mention
  scanner and renderer on UTF-16 code units, content version chains with their stored mention index, RSVPs under a
  capacity.
- **Delivery** (`RateCounters`, `Fingerprint`, `NotificationRefs`, `ResumeId`, `Stream`, `StreamStart`): rate counters,
  fingerprint inputs, and the update stream with its resume ids (Last-Event-ID, HTML Living Standard, section 9.2).

Read-committed visibility after a lock, unique keys and atomic commit and rollback are assumed. Clocks, hashes,
verdicts of models, what queries of other tables find, and all limits are parameters. Times are milliseconds.
A transaction's `now()` is the time it began; the models keep it apart from the clock wherever that matters.

## Where the code does less than it seems to

Each of these is a theorem with the exact condition, a concrete run, or both.

- A count whose transaction began before a hold ended, and that waited for the lock past that moment, sees the
  hold if nobody swept it and does not if somebody did. In every run, a sweep before such a count lowers the usage
  it reports exactly if some hold it counts straddles that wait (`SweepBeforeCount`), which can turn a refusal into
  an acceptance (`SweepCanFlipDecision`). Runs in which no hold straddles and no finalize is late cannot tell where
  sweeps are (`SweepsAreInvisible`).
- `finalize` ignores expiry, so a late one can take a window over its maximum by its whole actual cost
  (`SpendSafety` has the excess term, `LateFinalizeCanOverrun` the run). A window stays within its maximum throughout
  a run exactly if no finalize costs more than its hold leaves room for, and no insert finds the room gone that its
  count had seen (`WithinIffNeverExceeds`); such a finalize is late or above its reservation, and such an insert was
  overtaken by a finalize of that kind after its count (`ExceedingInsertWasOvertaken`, `OvertakenInsertOverruns`).
- If the spend hold ends and is swept while the model works, the spend ledger is charged nothing for a billable
  result while the token ledger, which has no sweeper, is charged (`RunLlmGateFor`, `LongModelCallIsSwept`).
- A billable result whose spend settle fails leaves the output hold pending until its time is up
  (`RunLlmGateFor`).
- `storeTerminalIdempotencyError` takes no lock; uniqueness of the key is what makes it safe, and the one reason an
  execution can turn out to be in vain (`NoWastedExecution`). Inside the client-key barrier that needs a call of the
  key to lose its barrier session (`NoExecutionInVain`, `LostSessionWastesExecution`).
- Applying tests an invitation's expiry against the time its transaction began, redeeming and revoking against the
  clock, and all three commit later. An application or a redeem that commits past the expiry, while its sponsor issues
  again in between, takes the sponsor over the cap (`LateApplicationOverfills`, `LateRedeemOverfills`). The total
  exceeds the cap by at most the live applications made so (`QuotaHolds`), and a run stays within the cap exactly if
  no step of it adds to a full quota by such a late consumption, or by an insert that was counted before one
  (`WithinIffNeverOverfills`).
- An expired invitation can still become revoked, when its sponsor leaves the club or when a revoke tested in time
  commits late (`LateRevoke`), or used, by a late application or redeem, and in no other way (`StatusOnlyMovesOn`).
- An edit that lowers the capacity of an event can leave more seats taken than it has, and an RSVP that read the
  capacity before the edit can take a seat that is no longer there, although the edit left as many as were taken
  (`LateRsvpOverfills`). The seats taken stay within the capacity throughout a run exactly if no edit lowers it below
  them and no RSVP takes a new seat when all are taken (`Rsvp.WithinIffNeverOverfills`); such an RSVP had seen a
  greater capacity (`OverfillingRsvpSawMore`).
- Rendering gate text twice can differ from rendering it once (`NestedBracketsRenderToMention`), exactly for texts in
  which an opening bracket that starts no mention is followed by pieces that spell one (`RenderTwice`).
- A recipient's own rate counter never decides anything: it is held against the same limit as the global counter,
  which counts its admissions too (`RefusedIffWindowFull`).
- A payload member with the key `"__proto__"` is lost from the fingerprint, because assigning it sets a prototype
  (`CanonicalFormIsFaithful`, `ProtoIsLost`).
- The order of the refs of a notification shows in its fingerprint exactly if two different ones have the same joined
  key, which takes a NUL in one of them, or if the collation does not order two different ones, as two spellings of
  one letter (`DependsOnSetIff`, `NulFreeNoClash`, `RefsCanClash`, `SpellingsTie`).
- A stream opened with an older cursor, which names no inbox position, writes inbox position 0 into the ids of its
  first activity frames; resuming under one replays the inbox (`CutLosesNothing`, `OlderCursorReplays`). However often
  a stream is cut and resumed, only its first cut can do that (`AnyCutsLoseNothing`).

## Model

| member | source | states |
|---|---|---|
| `Ledger.SpendSafety` | src/club-spend.ts:204-317 | In every reachable state of any interleaving of reservers, finalizes, releases, sweeps and ticks, each window of each scope uses at most its maximum plus the excess of the finalized rows in it |
| `LedgerRuns.NeverOverMax` | src/quotas.ts:188-229 | If every finalize is on time and within its reservation, no window ever exceeds its maximum |
| `LedgerHistory.UsageOfOneMore` | src/club-spend.ts:204-248 | The usage of a window is the sum over the scope's rows of the last day, seven days or thirty of what was spent, or what is reserved while a hold lasts |
| `LedgerHistory.FitsMeans` | src/club-spend.ts:254-270 | A request fits exactly if it exceeds the maximum of none of the three windows |
| `LedgerHistory.EveryRowWasReserved` | src/club-spend.ts:254-317 | In every run each row reserves what a request asked for, since its transaction began and until a hold's length after its insert, and the count that let it through had found room in all three windows |
| `LedgerRuns.LateFinalizeCanOverrun` | src/club-spend.ts:319-413 | The excess term is needed: a run whose checks all passed and whose window is over its maximum after a late finalize |
| `LedgerOverruns.ExceedsIff` | src/club-spend.ts:254-413 | From a window within its maximum, a step goes over it exactly if it finalizes a pending row of the window at a cost that does not fit in place of its hold, or inserts a row that no longer fits |
| `LedgerOverruns.WithinIffNeverExceeds` | src/club-spend.ts:204-445 | A window stays within its maximum throughout a run exactly if no step of it is one of these two |
| `LedgerOverruns.ExceedingFinalizeIsNotPunctual` | src/club-spend.ts:319-413 | Such a finalize comes after the expiry or costs more than was reserved |
| `LedgerOverruns.ExceedingInsertWasOvertaken` | src/club-spend.ts:254-317 | For such an insert, in every run: the step that counted it, and a finalize after that count, late or above its reservation, of a row the window still holds |
| `LedgerOverruns.OvertakenInsertOverruns` | src/club-spend.ts:254-413 | A run in which the finalize still fits and the insert counted before it does not |
| `LedgerRuns.FinalizeDelta` | src/club-spend.ts:319-413 | Finalizing a pending row replaces what it was charged in every window by the actual cost, expired or not |
| `LedgerRuns.ExcessIsUncovered` | src/club-spend.ts:319-413 | The excess in the bound is the part of the actual cost that the hold, if it still lasted, did not cover |
| `LedgerRuns.SettledStays` | src/club-spend.ts:415-445 | A settled row is never changed again by any step |
| `LedgerRuns.SweepSeenIffStraddled` | src/club-spend.ts:432-445 | A sweep changes a count exactly when a counted hold ended between the counting transaction's begin and the sweep, and then lowers it |
| `LedgerRuns.SweepBeforeCount` | src/club-spend.ts:208-248 | In every run, a sweep right before a waiting reserver counts lowers the usage it reads exactly if a hold straddles its wait |
| `LedgerRuns.SweepsAreInvisible` | src/club-spend.ts:208-248 | Two runs that differ only in sweeps make the same decisions and report the same usage at all later times, if no finalize is late and no hold straddles |
| `LedgerRuns.SweepCanFlipDecision` | src/club-spend.ts:254-317 | Without the straddling condition: two runs that differ in one sweep, of which one accepts and one rejects |
| `LedgerRuns.UninterruptedReserve` | src/club-spend.ts:254-317 | The four steps of a reserver that nothing interrupts are the check and the insert, and free its lock |
| `LedgerTable.Table.Reserve` | src/quotas.ts:370-426 | Refused exactly if a window would overflow, otherwise one new pending row and the usage with it; the call is a step of a run of the ledger, and every window stays within its maximum plus excess |
| `LedgerTable.Table.Finalize` | src/quotas.ts:428-442 | On a table that a run of the ledger leads to, finalizing is one more step of it, and every window stays within its maximum plus excess |
| `LedgerTable.Table.Release` | src/club-spend.ts:415-430 | The same for releasing |
| `LedgerTable.Table.Sweep` | src/club-spend.ts:432-445 | The same for the sweep, which releases exactly the pending rows whose time is up |
| `LedgerTable.TableReserveIsRun` | src/club-spend.ts:254-317 | The events that a reserve adds to the trace of its table leave the rows and the decision of that reserve, and no transaction open |
| `ClubSpend.CeilDivideIsLeast` | src/club-spend.ts:86-88 | The rounded-up quotient is the least number that covers the value |
| `ClubSpend.MarginCoversExactly` | src/club-spend.ts:90-95 | A reservation for an estimated price covers an actual price exactly up to 115% of the estimate, rounded up |
| `ClubSpend.MarginCoversUsage` | src/club-spend.ts:97-139 | A usage of at most 115% of the estimated input tokens and no more than the reserved output tokens costs no more than was reserved |
| `ClubSpend.EmbeddingMarginInTokens` | src/club-spend.ts:102-139 | For embeddings, the exact token count up to which the reservation covers the actual price |
| `ClubSpend.FinalizeClubSpendBudget` | src/club-spend.ts:319-413 | Unknown and settled reservations change nothing; usage of the other kind, or of another model, returns its error and leaves the hold; otherwise the row is charged 20 micro-cents a prompt token and 125 a completion token, or 2 a token embedded, and released if that is nothing; the table stays a run of the ledger |
| `ClubSpend.BudgetNeverExceeded` | src/club-spend.ts:254-413 | If reservations come from estimates and finalizes are on time and within them, no club exceeds its budget in any window of any run |
| `GateProtocol.Gate.SettleAfterModel` | src/dispatch.ts:400-451 | For every outcome of the model and of the settle calls, with others' steps between: what becomes of both reservations |
| `GateProtocol.Gate.CallModel` | src/dispatch.ts:400-451 | From both holds in place: whether the spend hold was swept before the answer came, and what then becomes of both rows |
| `GateProtocol.Gate.RunLlmGateFor` | src/dispatch.ts:263-451 | Over all combinations of sub-step outcomes and of what others do: exactly when each reservation is made, under a new id and with this run's request; exactly which stay pending, the unsettled ones that were swept included; what each holds, in numbers; when and with how much each ledger is charged, in the tokens of the verdict: 20 and 125 micro-cents each, and the completion tokens; that a pending hold stops counting at its TTL; what the caller learns; and that apart from these two rows the tables are what others make of them |
| `GateProtocol.WhatTheCallerLearns` | src/dispatch.ts:367-475 | Exactly when the run passes, and when it ends with each of its errors, by the constructors of the verdict and the fate of each call |
| `GateProtocol.Gate.ReserveBoth` | src/dispatch.ts:367-398 | The two reservations, the release of the first if the second fails, and the exact state left |
| `GateProtocol.OwnRowsSurvive` | src/club-spend.ts:432-445 | Whatever others do between two calls, a run's own rows change only by a sweep after their time |
| `GateProtocol.OthersUnaware` | src/club-spend.ts:432-445 | What others do does not depend on a run's own rows |
| `GateProtocol.PromptRunIsNotSwept` | src/dispatch.ts:367-416 | A run whose reservations and model call stay within the hold never loses it |
| `GateProtocol.LongModelCallIsSwept` | src/dispatch.ts:400-446 | A model call as long as the hold, followed by a sweep, loses it |
| `ActionQuota.SlidingWindowQuota` | src/quotas.ts:104-107 | In every run, each closed interval of a day, seven days or thirty holds at most that window's maximum of admitted events of one member and action, though timestamps are transaction starts in any order |
| `ActionQuota.EventLog.EnforceActionQuota` | src/quotas.ts:273-339 | Logs the event and admits it exactly if the events of the member and action in the last day, seven days and thirty are each fewer than that window's maximum |
| `ActionQuota.UninterruptedAdmission` | src/quotas.ts:273-339 | In any run, an admission that nothing interrupts logs its event exactly under that condition, and leaves nothing else behind |
| `Transaction.WithTransaction` | src/db.ts:79-112 | At most retryLimit + 1 attempts; only serialization failures are retried, and not if their rollback failed; what the last attempt ends with, and that a failing rollback hides it; at most one attempt is ever applied, and every connection is given back |
| `Idempotency.ExactlyOnce` | src/idempotency.ts:136-181 | For any number of interleaved callers, at most one execution of a key is committed, and it is exactly if the key's row, holding its request and stored value, is |
| `Idempotency.OutcomesAreJustified` | src/idempotency.ts:65-112 | Everyone who returns a value either committed the one execution or got what the row stores for an equal request; a stored error is thrown for an equal request only; everyone with a conflict had sent a different request |
| `Idempotency.LaterCallers` | src/idempotency.ts:65-181 | Once a key has a row, it stays, and everyone who finishes later gets its answer or fails; with a different request that answer is a conflict |
| `Idempotency.NoWastedExecution` | src/idempotency.ts:114-134 | A caller that executed under the lock finds its key taken only by a terminal error stored meanwhile |
| `Barrier.NoExecutionInVain` | src/idempotency.ts:183-206 | While no call of a key loses its barrier session, a caller of it that missed finds the key free and none ends in a violation of its uniqueness |
| `Barrier.LostSessionWastesExecution` | src/dispatch.ts:533-561 | A run in which a call that lost its session stores a terminal error while the next one executes in vain |
| `Idempotency.RetryReplays` | src/idempotency.ts:65-181 | If a commit was applied and its reply lost, whoever finishes later with the same key and request, and is not aborted, gets the stored value of that commit |
| `Idempotency.Store.LookupIdempotency` | src/idempotency.ts:65-112 | A stored value returned for a request is that of the one committed effect of the key, made for that request; a conflict exactly for a different request |
| `Idempotency.Store.WithIdempotency` | src/idempotency.ts:136-181 | One call from an idle store is the run of begin, lock, lookup, execute, insert and commit, its outcome is theirs, a conflict exactly if the key is taken by a different request, and every key keeps at most one effect |
| `Idempotency.CallIsRun` | src/idempotency.ts:136-181 | The steps of one uninterrupted call leave the answer of its row or its effect together with its row |
| `Idempotency.Store.StoreTerminalIdempotencyError` | src/idempotency.ts:114-134 | Takes the key unless it is taken, as a step of the run, and every key keeps at most one effect |
| `AdmissionInvariants.RunInv` | src/admission.ts:1760-2620 | In every run: applications agree with their invitations, invitations are used exactly if carried and by one application, none is used and revoked, and a member has one open application in a club |
| `AdmissionQuota.QuotaHolds` | src/clubs/unified.ts:586-617 | In every run, with count and insert apart and expiry tested before the commit, a sponsor's total exceeds the cap by at most the live applications that consumed their invitation late |
| `AdmissionQuota.WithinIffNeverOverfills` | src/clubs/unified.ts:586-617 | A run stays within the cap throughout exactly if no step of it adds to a full quota by a late consumption or an insert |
| `AdmissionQuota.ExceedsIffOverfills` | src/clubs/unified.ts:586-617 | From a total within the cap, a step exceeds it exactly if the total is the cap and the step is an own late consumption or an own insert of a still open invitation |
| `AdmissionQuota.ConsumptionMovesOneUnit` | src/admission.ts:1822-1852 | Applying or redeeming moves one unit from open invitations to live applications exactly if the invitation is still open by the clock; otherwise the total rises by one; other sponsors are untouched |
| `AdmissionQuota.OtherStepsNeverRaise` | src/clubs/unified.ts:746-845 | Revoking, withdrawing support, expiry, cold applications, revising, deciding, withdrawing, leaving and time raise nobody's total |
| `AdmissionQuota.LateApplicationOverfills` | src/admission.ts:450-485 | For every cap, a run in which an application whose transaction began a millisecond before the expiry takes the total to one more |
| `AdmissionQuota.LateRedeemOverfills` | src/admission.ts:1963-1984 | The same with a code redeemed a millisecond before the expiry |
| `AdmissionQuota.LateRevoke` | src/clubs/unified.ts:812-822 | A revoke tested a millisecond before the expiry revokes an invitation that has run out |
| `InvitationListing.QuotaComputationsAgree` | src/clubs/unified.ts:69-86 | In every run, the listed rows that are counted are as many as the issuing check counts, at any time and for any time of the query |
| `InvitationListing.ListedCountedMeans` | src/clubs/unified.ts:690-704 | The two-stage quota state counts an invitation exactly if it is open, or used, supported and carried by a live application |
| `InvitationListing.OneRow` | src/clubs/unified.ts:701-715 | The listing's join yields one row an invitation |
| `InvitationListing.StatusOnlyMovesOn` | src/clubs/unified.ts:69-74 | Used and revoked are for ever; expired is never left for open, and left exactly by the sponsor leaving, a revoke tested in time, or a late application or redeem |
| `InvitationListing.UsedIffCarriedOnce` | src/admission.ts:1827-1840 | An invitation is used exactly if an application carries it, one at most carries it, and it is never both used and revoked |
| `AdmissionHistory.SubmittedIffEverAwaiting` | src/admission.ts:580-611 | In every run, the time of submission is shown exactly if the application has ever awaited review |
| `AdmissionFates.HistoryTellsPhase` | src/admission.ts:2363-2525 | In every run: declined and withdrawn exactly by such a step; active under a membership exactly if accepted as it and not ended since; banned exactly by such a decision or a last end with a ban; removed exactly by a last end without |
| `AdmissionFates.HistoryTellsVerdict` | src/application-gate.ts:26-71 | In every run the verdict on an application says what its last draft met: no policy, a pass, a demand for revision (or the same input as then), or a gate that gave no answer |
| `InvitationFates.EveryInvitationWasIssued` | src/clubs/unified.ts:386-396 | In every run each invitation stems from a check of its sponsor for its target that let it through, and runs out thirty days after that transaction began |
| `InvitationFates.HistoryTellsRevoked` | src/clubs/unified.ts:735-845 | In every run an invitation is revoked exactly if its sponsor or an administrator took it back in time and unused, or its sponsor left before it was used; and without support exactly if its sponsor alone withdrew that from a live application |
| `InvitationFates.InvitationsAreForTheirApplicants` | src/admission.ts:450-485 | In every run an application carries only an invitation to its club that is addressed to its applicant or has a code |
| `InvitationFates.BindingChooses` | src/admission.ts:487-545 | Which invitation an application is bound to, by the set of open ones to the applicant: the one named if it is among them, else the only one, and more than one are ambiguous |
| `AdmissionHistory.WorkflowAgreesWithGuards` | src/admission.ts:580-611 | canApplicantRevise, applicantMustActNow, currentlySubmittedToAdmins and awaitingActor say exactly what the guards of revise, decide and withdraw let through |
| `AdmissionHistory.PhasesOnlyMoveOn` | src/admission.ts:2047-2119 | No step takes an application from review back to revision or from a final phase back to a live one |
| `AdmissionHistory.VerdictStays` | src/admission.ts:2093-2119 | Only revising changes a verdict, and only of an application in need of revision |
| `AdmissionInvariants.EvaluationFits` | src/application-gate.ts:26-71 | Every evaluation, cached or new, asks for revision exactly if its verdict does |
| `AdmissionTables.Tables.CountQuota` | src/clubs/unified.ts:586-617 | The count of the issuing check over both tables |
| `AdmissionTables.Tables.CountListed` | src/clubs/unified.ts:690-704 | The loop over the listing finds as many counted rows as the issuing check counts |
| `AdmissionTables.Tables.CountForIssue` | src/clubs/unified.ts:540-617 | Refused exactly for an open invitation of the sponsor to the target, then for a full quota; the tables stay those of a run, with its invariants and its bound on every sponsor's total |
| `AdmissionTables.Tables.RevokeInvitation` | src/clubs/unified.ts:735-845 | Done exactly if the actor may, in time; which flag is set then; nobody's total rises |
| `AdmissionTables.Tables.RevokeOpenInvitesFromSponsor` | src/identity/memberships.ts:299-312 | Revokes exactly the unused, unrevoked invitations of the sponsor in the club |
| `AdmissionTables.Tables.Apply` | src/admission.ts:1795-1852 | Refused exactly while an application is open, for an invitation that is not among the applicant's, or for more than one; otherwise the application, bound as named or to the only one |
| `AdmissionTables.Tables.RedeemInvitation` | src/admission.ts:1930-1996 | Refused exactly while an application is open or if the code's invitation is not; otherwise the application under it |
| `AdmissionTables.Tables.PrepareRevisionOf` | src/admission.ts:1174-1228 | The evaluation made before the revising transaction asks for revision exactly if its verdict does, also when it is reused |
| `AdmissionTables.Tables.ReviseApplication` | src/admission.ts:2074-2119 | Revises exactly when the applicant is shown that the application can be revised, and keeps the invariants and bounds of runs |
| `AdmissionTables.Tables.WithdrawApplication` | src/admission.ts:2238-2268 | Withdraws exactly when somebody is shown to be awaited, and keeps the invariants and bounds of runs |
| `AdmissionTables.Tables.DecideApplication` | src/admission.ts:2363-2525 | Decides exactly when the application is shown as submitted, which it then stays; accepting makes it active under the membership, declining declined, banning banned, and nothing else changes |
| `AdmissionTables.Tables.EndApplicationsOf` | src/admission.ts:2602-2620 | Ends exactly the applications that led to the membership |
| `Mentions.ExtractMentionCandidates` | src/mentions.ts:112-140 | One left-to-right scan that jumps past matches gives what looking at every position gives |
| `Mentions.ScanIsComplete` | src/mentions.ts:79-84 | The scan returns, ascending and disjoint, exactly the well-formed mentions with a trimmed nonempty label |
| `Mentions.IdCharsAreTheAlphabet` | src/mentions.ts:79-84 | The units of an id are the thirty-one letters of the alphabet |
| `Mentions.LabelCharsAre` | src/mentions.ts:79-84 | The five code units a label cannot hold |
| `Mentions.SpacesAre` | src/mentions.ts:128 | The twenty-five code units that trimming takes off |
| `Mentions.TrimTakesOuterSpace` | src/mentions.ts:128 | Trimming takes white space off both ends, and all of it |
| `Mentions.RenderGateText` | src/gate.ts:374-387 | Replaces exactly the mentions by their labels and keeps all other text in order |
| `Mentions.RenderMention` | src/gate.ts:374-387 | Up to the first mention ahead the rendering is the text itself, then comes that mention's label, then the rendering of the rest |
| `Mentions.RenderLength` | src/gate.ts:374-387 | Rendering shortens the text by exactly fifteen code units a mention |
| `Mentions.RenderFixedIffPlain` | src/gate.ts:374-387 | Rendering leaves a text alone exactly if it holds no mention |
| `Rerender.RenderTwice` | src/gate.ts:374-387 | A second rendering changes something exactly if some opening bracket that starts no mention is followed, up to the next closing bracket outside any mention and with no other such bracket between, by units and whole mentions that spell a trimmed label, a bar and twelve id characters |
| `Rerender.NoStrayNoChange` | src/gate.ts:374-387 | A text in which every opening bracket starts a mention is settled by one rendering |
| `Mentions.NestedBracketsRenderToMention` | src/gate.ts:374-387 | A text whose two renderings differ |
| `Content.VersionChain` | src/clubs/content.ts:918-1063 | For any interleaving of updates and removals, versions are gap-free from 1, each supersedes the one before, only the last is removed, and every committed edit replaced the version it had read |
| `Content.StoredIndexIsFreshScan` | src/clubs/content.ts:997-1063 | In every run, the stored spans of every version and field are what a scan of that version's text gives |
| `ContentHistory.UpdateStores` | src/clubs/content.ts:962-967 | A committed update stores, field by field, the patch's own part or what the version it read had, and so for the expiry |
| `ContentHistory.LastWordStands` | src/clubs/content.ts:918-1063 | In every run each field of the last version, and its expiry, is what the last stored update with a part for it said, or the creation; and nothing after a removal |
| `ContentHistory.UpdateAnswers` | src/clubs/content.ts:975-1056 | Which error an update ends with, in order, by the spans of its changed and kept texts; no error exactly if it changes nothing or stores a version |
| `Content.FreeNumberMeansLast` | src/clubs/content.ts:1035-1056 | The uniqueness of numbers lets only a transaction that read the last version insert |
| `ContentStore.ContentItem.UpdateContent` | src/clubs/content.ts:918-1063 | The update in its order of checks; a no-op changes nothing, a refusal names its error; otherwise one version more, with the texts and the expiry the patch says and all others kept |
| `ContentStore.ContentItem.RemoveContent` | src/clubs/content.ts:1200-1288 | Removes exactly a published item whose next version number is free, and names the error otherwise; the version stored then holds no text |
| `ContentStore.ContentItem.RowsForUpdate` | src/mentions.ts:436-460 | Rescanning changed fields and copying the rows of the others gives each field's rows |
| `ContentStore.ContentItem.RowsOf` | src/mentions.ts:323-351 | One row a mention of a field |
| `ContentStore.ContentItem.SplitFields` | src/clubs/content.ts:997-1035 | Splits the fields into changed and unchanged ones |
| `Rsvp.RsvpStaysWithinCapacity` | src/clubs/events.ts:140-154 | An RSVP decided on a snapshot and committed after cancellations only ends within the capacity of that snapshot or does not raise the seats taken |
| `Rsvp.StoredResponseMeans` | src/clubs/events.ts:140-154 | A "yes" is put on the waiting list exactly if the other members take all seats, and any other response stored as it is |
| `Rsvp.SeatsNeverExceedCapacity` | src/clubs/events.ts:339-415 | If capacity never falls, seats taken never exceed it, with RSVPs decided on serializable snapshots and cancellations and edits outside their order |
| `Rsvp.ExceedsIffOverfills` | src/clubs/events.ts:339-438 | From any state within its capacity, a step leaves more seats taken than there are exactly if it lowers the capacity below them, or commits a "yes" that takes a new seat when all are taken |
| `Rsvp.OverfillingRsvpSawMore` | src/clubs/events.ts:140-154 | An RSVP that takes a new seat when all are taken had a greater capacity, or none, in its snapshot |
| `Rsvp.WithinIffNeverOverfills` | src/clubs/content.ts:918-1063 | The seats taken stay within the capacity of the moment throughout a run, edits included, exactly if no step of it is one of these two |
| `Rsvp.LateRsvpOverfills` | src/clubs/events.ts:339-438 | For every capacity, a run in which an edit leaves as many seats as are taken, and an RSVP with an older snapshot takes one more |
| `Rsvp.OnlyAFallOverfills` | src/clubs/events.ts:102-154 | While no open RSVP has seen a greater capacity, a step overfills exactly if it lowers the capacity below the seats taken |
| `Rsvp.MembersAreChained` | src/clubs/events.ts:445-506 | Each member's entries form one gap-free superseding chain whose last entry is the current view |
| `Rsvp.EventRsvps.RsvpEvent` | src/clubs/events.ts:339-415 | What is stored, waiting list included, in an entry that supersedes the member's last one, or nothing if it says the same; and that it overfills nothing |
| `Rsvp.EventRsvps.CancelEventRsvp` | src/clubs/events.ts:445-506 | A cancellation that supersedes the member's last entry, unless there is none or it is one; and that no more seats are taken |
| `RateCounters.CounterTable.RateLimitExceeded` | src/notification-substrate.ts:637-758 | Says whether a limit is met, and otherwise bumps both counters of every configured window, or none |
| `RateCounters.RefusedIffWindowFull` | src/notification-substrate.ts:637-758 | In every run an attempt is refused exactly if the present ten seconds, hour or day holds as many admissions of its producer and class as its limit |
| `RateCounters.BumpedCounts` | src/notification-substrate.ts:738-758 | An admission raises exactly its own counters, each by one |
| `RateCounters.GlobalIsSumOfMembers` | src/notification-substrate.ts:637-758 | In every run each global counter is the sum of its member counters and none exceeds its limit |
| `RateCounters.TwiceTheLimit` | src/notification-substrate.ts:973-1024 | Any half-open interval of a window's length holds at most twice its limit of deliveries of one producer and class |
| `RateCounters.TwoWindows` | src/notification-substrate.ts:551-567 | An interval of a window's length meets at most two windows |
| `Fingerprint.Idempotent` | src/notification-substrate.ts:152-165 | Sorting keys deeply twice is sorting them once |
| `Fingerprint.SameCanonicalForm` | src/notification-substrate.ts:152-165 | Two values have the same canonical form exactly if they are equal up to key order at every depth, `"__proto__"` members aside |
| `Fingerprint.CanonicalFormDecides` | src/notification-substrate.ts:222-244 | Without such members the canonical form decides equality up to key order |
| `Fingerprint.CanonicalFormIsFaithful` | src/notification-substrate.ts:152-165 | A value is equal up to key order to its canonical form exactly if it has no such member |
| `Fingerprint.ProtoIsLost` | src/notification-substrate.ts:152-165 | Two payloads that differ in such a member and have one canonical form |
| `NotificationRefs.NormalizeRefs` | src/notification-substrate.ts:193-220 | The first complaint in order, or the sorted refs without duplicates |
| `NotificationRefs.NormalFormMeans` | src/notification-substrate.ts:193-220 | The complaint is about the first ref that cannot be used: its kind, its role, its id; otherwise the normal form holds, once each, the trimmed refs that are the last under their key |
| `NotificationRefs.DependsOnSetIff` | src/notification-substrate.ts:193-220 | The normal form depends only on the set of trimmed refs exactly if no two different ones share a joined key and the collation orders any two different ones, and otherwise two orders of the same refs have two normal forms |
| `NotificationRefs.DependsOnSetIffNoClash` | src/notification-substrate.ts:209-211 | Where the collation orders any two different texts, joined keys alone decide that |
| `NotificationRefs.SpellingsTie` | src/notification-substrate.ts:211-219 | Two acceptable refs without NUL, whose ids the collation may call equal, and two lists of them that then have two normal forms |
| `NotificationRefs.NulFreeNoClash` | src/notification-substrate.ts:209-211 | Refs without NUL never clash |
| `NotificationRefs.RefsCanClash` | src/notification-substrate.ts:209-211 | Two acceptable refs that do |
| `ResumeId.ParseAfterCompose` | src/sse-resume.ts:19-37 | Parsing undoes composing exactly on safe integers |
| `ResumeId.ComposeAfterParse` | src/sse-resume.ts:11-37 | Composing undoes parsing on every id that names an inbox position |
| `ResumeId.ParseMeans` | src/sse-resume.ts:23-58 | Exactly which ids name no position, two positions, or an activity position only |
| `ResumeId.MatchesComposite` | src/sse-resume.ts:4-5 | The pattern matches exactly the ids spelled by two numerals, and finds those |
| `Stream.Handler.constructor` | src/server.ts:749-807 | The seed phase, frame by frame; at "latest" nothing but the ready frame, which names the last rows seen |
| `Stream.Handler.PollOnce` | src/server.ts:877-919 | One turn of the loop |
| `Stream.RunIsExact` | src/server.ts:877-919 | At every frame, the items sent so far are those between the start and the positions its id names |
| `Stream.SendMessagesKeeps` | src/postgres.ts:285-345 | Each message of an inbox page carries an id that names exactly what has been sent before and with it |
| `Stream.PageEndsWith` | src/clubs/index.ts:303-394 | What a query returns, for any limit and any view of the log, is just what is expected up to its last row |
| `Stream.DeliversEverythingOnce` | src/postgres.ts:523-527 | A stream that keeps polling delivers everything beyond its start, once and in order, for any page limit |
| `StreamStart.DeliversWhatIsDue` | src/server.ts:749-807 | A stream that keeps polling delivers, of either log, the listed rows after the position its cursor names, and without one exactly those that its first read did not see |
| `StreamStart.NothingSeenIsSent` | src/clubs/index.ts:321-330 | At no time does a stream opened without a position send a row that its first read saw |
| `StreamStart.ReadyOnce` | src/server.ts:797-807 | A stream says exactly once that it is ready |
| `StreamStart.PollIsNotReady` | src/server.ts:877-919 | A turn writes at most a page of each log |
| `StreamStart.ActivityComesFirst` | src/server.ts:877-919 | In a turn all activity frames come before all messages |
| `StreamStart.ReadyComesLast` | src/server.ts:797-807 | The ready frame comes after the seed, under the positions reached |
| `Stream.CutAndResume` | src/server.ts:749-807 | Cut after any frame and resumed under its id, a stream delivers the uncut stream's activity, and its messages after any between the frame's inbox position and the start |
| `Stream.CutLosesNothing` | src/server.ts:767-807 | Nothing is lost or repeated for a composite or latest cursor; what exactly is repeated for an older one |
| `Stream.AnyCutsLoseNothing` | src/server.ts:749-807 | Cut any number of times, each time resumed under the last frame's id, with any limits and views: the client gets the uncut stream's activity, and its messages after what the first cut of an older cursor's stream repeats |
| `Stream.OlderCursorReplays` | src/server.ts:749-807 | A stream with an older cursor that is cut after its first frame and resumed sends a message the uncut stream does not |

## Left out

- ActionQuota.SlidingWindowQuota: limits are parameters; how they follow from daily maxima and multipliers is not modelled.
- Admission.Step: membership creation is a number; blocks, preflight checks, capacity of open applications, club changes between preparation and commit and clients' idempotency are transactions that do not happen. Hard deletion of members and clubs, restoring clubs and the registration flow are not modelled.
- Admission.OutcomeOf: an email invitation and a member invitation to the same address count as different targets, so the check for an open invitation, and the unique index behind it, refuse less here; invitation codes, their retry loop and notifications are left out.
- Idempotency.Store.LookupIdempotency: last_seen_at and the shape test of stored terminal errors are left out; calls without a client key leave no row and are not modelled.
- ClubSpend.FinalizeClubSpendBudget: estimating tokens from the length of a text is left out; sums beyond the safe integers, which the status report rejects, are not modelled; integers are unbounded.
- Content.VersionChain: one content item; event fields, threads, expiry strings, embeddings and activity rows are left out. The limits on mentions are refusals, not an invariant of stored versions, as in the code.
- Rsvp.EventRsvps.RsvpEvent: one event; that the database aborts one of two RSVPs of which neither saw the other is assumed of its serializable isolation; its closing at the start time, access checks and notifications are left out.
- Stream.Handler.PollOnce: a fixed scope and fixed visibility (the model also allows listed inbox rows that make no frame, where the service throws), rows committed in the order of their sequence numbers, no eviction of other streams and no events without an id.
- RateCounters.TwiceTheLimit: earlier outcomes of a delivery (unknown producer or topic, bad refs, duplicates) are attempts that do not happen.
- Fingerprint.SameCanonicalForm: numbers are integers, and the digest of the canonical text is left out.
- NotificationRefs.NormalizeRefs: the collation is any strict order of texts, and the sort is an insertion sort that is stable, as the language requires of its sort. If the collation calls two different roles equal, their refs compare as equal whatever their ids are, and which of the orders allowed then comes out is up to the language's sort.
- SQL, connection pools, model and embedding calls, HTTP, directory paging, the per-address limiter, tokens and proof of work.
- Caps that the code does not promise: content creation, open applications of a member under concurrency.
