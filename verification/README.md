# Governance protocols of the intent engine, modelled in Dafny

The intent engine is a local governance tool built on append-only ledgers, one-shot
capabilities and approval protocols. This project models seven of its components and
proves what each promises over every input, every run or every reachable state.

| component | modules |
|---|---|
| intent proposal ledger, its decoder, its writers, its second decoder | `IntentModels`, `ProposalLedger`, `LedgerInvariant`, `LedgerHistory`, `LedgerWriters`, `LedgerFacts`, `Preflight` |
| external write approval and execution | `WriteModels`, `WriteExecution`, `WriteOutcomes` |
| short-lived capabilities and their use after a task | `Capabilities`, `CapabilityFacts` |
| WebAuthn challenges, credentials and counters | `WebAuthnLedgers`, `WebAuthnService`, `WebAuthnFacts` |
| exact-JSON validation of object graphs | `Utf8`, `ExactJson`, `ExactJsonFacts` |
| context packs, and the case versions they show | `Ranking`, `Collections`, `ContextGraph`, `ContextPack`, `CaseStore`, `ContextNoninterference`, `ContextRefs`, `ContextAccess`, `ContextFacts` |
| evidence ledger, drift detection, selection and assurance | `Chronology`, `EvidenceStore`, `Detectors`, `Selection`, `EvidenceDrift`, `DriftFacts`, `Assurance`, `AssuranceFacts` |

## How the model represents the program

- Content hashes are injective constructors (`PlanDigest`, `EventDigest`, `TokenHash`, ...) or,
  for drift fingerprints, an injective function parameter. A fingerprint's 64 hexadecimal
  digits compare as the number they denote.
- Instants are integers. Sorted identifiers (nodes, cases, evidence, edges) are natural
  numbers in the order of the source's strings; 0 is the empty string.
- A store locked by a transaction is one atomic step; a failed step leaves the state as it
  was. The confirmation service is the one its callers build, with authority preimages, so a
  confirmation that cannot be read back is rolled back. Ledger frames are datatype values, not
  bytes.
- The external write protocol is a state machine. A process advances one store or provider
  step at a time, in any interleaving with others; a crash is a process that never advances
  again. Claims are atomic per (plan, approval), as the receipt store promises.
- Provider answers, cryptographic verdicts, clocks, random draws, the tokenizer and the
  guards over storage that is not modelled (`admissible`, `confirmed`, `snapshotReadable`)
  are arbitrary parameters.
- A Python loop that updates locals is a method with a loop, proved equal to a recursive
  function; the theorems are about that function.
- What the guards and judgements of an operation amount to is stated a second time, over the
  records, lists and sets themselves and without the operation's own predicates, and proved
  equivalent for all inputs (the modules named `...Facts`, `WriteOutcomes`, `ContextAccess`, and
  the lemmas named `...Exactly`).

## What turned out not to hold

- A clarification proposal written through the store's `put`, or a `proposed` or `closed`
  event written through `append_clarification`, is accepted and leaves a ledger the decoder
  rejects. This happens exactly for those frames (`PutKeepsLedger`, `ClarifyKeepsLedger`), and
  each kind is accepted somewhere (`LoneProposalAccepted`, `LoneProposingAccepted`,
  `LoneClosingAccepted`); the workflow writes them only in pairs (`EveryRunDecodes`).
- Recorded conflicts are not append-only for the decoder: a `proposed` event may drop them,
  and that is the only transition that can (`ConflictsKept`, `ConflictForgotten`).
- A context pack can name a node the actor may not read: a case is shown for a node it affects,
  and its item names the case's subject (`HiddenSubjectNamed`). No request of an actor is told
  of a hidden node when every open readable case that touches a node the actor sees is about
  such a node; otherwise, unless the configured limit cuts the case list short, asking for one
  of the nodes the actor sees reveals one (`NamesHiddenExactly`).

Two properties of bare inputs explain which store rules the results rest on. They are not
reachable through the stores. Record-wise deletion from a sequence of case versions can bring
an older version back (`SupersededCaseSurfaces`); the case store never accepts versions that
cite different evidence (`IdentityNeverChanges`). A record can look current beside a newer
version that the log files under another object (`MisfiledVersionLooksCurrent`); the evidence
store never lets one identifier name two records (`ReadableIsConsistent`).

## Model

| member | source | states |
|---|---|---|
| `ProposalLedger.DecodeLedger` | src/intent_engineering/intent_workflow/proposal_store.py:158-307 | the frame loop with its pending proposal and pending decision computes the fold that every ledger theorem is about; which frames that fold takes is `LedgerFacts.FrameExactly` |
| `LedgerInvariant.RunInv` | src/intent_engineering/intent_workflow/proposal_store.py:180-278 | every accepted prefix keeps the bindings among sessions, proposals, decisions and pending ids |
| `LedgerInvariant.SessionBinding` | src/intent_engineering/intent_workflow/proposal_store.py:196-278 | in a decodable ledger a session has left `open` exactly when one clarification proposal is bound to it, and is closed exactly when that proposal is decided, with the decision's id, actor, time and activation on the closing event |
| `LedgerInvariant.ProposalHasSession` | src/intent_engineering/intent_workflow/proposal_store.py:196-278 | every clarification proposal belongs to a recorded session and is its only one |
| `LedgerFacts.FrameExactly` | src/intent_engineering/intent_workflow/proposal_store.py:158-307 | after any accepted prefix the decoder takes the next frame if and only if it carries its position and is a valid event that continues its session, an admissible proposal or an admissible first decision, each written out over the recorded sessions, proposals and decisions |
| `LedgerFacts.DecodesExactly` | src/intent_engineering/intent_workflow/proposal_store.py:265-286 | a ledger decodes if and only if all its frames are taken, no proposed session waits for its proposal and each decided clarification proposal has closed its session |
| `LedgerFacts.TransitionExactly` | src/intent_engineering/intent_workflow/proposal_store.py:308-426 | a transition is accepted if and only if the event opens a new session with a linked chain of questions, or appends one answer, or one conflict with the accepted answer, or proposes a complete uncontested session by its last answerer, or closes a proposed one, in time order and on the latest event |
| `LedgerFacts.EventExactly` | src/intent_engineering/intent_workflow/models.py:383-443 | an event is valid if and only if its session is, it carries its own digest, and its kind fits status, proposal, decision and activation |
| `LedgerFacts.SessionExactly` | src/intent_engineering/intent_workflow/models.py:321-376 | a session is valid if and only if it asks one to sixteen different questions, answers each at most once and nothing else, and its conflicts are different and about answers |
| `LedgerFacts.RequiredAreAnswered` | src/intent_engineering/intent_workflow/proposal_store.py:403-415 | in every accepted prefix a session that is no longer open has an answer to each of its required questions |
| `LedgerHistory.TransitionAdvances` | src/intent_engineering/intent_workflow/proposal_store.py:308-426 | an accepted event keeps the immutable fields, moves the status at most one step, never goes back in time and only extends the answers |
| `LedgerHistory.SessionsOnlyAdvance` | src/intent_engineering/intent_workflow/proposal_store.py:180-278 | between any prefix of a ledger and the whole, every session only advances |
| `LedgerHistory.ConflictsKept` | src/intent_engineering/intent_workflow/proposal_store.py:308-426 | a transition keeps the recorded conflicts if and only if it is not a `proposed` event of a conflicted session |
| `LedgerHistory.ConflictForgotten` | src/intent_engineering/intent_workflow/proposal_store.py:403-415 | a concrete decodable ledger whose conflict is gone after the `proposed` event |
| `LedgerHistory.EvidenceChain` | src/intent_engineering/intent_workflow/models.py:351-376 | until a session's first conflict its evidence predecessors form one chain from classification through questions to answers |
| `LedgerWriters.IntentProposalStore.Put` | src/intent_engineering/intent_workflow/proposal_store.py:428-469 | outcome and new ledger of `put`, duplicates and invalid input included |
| `LedgerFacts.PutExactly` | src/intent_engineering/intent_workflow/proposal_store.py:428-469 | `put` accepts exactly the new proposals that carry their own digest and recognises exactly an identical repetition |
| `LedgerWriters.IntentProposalStore.Decide` | src/intent_engineering/intent_workflow/proposal_store.py:471-529 | outcome and new ledger of `decide` |
| `LedgerFacts.DecideExactly` | src/intent_engineering/intent_workflow/proposal_store.py:471-529 | `decide` accepts exactly the first decision that names digest and baseline of a stored plain proposal, and recognises exactly an identical repetition |
| `LedgerWriters.IntentProposalStore.AppendClarification` | src/intent_engineering/intent_workflow/proposal_store.py:531-577 | outcome and new ledger of `append_clarification` |
| `LedgerFacts.ClarifyExactly` | src/intent_engineering/intent_workflow/proposal_store.py:531-577 | an event is appended if and only if it is valid, its id is new and it continues its session |
| `LedgerWriters.ClarificationCoordinator.Propose` | src/intent_engineering/intent_workflow/clarification.py:1024-1167 | outcome and the atomic pair of a `proposed` event and its proposal, replays included; when it is accepted and what the pair holds are the next two rows |
| `LedgerFacts.ProposeExactly` | src/intent_engineering/intent_workflow/clarification.py:1024-1167 | a submission is accepted if and only if its session is open, without conflicts, has an answer to every required question, and task, baseline, last answerer and time fit |
| `LedgerFacts.ReplayExactly` | src/intent_engineering/intent_workflow/clarification.py:1123-1129 | a submission is a replay if and only if the same guards hold of its proposed session and the proposal it makes is recorded |
| `LedgerFacts.ProposedPair` | src/intent_engineering/intent_workflow/clarification.py:1060-1157 | the event and the proposal it writes, field by field |
| `LedgerWriters.ProposalConfirmationService.Confirm` | src/intent_engineering/intent_workflow/clarification.py:2067-2264 | outcome and ledger of a confirmation: the pair of a decision and its closing event, read back, and the old ledger restored when the read-back fails |
| `LedgerFacts.ConfirmExactly` | src/intent_engineering/intent_workflow/clarification.py:2067-2264 | a confirmation is accepted if and only if it is admissible, by one of its own aliases, of an undecided clarification proposal of a proposed session, and not earlier than the proposal and the latest event |
| `LedgerFacts.ConfirmedExactly` | src/intent_engineering/intent_workflow/clarification.py:2067-2264 | a confirmation is a replay if and only if it is admissible and names a clarification proposal decided before |
| `LedgerFacts.ConfirmedPair` | src/intent_engineering/intent_workflow/clarification.py:1632-1678 | the decision and the closing event it writes, field by field |
| `LedgerWriters.PutKeepsLedger` | src/intent_engineering/intent_workflow/proposal_store.py:428-469 | an accepted `put` leaves a decodable ledger if and only if the proposal is plain, and then adds exactly that proposal |
| `LedgerWriters.LoneProposalAccepted` | src/intent_engineering/intent_workflow/proposal_store.py:428-469 | a clarification proposal that `put` accepts, after which the ledger no longer decodes |
| `LedgerWriters.DecideKeepsLedger` | src/intent_engineering/intent_workflow/proposal_store.py:471-529 | an accepted decision leaves a decodable ledger that differs by that decision only |
| `LedgerWriters.LatestOfRun` | src/intent_engineering/intent_workflow/proposal_store.py:548-557 | the writer's backward scan finds the decoder's latest event of the session |
| `LedgerWriters.ClarifyKeepsLedger` | src/intent_engineering/intent_workflow/proposal_store.py:531-577 | an accepted event leaves a decodable ledger if and only if it is opened, answered or conflicted, and then records exactly that event |
| `LedgerWriters.LoneProposingAccepted` | src/intent_engineering/intent_workflow/proposal_store.py:531-577 | a proposed event that `append_clarification` accepts without its proposal, after which the ledger no longer decodes |
| `LedgerWriters.LoneClosingAccepted` | src/intent_engineering/intent_workflow/proposal_store.py:531-577 | a closed event that it accepts without its decision, after which the ledger no longer decodes |
| `LedgerWriters.ProposeKeepsLedger` | src/intent_engineering/intent_workflow/clarification.py:1036-1157 | the accepted pair always leaves a decodable ledger whose session is proposed and bound to the new proposal |
| `LedgerWriters.ConfirmKeepsLedger` | src/intent_engineering/intent_workflow/clarification.py:2200-2264 | every accepted confirmation leaves a decodable ledger with the session closed by the recorded decision and all else as before |
| `LedgerWriters.ConfirmAcceptedExactly` | src/intent_engineering/intent_workflow/clarification.py:1809-1943 | a confirmation that passes its guards is accepted if and only if it is not earlier than the session's latest event; a refused one changes nothing |
| `LedgerWriters.ConfirmNeverRefused` | src/intent_engineering/intent_workflow/clarification.py:2067-2264 | in every ledger the writers produced, a confirmation that passes its guards is accepted |
| `LedgerWriters.CallSafe` | src/intent_engineering/intent_workflow/clarification.py:1036-1157 | from any decodable ledger, any governed writer call, accepted or refused, leaves a decodable ledger, forgets no conflict and keeps proposal times coherent |
| `LedgerWriters.EveryRunDecodes` | src/intent_engineering/intent_workflow/proposal_store.py:158-286 | every sequence of governed writer calls from the empty ledger leaves a decodable ledger |
| `LedgerFacts.RunAppends` | src/intent_engineering/intent_workflow/proposal_store.py:428-577 | a run starts from the empty ledger and every call only appends to it: nothing, one frame, or the numbered pair of frames, given for each call |
| `Preflight.ParseProposals` | src/intent_engineering/intent_workflow/preflight.py:233-271 | the second decoder's loop returns the undecided proposals of its own fold |
| `Preflight.ParseFollowsRun` | src/intent_engineering/intent_workflow/preflight.py:233-271 | on every accepted prefix the second decoder holds the same proposals, order and decisions as the first |
| `Preflight.OrderIsFrameOrder` | src/intent_engineering/intent_workflow/proposal_store.py:180-278 | the recorded order is that of the proposal frames |
| `Preflight.DecodersAgree` | src/intent_engineering/intent_workflow/preflight.py:233-271 | every ledger the store accepts is accepted by preflight, which returns exactly the undecided proposals in frame order |
| `Preflight.ParsesExactly` | src/intent_engineering/intent_workflow/preflight.py:233-271 | preflight accepts a ledger if and only if each frame is valid and numbered, proposals are new, and each decision is the first on an earlier proposal whose digest and baseline it names |
| `Preflight.UndecidedExactly` | src/intent_engineering/intent_workflow/preflight.py:233-271 | its result is the ledger's proposals in frame order without those that some decision frame names |
| `WriteModels.AuthenticatedAliases` | src/intent_engineering/mutations/authorization.py:21-70 | the approver's aliases, when granted, are disjoint from the creator's aliases and from all conflicting authors |
| `WriteModels.Approve` | src/intent_engineering/mutations/approval.py:24-103 | an issued approval is valid, names the plan, is independent of its creator and authors, and lies inside the plan's lifetime |
| `WriteOutcomes.ApprovedExactly` | src/intent_engineering/mutations/approval.py:24-103 | an approval is issued if and only if the plan is valid, confirmed and inside its window and the approver is independent; it then lasts the requested time or to the end of the plan, whichever is earlier |
| `WriteOutcomes.AliasesExactly` | src/intent_engineering/mutations/authorization.py:21-70 | aliases are granted if and only if creator and approver hold their roles, are bound to the profile and registered with all their principals, and share no alias with each other or with a conflicting author |
| `WriteOutcomes.ValidExactly` | src/intent_engineering/mutations/models.py:190-306 | which plans and approvals are valid, fifteen minutes in microseconds included |
| `WriteExecution.NextInv` | src/intent_engineering/mutations/executor.py:359-575 | every step of every process keeps the claim, request, call, evidence and receipt invariants |
| `WriteExecution.RunInv` | src/intent_engineering/mutations/executor.py:359-575 | so does every interleaving, crashes at any step included |
| `WriteExecution.AtMostOneCall` | src/intent_engineering/mutations/executor.py:391-470 | in every run two provider calls belong to different (plan, approval) pairs |
| `WriteExecution.EveryCallAuthorized` | src/intent_engineering/mutations/executor.py:204-293 | every provider call is by the approver inside the approval window, less than fifteen minutes after the plan, with aliases disjoint from creator and conflicting authors; under the policy in force at execution both alias sets are current and creator, approver and executor hold their roles |
| `WriteExecution.SuccessIsProven` | src/intent_engineering/mutations/executor.py:400-575 | a success receipt implies the target matched the preview, then the call, then `after` at an advanced version, in that order |
| `WriteExecution.ReceiptsAgree` | src/intent_engineering/mutations/executor.py:359-400 | executors that return a receipt for one (plan, approval) return the same one; that a recorded receipt is returned is `WriteOutcomes.ReplayReturns` and `WriteOutcomes.ContenderReturns` |
| `WriteExecution.AmbiguousNeverRetried` | src/intent_engineering/mutations/executor.py:359-575 | once the claiming attempt has ended, no continuation ever adds a provider call for that pair |
| `WriteExecution.AttemptSucceeds` | src/intent_engineering/mutations/executor.py:359-575 | conversely, from any state, a valid unclaimed request inside its window that meets the expected answers ends with its success receipt recorded and returned after exactly one call |
| `WriteOutcomes.ReplayReturns` | src/intent_engineering/mutations/executor.py:378-390 | from any state, a valid request whose plan and approval have a receipt returns that receipt, inside its window or not, and leaves log, claims and receipts as they were |
| `WriteOutcomes.ContenderReturns` | src/intent_engineering/mutations/executor.py:413-428 | an executor that lost the claim returns the receipt recorded meanwhile |
| `WriteOutcomes.ContenderGivesUp` | src/intent_engineering/mutations/executor.py:413-428 | one that finds none ends unavailable |
| `WriteOutcomes.ReplayAfterSuccess` | src/intent_engineering/mutations/executor.py:359-575 | executing again after a success, under any valid request for the same pair, returns that success receipt without a second call |
| `WriteOutcomes.RefusedEarly` | src/intent_engineering/mutations/executor.py:359-398 | an invalid request, or one outside its window without a receipt, ends unavailable before anything is claimed |
| `WriteOutcomes.StoreFailureEnds` | src/intent_engineering/mutations/executor.py:134-171 | a store failure in any phase ends the attempt unavailable without a call; a claim or receipt written all the same stands, and nothing else is |
| `WriteOutcomes.ChangedTargetRejected` | src/intent_engineering/mutations/executor.py:429-488 | a target that no longer matches the preview is a recorded rejection without a call |
| `WriteOutcomes.UnfetchedTargetFails` | src/intent_engineering/mutations/executor.py:429-458 | a target that cannot be fetched is a recorded failure without a call |
| `WriteOutcomes.RefusedCallFails` | src/intent_engineering/mutations/executor.py:489-524 | a call that is refused or does not advance the version is a recorded failure after exactly that call |
| `WriteOutcomes.UnconfirmedCallAmbiguous` | src/intent_engineering/mutations/executor.py:525-547 | after an accepted call, a target that does not show the planned result leaves no receipt and an ambiguous end |
| `WriteOutcomes.CrashEnds` | src/intent_engineering/mutations/executor.py:359-575 | a crash ends an attempt with what it has done so far: nothing it is sent afterwards changes anything |
| `WriteOutcomes.RequestValidExactly` | src/intent_engineering/mutations/executor.py:204-293 | a request is valid if and only if the approval is the executor's own, of this plan, with the aliases registered now, every role is held now and the call is bound to the profile |
| `Capabilities.AuthorizationIssuer.constructor` | src/intent_engineering/intent_workflow/authorization.py:286-300 | a fresh registry is empty and safe |
| `Capabilities.AuthorizationIssuer.IssueToken` | src/intent_engineering/intent_workflow/authorization.py:369-475 | eviction, capacity, collision retries and interruption, with the whole new registry |
| `CapabilityFacts.IssuedExactly` | src/intent_engineering/intent_workflow/authorization.py:301-475 | a token is minted if and only if the preflight is fit, nothing interrupts, the grants still alive leave room and one of the first four draws is free; its grant is bound to the preflight for five minutes, every grant still alive is kept and no other appears |
| `Capabilities.AuthorizationIssuer.VerifyToken` | src/intent_engineering/intent_workflow/authorization.py:477-581 | authorized exactly when the call is presentable and a live grant of the token permits it; expired exactly when that grant's lifetime is over; only an expired grant disappears, every other grant is untouched |
| `CapabilityFacts.ReasonsExactly` | src/intent_engineering/intent_workflow/authorization.py:477-581 | which reason a verification gives: the first binding that does not match, written out over call and grant |
| `Capabilities.AuthorizationIssuer.ConsumeToken` | src/intent_engineering/intent_workflow/authorization.py:588-654 | the grant is removed before a re-entrant action runs, and the whole new registry follows |
| `CapabilityFacts.ConsumedExactly` | src/intent_engineering/intent_workflow/authorization.py:588-654 | the action runs if and only if the call is authorized, on the registry without the grant; otherwise at most an expired grant disappears |
| `Capabilities.AuthorizationIssuer.RevokeToken` | src/intent_engineering/intent_workflow/authorization.py:656-667 | afterwards the token has no grant, in a safe registry even an ill-formed one, and every other grant is untouched |
| `Capabilities.EveryRunSafe` | src/intent_engineering/intent_workflow/authorization.py:369-436 | after any sequence of operations under any clocks, re-entrant actions included, grants stay within capacity and keyed by their own digest, every action matched all its bindings, and actions plus live grants never exceed mintings |
| `Capabilities.OneActionPerToken` | src/intent_engineering/intent_workflow/authorization.py:610-630 | a token minted once runs at most one action over the whole run |
| `Capabilities.AuthorizedExactly` | src/intent_engineering/intent_workflow/authorization.py:517-581 | a call is authorized if and only if it is well formed and matches every binding of a live grant |
| `Capabilities.IssuedRunsOnce` | src/intent_engineering/intent_workflow/authorization.py:588-654 | a token just issued starts the preflighted action exactly when its five minutes are not over, whatever the action does; through any operations that do not mint it again it runs nothing more and a further use changes nothing |
| `Capabilities.ApplyAllStaysDead` | src/intent_engineering/intent_workflow/authorization.py:517-557 | a token without a grant stays without one and runs nothing unless it is minted again |
| `Capabilities.ObservedExpiryIsPermanent` | src/intent_engineering/intent_workflow/authorization.py:517-557 | once seen expired, a token is dead under any later clocks |
| `Capabilities.RevokedIsDead` | src/intent_engineering/intent_workflow/authorization.py:656-667 | revocation leaves no grant even for an ill-formed token |
| `Capabilities.Evaluate` | src/intent_engineering/intent_workflow/post_task.py:362-444 | on every way out the token is dead; a recorded result means both verifications held and the commit ran inside the consumed capability |
| `WebAuthnLedgers.DecodeChallenges` | src/intent_engineering/control_plane/webauthn_store.py:214-252 | the line loop computes the fold over issued and consumed frames |
| `WebAuthnFacts.ChallengesExactly` | src/intent_engineering/control_plane/webauthn_store.py:214-252 | a challenge ledger is readable if and only if each frame is well formed, lives at most five minutes, and issues a new challenge or consumes a live one of the ledger |
| `WebAuthnLedgers.ConsumedOnce` | src/intent_engineering/control_plane/webauthn_store.py:214-252 | in every decodable ledger a consumption follows its own issue, lies in the half-open lifetime, and no challenge is consumed twice |
| `WebAuthnFacts.ConsumableExactly` | src/intent_engineering/control_plane/webauthn_store.py:282-327 | a challenge can be consumed if and only if it was issued, no frame consumed it and the time lies in its half-open lifetime |
| `WebAuthnLedgers.GroupRecords` | src/intent_engineering/control_plane/webauthn_service.py:371-376 | the grouping loop partitions the records by credential, or reports a foreign project or repository |
| `WebAuthnLedgers.SelectNewest` | src/intent_engineering/control_plane/webauthn_service.py:377-393 | succeeds exactly when no history is ambiguous, with the greatest counter of each of the actor's credentials |
| `WebAuthnFacts.CurrentExactly` | src/intent_engineering/control_plane/webauthn_service.py:371-393 | current credentials exist if and only if every record is the site's and each credential has one identity and one record with its greatest counter; they are those records of the actor |
| `WebAuthnLedgers.CurrentIsLast` | src/intent_engineering/control_plane/webauthn_service.py:371-392 | on agreeing histories with increasing counters the current credentials are exactly the actor's last appended records |
| `WebAuthnService.Service.OptionsForAuthentication` | src/intent_engineering/control_plane/webauthn_service.py:532-556 | issues one challenge bound to actor and payload digest, or changes nothing |
| `WebAuthnFacts.OptionsExactly` | src/intent_engineering/control_plane/webauthn_service.py:532-556 | options are issued if and only if the payload is live, the actor has a credential and the challenge is new; the challenge lives five minutes |
| `WebAuthnService.Service.RegisterCredential` | src/intent_engineering/control_plane/webauthn_service.py:431-485 | consumes the challenge and appends one record, or changes nothing |
| `WebAuthnFacts.RegisteredExactly` | src/intent_engineering/control_plane/webauthn_service.py:431-485 | a credential is registered if and only if the response was user-verified, for a live registration challenge of the actor, and no record has that credential; the new record in full |
| `WebAuthnFacts.CredentialsRegistered` | src/intent_engineering/control_plane/webauthn_service.py:431-485 | every credential record of a run goes back to a register operation of the same actor with a user-verified response |
| `WebAuthnService.Service.VerifyDecision` | src/intent_engineering/control_plane/webauthn_service.py:588-650 | consumes the challenge, applies the counter rule of section 6.1.1 of Web Authentication Level 2 and appends the advanced record, or changes nothing; when it verifies is the next row |
| `WebAuthnFacts.VerifiedExactly` | src/intent_engineering/control_plane/webauthn_service.py:576-650 | in every reachable state a decision is verified if and only if the response was user-verified, inside both lifetimes, for a live challenge issued for this payload, by a credential whose last record is the actor's and whose counter advances or stays zero; the new state in full |
| `WebAuthnFacts.DecisionsRest` | src/intent_engineering/control_plane/webauthn_service.py:588-650 | every verified decision of a run comes from a verify operation with such a response, whose challenge an earlier options operation issued for the payload less than five minutes before |
| `WebAuthnService.EveryRunKeeps` | src/intent_engineering/control_plane/webauthn_store.py:214-327 | over every run both ledgers stay decodable, credential histories agree with strictly increasing counters, and each verified decision spent its own challenge issued for its actor and digest |
| `WebAuthnService.VerifiedOnce` | src/intent_engineering/control_plane/webauthn_service.py:588-643 | no decision payload is verified twice in any run |
| `WebAuthnService.IssuedVerifiesOnce` | src/intent_engineering/control_plane/webauthn_service.py:532-643 | from any reachable state, after options were issued, an acceptable response inside both lifetimes is verified, and after any further ceremonies no response for that payload is |
| `WebAuthnService.CurrentNeverAmbiguous` | src/intent_engineering/control_plane/webauthn_service.py:371-392 | in every reachable state the current credentials exist and are the last appended ones |
| `WebAuthnService.CounterNeverCollides` | src/intent_engineering/control_plane/webauthn_service.py:611-643 | the record id of an advanced counter is never already taken |
| `ExactJson.AcceptsLeaf` | src/intent_engineering/control_plane/http_models.py:49-87 | what one leaf on the stack adds to acceptance: depth, node and byte budgets |
| `Utf8.RoundTrip` | src/intent_engineering/control_plane/http_models.py:63-80 | the UTF-8 encoding of every encodable text, written as lead and continuation bytes, decodes to that text |
| `ExactJson.ChargesEncoding` | src/intent_engineering/control_plane/http_models.py:63-80 | what the check charges for a string or key is the number of bytes of that encoding |
| `ExactJson.AcceptsRef` | src/intent_engineering/control_plane/http_models.py:52-77 | replacing a container by its children keeps acceptance, in both directions |
| `ExactJson.PopLeaving` | src/intent_engineering/control_plane/http_models.py:44-48 | removing a left container from `active` never fails |
| `ExactJson.VisitEntries` | src/intent_engineering/control_plane/http_models.py:60-68 | the key loop succeeds exactly when all keys are legal strings within the node and byte budgets |
| `ExactJson.RequireExactJson` | src/intent_engineering/control_plane/http_models.py:24-96 | on every finite object graph, cyclic ones included, the loop ends and accepts exactly unshared trees with string keys and legal leaves within the depth and node bounds, whose strings and keys have UTF-8 encodings within the byte bound |
| `ExactJsonFacts.AcceptedPaths` | src/intent_engineering/control_plane/http_models.py:24-96 | every value an accepted graph reaches is at most 128 levels deep and an exact built-in with encodable keys, and no container is reached along two paths |
| `ExactJsonFacts.LeafAccepted` | src/intent_engineering/control_plane/http_models.py:78-87 | a single value is accepted exactly when it is a scalar of JSON, a finite float, or a text whose encoding fits in the byte bound |
| `ExactJsonFacts.FlatAccepted` | src/intent_engineering/control_plane/http_models.py:49-87 | a container of scalars is accepted if and only if its keys and values are legal, one node and one for each key and value fit in the node bound, and the encoding of all its keys and strings fits in the byte bound |
| `ExactJsonFacts.TextCharged` | src/intent_engineering/control_plane/http_models.py:60-82 | for any accepted shape the bytes charged are the length of the UTF-8 encoding of all its keys and strings together |
| `ContextGraph.BuildNeighbours` | src/intent_engineering/context/provider.py:281-291 | the edge loop builds exactly the undirected adjacency of active edges between the given nodes |
| `ContextGraph.TwoHopsIsDistance` | src/intent_engineering/context/provider.py:281-302 | two hops are exactly the nodes with a walk of at most two edges from a seed |
| `ContextGraph.Expand` | src/intent_engineering/context/provider.py:281-302 | the queue search returns exactly the nodes at undirected distance at most two |
| `ContextGraph.ReachesImplementation` | src/intent_engineering/intent_workflow/assurance.py:519-533 | true exactly when that set without the start meets the implementation nodes |
| `Ranking.RankedInOrder` | src/intent_engineering/context/provider.py:212-213 | the ranking is strictly ordered by descending score, then identifier |
| `Ranking.CutKeeps` | src/intent_engineering/context/provider.py:359-369 | when a part ranks before the rest, a cut keeps all of it exactly when it is long enough |
| `ContextPack.EvidenceScores` | src/intent_engineering/context/provider.py:398-414 | the nested loops build the map of maxima |
| `ContextRefs.MaximaAreMaxima` | src/intent_engineering/context/provider.py:398-414 | that map lists exactly the references held, each with the greatest score of its holders |
| `ContextPack.Build` | src/intent_engineering/context/provider.py:175-279 | the whole pack, search and maxima run as loops, equals its specification, failures included; what the specification shows the actor is `ContextAccess` and how it lists it is `ContextFacts` |
| `ContextFacts.SeedsExactly` | src/intent_engineering/context/provider.py:175-212 | where a search starts: shared words for a query, the node asked for, or all exact references or none |
| `ContextFacts.GroupListed` | src/intent_engineering/context/provider.py:213-240 | each group lists the best ranked of the selected visible nodes of its types, as many as the limits allow, with their own fields |
| `ContextFacts.CasesListed` | src/intent_engineering/context/provider.py:304-316 | the cases are the best ranked of the open readable ones that touch the selection, scored by the nodes they affect |
| `ContextFacts.EvidenceListed` | src/intent_engineering/context/provider.py:398-421 | the evidence list is the best ranked of the references that listed nodes and cases hold, each by the greatest score of its holders |
| `ContextFacts.WarningsListed` | src/intent_engineering/context/provider.py:423-434 | the pack warns exactly of listed nodes, best ranked first |
| `ContextNoninterference.DeletionRestricts` | src/intent_engineering/context/provider.py:76-87 | deleting unreadable items one by one restricts a last-wins dictionary if and only if no unreadable item supersedes a readable one |
| `ContextNoninterference.LastingRestricts` | src/intent_engineering/context/provider.py:76-87 | deleting them together with the older versions they replaced always does |
| `ContextNoninterference.Noninterference` | src/intent_engineering/context/provider.py:175-357 | for every valid graph and all sequences of cases and records, deleting every node, incident edge, case and evidence record the actor may not read, with the versions they replaced, leaves the result unchanged: groups, ranking, caps, cases, evidence references, warnings and refusals |
| `ContextNoninterference.StoredNeverSuperseded` | src/intent_engineering/storage/jsonl/case_store.py:50-80 | in a world read from the stores no unreadable version replaced a readable one, for any actor |
| `ContextNoninterference.StoredNoninterference` | src/intent_engineering/context/provider.py:175-357 | over such worlds plain record-wise deletion leaves the result unchanged, for every request |
| `ContextNoninterference.SupersededCaseSurfaces` | src/intent_engineering/context/provider.py:76-87 | a bare pair of case versions, which the case store refuses, on which record-wise deletion alone changes the pack |
| `ContextRefs.GroupKept` | src/intent_engineering/context/provider.py:359-369 | requested nodes of one group all survive the cap exactly when they fit in it |
| `ContextRefs.ForRefs` | src/intent_engineering/context/provider.py:111-173 | succeeds exactly when ids and actor are well formed, all ids are active and visible, each has one of the seven groups and no group's requested count exceeds its effective cap; then returns the whole pack with every requested node |
| `ContextRefs.PackIsReadable` | src/intent_engineering/context/provider.py:304-357 | every returned node is active and readable, and every evidence reference in an item or in the list names a record that passes the access rule; the rule itself is `ContextAccess.PermittedExactly` |
| `ContextAccess.PermittedExactly` | src/intent_engineering/context/provider.py:326-357 | a reference passes the access rule if and only if it names a stored record, in its current version, whose scope fits and whose access list is empty, holds the principal's name or meets the principal set |
| `ContextAccess.PackCitesPermitted` | src/intent_engineering/context/provider.py:175-279 | every evidence reference of a pack, in items, cases and list, names such a record |
| `ContextAccess.VisibleExactly` | src/intent_engineering/context/provider.py:318-338 | in a valid graph the visible nodes are exactly the active ones all of whose references name such records |
| `ContextAccess.ExcludedIsInvisible` | src/intent_engineering/context/provider.py:175-357 | non-interference over access lists: deleting everything they withhold from the actor leaves the whole result unchanged |
| `ContextRefs.NamesOnlyReadable` | src/intent_engineering/context/provider.py:304-390 | a pack names only active readable nodes, in items, warnings and case subjects, if and only if the subject of every case it shows is one: the step to the two results below |
| `ContextRefs.VisibleSubjectsSuffice` | src/intent_engineering/context/provider.py:304-316 | when every stored open readable case that touches a visible node has a visible subject, no request of the actor yields a pack that names a hidden node |
| `ContextRefs.HiddenSubjectSurfaces` | src/intent_engineering/context/provider.py:304-316 | a stored case that violates this is named when one of the visible nodes it affects is asked for by itself and the case list is not cut short |
| `ContextRefs.NamesHiddenExactly` | src/intent_engineering/context/provider.py:304-390 | both halves: asking for single visible nodes never names a hidden node if and only if that condition on the stored cases holds, and then no request does |
| `ContextRefs.HiddenSubjectNamed` | src/intent_engineering/context/provider.py:304-390 | a concrete pack that names a hidden node as the subject of a case |
| `Chronology.RecordsAreCurrent` | src/intent_engineering/reconcile/evidence_detection.py:196-213 | the loops decide whether every record is ingested and never superseded on its connector |
| `Chronology.RecordOrderAntisymmetric` | src/intent_engineering/reconcile/evidence_detection.py:216-245 | swapping the records reverses their order |
| `Chronology.SideOrderAntisymmetric` | src/intent_engineering/reconcile/evidence_detection.py:248-258 | swapping the sides reverses their order |
| `Chronology.EarlierIsNotCurrent` | src/intent_engineering/reconcile/evidence_detection.py:196-245 | a record ordered before another version of its object is not current, in any log that files the later one under its own object |
| `Chronology.CurrentOrder` | src/intent_engineering/reconcile/evidence_detection.py:196-245 | against a current record, in a log that files the other record under its own object, AFTER holds exactly for another object observed strictly later |
| `DriftFacts.RecordOrderExactly` | src/intent_engineering/reconcile/evidence_detection.py:216-245 | versions of one source object are ordered as every connector that ingested both agrees, other records by observation time |
| `DriftFacts.CurrentExactly` | src/intent_engineering/reconcile/evidence_detection.py:196-213 | a record is current if and only if it was ingested and no connector that did ingested its object again later |
| `Chronology.MisfiledVersionLooksCurrent` | src/intent_engineering/reconcile/evidence_detection.py:196-245 | a bare log that files a version under another object, which the store refuses, defeats it |
| `EvidenceStore.ParseLines` | src/intent_engineering/storage/jsonl/evidence_store.py:40-88 | the line loop computes the fold with its sequence, association, predecessor and identifier checks |
| `EvidenceStore.ReadableExactly` | src/intent_engineering/storage/jsonl/evidence_store.py:40-88 | a file is readable if and only if every line agrees with the earlier records of its identifier and every association is numbered after its connector's last, new to it, and names that connector's last observation of the object |
| `EvidenceStore.ReadableIsConsistent` | src/intent_engineering/storage/jsonl/evidence_store.py:84-87 | in every readable file one identifier names one record, over records and associations together |
| `EvidenceStore.LedgersNumbered` | src/intent_engineering/storage/jsonl/evidence_store.py:58-78 | in every readable file each connector's ledger is numbered from one and associates a record at most once |
| `EvidenceStore.CurrentIsNewest` | src/intent_engineering/reconcile/evidence_detection.py:196-213 | over the store's whole log a record is current if and only if some connector associates it and it is the newest version of its object for every connector that does |
| `EvidenceStore.JsonlEvidenceStore.Put` | src/intent_engineering/storage/jsonl/evidence_store.py:149-162 | refuses exactly the conflicting records, appends exactly the unknown ones, keeps every record and association, and the file stays readable |
| `EvidenceStore.JsonlEvidenceStore.Associate` | src/intent_engineering/storage/jsonl/evidence_store.py:164-192 | refuses exactly the conflicting records, else extends the connector's ledger by the next association unless it is there, and the file stays readable |
| `EvidenceDrift.StoredLogAgrees` | src/intent_engineering/storage/jsonl/evidence_store.py:84-87 | records and ingestions read from the store agree about every record's object |
| `CaseStore.ParseVersions` | src/intent_engineering/storage/jsonl/case_store.py:83-117 | the version loop computes the fold of `_record_version` |
| `CaseStore.VersionsExactly` | src/intent_engineering/storage/jsonl/case_store.py:50-117 | a file of versions is readable if and only if every version uses its own case's fingerprint and repeats the last version of its case or records exactly one status change after it |
| `CaseStore.LatestIsDictionary` | src/intent_engineering/storage/jsonl/case_store.py:83-117 | the store's latest versions are the provider's dictionary of the same versions |
| `CaseStore.IdentityNeverChanges` | src/intent_engineering/storage/jsonl/case_store.py:50-80 | accepted versions of one case differ only in status and history |
| `CaseStore.HistoryGrows` | src/intent_engineering/storage/jsonl/case_store.py:50-117 | a later version of a case keeps every recorded change of an earlier one, and as many changes mean the same version |
| `EvidenceDrift.ResolveSide` | src/intent_engineering/reconcile/evidence_detection.py:153-193 | the resolution loop equals its specification, refusals included |
| `DriftFacts.ReferenceExactly` | src/intent_engineering/reconcile/evidence_detection.py:125-150 | a reference resolves exactly to the declaring record itself or to the only record it names |
| `DriftFacts.SideExactly` | src/intent_engineering/reconcile/evidence_detection.py:153-193 | a side resolves exactly when its references are different and resolve to different readable records with an author and its claimed currency is true; what it then shows |
| `EvidenceDrift.InputFromRecord` | src/intent_engineering/reconcile/evidence_detection.py:269-349 | the sides, the overlap and version checks and the five derived orders equal their specification |
| `DriftFacts.DeclaredExactly` | src/intent_engineering/reconcile/evidence_detection.py:269-349 | a record yields an input with given sides exactly when it declares them, they share no record and declared versions agree with the derived orders |
| `DriftFacts.InputExactly` | src/intent_engineering/reconcile/evidence_detection.py:269-349 | the input repeats the declaration with the sides and exactly the comparisons whose two sides exist |
| `EvidenceDrift.LagIsLapse` | src/intent_engineering/reconcile/detectors.py:132-222 | on evidence read from the store each lag detector fires if and only if every ordered pair of records is of different objects and strictly ordered by observation time (with the other stated conditions) |
| `EvidenceDrift.EveryLagIsShown` | src/intent_engineering/reconcile/evidence_detection.py:379-402 | every lag observation of a whole run over stored evidence carries sides whose records are of different objects and strictly later |
| `EvidenceDrift.DetectEvidenceDrift` | src/intent_engineering/reconcile/evidence_detection.py:379-402 | nothing when one identifier names two records, else exactly the selection from all declared comparisons |
| `Detectors.DetectDrift` | src/intent_engineering/reconcile/detectors.py:264-273 | the loop returns the first firing detector's observation, if any |
| `DriftFacts.ConflictingExactly` | src/intent_engineering/reconcile/detectors.py:114-129 | conflicting sources are reported if and only if contradicting declarations have at least two roles with current explicit positions by at least two authors |
| `DriftFacts.OthersExactly` | src/intent_engineering/reconcile/detectors.py:225-262 | undocumented code and ambiguous divergence, over the declaration and the sides that exist; no other detector fires |
| `DriftFacts.ReportExactly` | src/intent_engineering/reconcile/detectors.py:74-112 | what each detector reports: subject, affected nodes, its own sides in order and the fingerprint of these |
| `Selection.SelectDriftObservations` | src/intent_engineering/reconcile/evidence_detection.py:366-376 | stable sort, `setdefault` and final sort yield exactly the best candidate of each subject by fingerprint |
| `Selection.OneLeastPerSubject` | src/intent_engineering/reconcile/evidence_detection.py:352-376 | a selection has one candidate for each subject present, and no candidate about it beats it |
| `Selection.SelectionUnique` | src/intent_engineering/reconcile/evidence_detection.py:366-376 | that specification determines the output |
| `Selection.SelectIdempotent` | src/intent_engineering/reconcile/evidence_detection.py:366-376 | selecting again changes nothing |
| `Selection.SelectDistributes` | src/intent_engineering/reconcile/evidence_detection.py:366-376 | select(a + b) = select(select(a) + select(b)) |
| `Selection.FirstMatchIsSelection` | src/intent_engineering/reconcile/detectors.py:254-273 | selecting from all firing detectors of one input is exactly the first-match result |
| `Assurance.DetectAssurance` | src/intent_engineering/intent_workflow/assurance.py:187-517 | the report is the selection of all findings minus what existing cases cover |
| `Assurance.ReportedExactly` | src/intent_engineering/intent_workflow/assurance.py:509-517 | an observation is reported exactly when it is its subject's best finding and no case has its subject or fingerprint |
| `Assurance.ReportedOnce` | src/intent_engineering/intent_workflow/assurance.py:509-517 | each subject is reported at most once, and never when a case is about it |
| `Assurance.Fixpoint` | src/intent_engineering/intent_workflow/assurance.py:187-517 | re-running after every returned observation became a case returns nothing |
| `Assurance.EveryGapSurfaces` | src/intent_engineering/intent_workflow/assurance.py:230-420 | every finding's subject is reported by a finding at least as precedent, unless a case covers it |
| `AssuranceFacts.GapsExactly` | src/intent_engineering/intent_workflow/assurance.py:256-308 | the gaps of a node over nodes and links of the snapshot: current intent no requirement is linked to, a current requirement no intent is linked to, and current code nothing explains |
| `AssuranceFacts.EdgeExactly` | src/intent_engineering/intent_workflow/assurance.py:310-347 | the findings on an edge: a requirement changed after the code that implements it, and explicit positions of different authors that contradict |
| `AssuranceFacts.TestsExactly` | src/intent_engineering/intent_workflow/assurance.py:349-390 | when the tests of a requirement lag behind its code |
| `AssuranceFacts.LateExactly` | src/intent_engineering/intent_workflow/assurance.py:392-420 | tentative intent within two links of code, and nodes whose evidence is not current |
| `AssuranceFacts.FindingsExactly` | src/intent_engineering/intent_workflow/assurance.py:187-420 | the candidates are exactly the findings on visible nodes and edges |
| `AssuranceFacts.VisibleExactly` | src/intent_engineering/intent_workflow/assurance.py:142-185 | a live node is visible if and only if it names its mode and confidence and cites evidence, all of it stored and readable with every version of its source objects, and some of it signed |
| `AssuranceFacts.ObscuredExactly` | src/intent_engineering/intent_workflow/assurance.py:187-235 | a visible node is obscured if and only if an active edge joins it to a live node the actor cannot see |
| `Assurance.ReportsReadable` | src/intent_engineering/intent_workflow/assurance.py:142-235 | a report is about a node with no hidden neighbour and cites only evidence the actor may read |

## Left out

- Byte-level JSON and YAML, SHA-256, base64, field coercion, string length and character limits, path and identity grammars.
- File locking, transactions with several files, and the graph and history writes made beside the ledger; they are atomic steps.
- `_open`, `_answer` and `_answer_evidence`: evidence validation and source-role checks; their ledger effect is `AppendClarification`.
- Risk review cases, activation changesets, and the graph, history and case part of `_authenticate_applied`; `Confirm` takes their verdict as `admissible`. A service built without authority preimages has no enclosing transaction and is not modelled.
- The cryptography of WebAuthn responses and the provider's transport; their results are arbitrary.
- Exception scrubbing, cancellation details and clearing of local variables.
- The reasoner of the assurance service and its grounding checks; front matter and schema parsing of declarations; blank authors, which the source rejects by raising.
- Command line, web server, rendering, bootstrap, local resolution, planner and committer: field-by-field guards that would add easy members.
- `for_task` and `for_symbol`: they only choose the arguments of `_build`, which `Build` covers.
- WriteExecution.EveryCallAuthorized: the window is checked against the `now` argument of the execution, as in the source, not against a clock read at the provider call.
- CaseStore.ParseVersions: the validator of a single case (allowed transitions, resolution fields) and the legacy migration are not modelled; they only refuse more.
- Selection.SelectDriftObservations: takes equal fingerprints to mean equal detector and subject, which holds for an injective hash.
- ExactJson.RequireExactJson: object graphs are finite heaps of lists and dictionaries with integer identities; subclasses of built-in types are one illegal leaf kind.
