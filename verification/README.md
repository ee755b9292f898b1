# Nulo wallet bridge and release tooling, verified

A Dafny model of the parts of Nulo whose correctness is hardest to see from the code: the capability
and authorization engine of `@nulo/wallet-bridge`, and the small algorithms and stateful protocols
around it. Each operation keeps the shape of the original: expressions and recursion are functions,
loops are methods with invariants, objects with mutable fields are classes. Every method is proved
against a specification function, and the theorems are about those functions.

**Capabilities and authorization.** A dApp sends a manifest of capabilities (`Capabilities`, `Projection`), the
bridge keeps the ones the stored grants do not cover (`Coverage`, `Negotiation`), a window answers,
and the answer is folded into one decision that the session writer applies (`Session`). Later calls
are judged by separate per-method checks (`ScopeCheckers`) inside the dispatcher's guard ladder
(`Dispatch`). The theorems: every checker permits exactly what the grants' fields say (`Permissions`),
coverage and enforcement agree (`Coverage`, `CoverageExact`, `CoverageFields`), the delta holds exactly
what there is a reason to ask about (`Deltas`), negotiation converges (`Convergence`), any answer
whatever respects the plan (`NegotiationProofs`), the row it leaves is known field by field
(`WrittenRow`), a fresh consent is effective exactly under a stated condition (`FreshConsent`), consent
and membership are safe over every interleaving of writes (`SessionRuns`), every call that reaches a
service is guarded at any batch nesting depth (`DispatchProofs`) and is exactly the one the message and
the row call for (`DispatchExact`), and silent signatures trace back to consents (`SigningRuns`).

**Algorithms.** The chunk-cycle trimmer (`ChunkCycles`), move pairing and the complexity ratchet
(`Pairing`, `Ratchet`, `RatchetExact`), the SPDX tokenizer, parser and evaluator (`Spdx`, `SpdxLexing`), and the notices renderer
with its reader (`Notices`).

**Protocols.** The Chrome Web Store publish runner (`StoreVersion`, `StorePublish`, `PublishRun`),
the release auto-unstick runner (`Unstick`), the locked-wallet discovery queue (`DiscoveryQueue`, `DiscoveryCaps`),
the legal-acceptance record (`Legal`) and the external-id token table (`ExternalId`).

Outside services are arbitrary. The session row a read returns, the wallet's accounts, the window's
answer, the store's HTTP answers, clocks and arrivals during a suspension are function-valued or
plain parameters, so each theorem holds for whatever they do. Values on the wire are JSON plus
`undefined` (`Wire`). A check that throws is a predicate that does not hold, or a `None`.

Where a natural property fails, the failing family is shown and the exact condition is proved:

- a requested `*` against a list holding the double wildcard: `DoubleWildcardAsksAgain`,
  `AnyScopeExactness`;
- contracts and simulation requests that ask again although they add nothing: `EmptyListAsksAgain`,
  `ContractsCoverageExact`, `SplitUtilitiesAskAgain`, `SimulationAddsExactly`;
- a consent given while a stored grant is hidden from its view: `HiddenConsentFails`,
  `FreshConsentExact`;
- an approval the writer refuses: `ConsentAloneIsRefused`, `WriterRefusesExactly`;
- arrivals and further drains during a suspended drain: `InterruptedDrainOverflows`,
  `OverlappingDrainsOverflow`, `RunsKeepCapsExactly`;
- processing that throws during a drain: `ThrowLosesTheRest`, `NothingLostExactly`;
- duplicated manifest entries: `DuplicatesEscape`, `CountsNeverGrowExactly`;
- paths that continue one another with the identity's separator: `DashCollision`,
  `CollidesExactly`, `TrimmedCollidesExactly`, `DiffDecidesExactly`;
- a creating run cut between relabelling and releasing: `CutNeverHeals`, `RerunHealsExactly`.

`dafny verify dfyconfig.toml` checks the whole project.

## Model

| member | source | states |
|---|---|---|
| `Coverage.CoverageSound` | packages/wallet-bridge/src/dispatcher.ts:210-283 | For transaction, simulation, contracts and data requests: if every scoped capability of a manifest is judged covered by the stored grants, then every call, multi-call transactions included, that the checkers permit under the manifest alone is permitted under the stored grants |
| `Coverage.PermittedByOne` | packages/wallet-bridge/src/method-scope-checkers.ts:62-210 | What permits a call under a whole manifest is a single capability of the required type: grants are never combined |
| `Coverage.MatchesIsMonotone` | packages/wallet-bridge/src/method-scope-checkers.ts:38-57 | A covering scope matches every contract and function the covered scope matches |
| `Permissions.PermitsExactly` | packages/wallet-bridge/src/method-scope-checkers.ts:38-387 | For every method, arguments and well-formed grants: the checkers permit the call if and only if the grants' fields allow it: a transaction's calls all within one scope, by wildcard or the same 32-byte number and wildcard or the same name; listed addresses and flags for contracts, classes and data; the flags for accounts |
| `Permissions.AuthorizeExact` | packages/wallet-bridge/src/method-scope-checkers.ts:270-325 | `createAuthWit` is permitted if and only if a held accounts grant has `canCreateAuthWit` on with no list or one naming the account, the intent is a call or an inner hash (a raw hash never passes), and when any transaction or simulated-transaction scope is held one of them allows the call, or any function of the inner hash's consumer |
| `CoverageExact.ScopeCoversExact` | packages/wallet-bridge/src/dispatcher.ts:222-235 | On well-formed pattern lists `scopeCovers` holds if and only if every call on a real address that the requested list matches is matched by the existing scope |
| `CoverageExact.AnyScopeExactness` | packages/wallet-bridge/src/dispatcher.ts:222-235 | For a requested `*`: the existing scope matches every call if and only if coverage says so or the list holds the double wildcard, the one case coverage deliberately misses |
| `CoverageExact.DoubleWildcardAsksAgain` | packages/wallet-bridge/src/dispatcher.ts:222-235 | Every list with the double wildcard already matches every call and is still not taken to cover a requested `*` |
| `CoverageExact.ScopesExact` | packages/wallet-bridge/src/dispatcher.ts:222-240 | One list of witness calls, on a fresh function name and an unlisted address, is matched by the request and by no scope of a whole family that does not cover it |
| `CoverageExact.TransactionCoverageExact` | packages/wallet-bridge/src/dispatcher.ts:237-240 | A transaction request is covered if and only if granting it makes no new `sendTx` possible, single- or multi-call |
| `CoverageExact.UnionWouldBeUnsound` | packages/wallet-bridge/src/dispatcher.ts:237-240 | Two grants that each cover one requested pattern do not together permit the transaction that uses both, so judging by their union would be unsound |
| `CoverageFields.DataCoverageExact` | packages/wallet-bridge/src/dispatcher.ts:260-283 | A data request, whatever it lists, is covered if and only if granting it makes no new read of private events or the address book possible |
| `CoverageFields.ContractsCoverageExact` | packages/wallet-bridge/src/dispatcher.ts:207-220 | Granting a contracts request makes no new call possible if and only if it is covered or permits nothing: no flag set, or an empty address list |
| `CoverageFields.EmptyListAsksAgain` | packages/wallet-bridge/src/dispatcher.ts:703-716 | The gap: an empty address list beside an empty row is not covered and adds nothing |
| `CoverageFields.SimulationAddsExactly` | packages/wallet-bridge/src/dispatcher.ts:242-258 | For every request and row, granting a simulation request makes no new call possible if and only if a simulation grant is held, one grant covers all its transaction patterns (or matches everything, for `*`), and each utility pattern is covered by some grant |
| `CoverageFields.SimulationCoverageExact` | packages/wallet-bridge/src/dispatcher.ts:242-258 | On a row with at most one simulation grant, a request listing patterns is covered if and only if granting it makes no new simulation, profiling or utility call possible |
| `CoverageFields.SplitUtilitiesAskAgain` | packages/wallet-bridge/src/dispatcher.ts:242-258 | With two simulation grants that hold one utility pattern each, a request for both is not covered although every call of it is permitted: coverage wants one grant, enforcement judges utility calls one by one |
| `Deltas.AccountsCoveredExact` | packages/wallet-bridge/src/dispatcher.ts:285-293 | On a row with one grant per type an accounts request is covered if and only if an accounts grant is held and listing accounts and creating authorizations are each possible exactly when the request asks for it |
| `Deltas.DeltaExact` | packages/wallet-bridge/src/dispatcher.ts:506-533 | A requested capability is in the delta if and only if there is a reason to ask: an unknown type or contract classes rejected or not held; accounts not held, with other flags, or leaving a profile account out up to case; contracts with a flag and not covered; any other type not covered |
| `Deltas.WideningExact` | packages/wallet-bridge/src/dispatcher.ts:476-498 | Accounts are widened if and only if they are held and in the delta, membership only if and only if the flags already agree; accounts are offered if and only if they are in the delta |
| `FieldAddress.SameIsNumericEquality` | packages/wallet-bridge/src/field-address.ts:7-29 | `sameFieldAddress` holds if and only if both spellings are well-formed 64-digit hex and name the same number |
| `FieldAddress.HexValueExact` | packages/wallet-bridge/src/field-address.ts:7-29 | Hex numerals of one width are equal as numbers if and only if they are equal up to case |
| `FieldAddress.UnlistedAddress` | packages/wallet-bridge/src/field-address.ts:7-29 | Any list shorter than the field leaves a well-formed address that no entry names |
| `Capabilities.ProjectEmbed` | packages/wallet-bridge/src/dispatcher.ts:321-425 | Projecting the wire form of a well-formed capability gives it back: what a window echoes unchanged is stored unchanged |
| `Capabilities.ProjectWellFormed` | packages/wallet-bridge/src/dispatcher.ts:321-425 | Whatever the wire carried, what projection lets through is well-formed, keeps its type, and projecting it again changes nothing |
| `Projection.ProjectsExactly` | packages/wallet-bridge/src/dispatcher.ts:321-425 | A wire capability projects to a capability if and only if its fields describe it: flags absent or boolean, `*` or lists of addresses and patterns entry by entry, an alias that is not text dropped, a data capability asking for something; anything else is refused |
| `Negotiation.ProjectRequested` | packages/wallet-bridge/src/dispatcher.ts:426-439 | The loop accepts a manifest exactly when every entry projects and no known type is named twice, and returns the projections in order |
| `Negotiation.ProjectAllProper` | packages/wallet-bridge/src/dispatcher.ts:426-439 | An accepted manifest keeps its length, is well-formed throughout and names each known type at most once |
| `Negotiation.CollectNewGrants` | packages/wallet-bridge/src/dispatcher.ts:656-690 | The grant loop returns the extras the answer adds followed by one replacement per approved type, or fails exactly when some entry it reads does not project |
| `Negotiation.CollectAliases` | packages/wallet-bridge/src/dispatcher.ts:609-636 | The alias loop builds the patch of the accepted accounts and writes no other key |
| `NegotiationProofs.StoresOnlyProjected` | packages/wallet-bridge/src/dispatcher.ts:546-578 | For any answer whatever, only well-formed projected capabilities are stored, each of a type the answer names |
| `NegotiationProofs.AnswerPartitionsDelta` | packages/wallet-bridge/src/dispatcher.ts:546-578 | For any answer, approved and rejected types partition the delta's types |
| `NegotiationProofs.AddsOnlyOfferedAccounts` | packages/wallet-bridge/src/dispatcher.ts:609-636 | Added accounts are exactly the selected ones that were offered and are not held, in the wallet's spelling, one per identity; aliases are written only for them |
| `NegotiationProofs.MembershipOnlyKeepsGrant` | packages/wallet-bridge/src/dispatcher.ts:486-578 | A membership-only widening never changes the stored accounts grant, whatever the answer and whatever the row has become meanwhile |
| `NegotiationProofs.WriterRefusesExactly` | apps/extension/src/wallet/services/dapp-session/service.ts:341-384 | The writer refuses a decision planned against the row it finds if and only if the answer consents while neither the delta nor the row has an accounts grant |
| `WrittenRow.RejectionsWritten` | apps/extension/src/wallet/services/dapp-session/service.ts:341-384 | For any answer taken and any row found: a type of the delta is rejected afterwards if and only if the answer does not approve it, any other type if and only if it was before |
| `WrittenRow.ClosedWindowWritten` | packages/wallet-bridge/src/dispatcher.ts:1476-1492 | A closed window is never refused, leaves every type it asked about rejected, and changes neither accounts, aliases nor grants |
| `WrittenRow.GrantsWritten` | apps/extension/src/wallet/services/dapp-session/service.ts:341-384 | For any property of capabilities and any type: the row holds such a one afterwards if and only if the answer installs one, or the row held one and the answer does not replace the type |
| `WrittenRow.ConsentWritten` | packages/wallet-bridge/src/dispatcher.ts:592-607 | The consent afterwards: none without `canCreateAuthWit` or when declined; a given one is broad exactly when an any-contract scope was in view; no answer leaves the stored one |
| `WrittenRow.ConsentReadExactly` | packages/wallet-bridge/src/method-scope-checkers.ts:423-426 | A consent is read only from exactly an object with the one boolean field `broad` |
| `WrittenRow.AccountsWritten` | packages/wallet-bridge/src/dispatcher.ts:609-636 | Members afterwards are those before and the accounts added; an added account carries the last alias the answer gives it, spelling aside, and every other alias is as it was |
| `WrittenRow.MembersOnce` | apps/extension/src/wallet/services/dapp-session/service.ts:341-384 | Applying any decision to a row of distinct members keeps them in place and never makes an account a member twice |
| `WrittenRow.RefusedExactly` | apps/extension/src/wallet/services/dapp-session/service.ts:341-384 | Whatever row it finds, the writer refuses if and only if the row holds no accounts grant while the answer widens accounts, or consents without the delta asking for accounts |
| `FreshConsent.ConsentAloneIsRefused` | apps/extension/src/wallet/services/dapp-session/service.ts:341-384 | The refusal happens: an empty row, a requested transaction scope, and a window that approves nothing and consents |
| `Convergence.NegotiationConverges` | packages/wallet-bridge/src/dispatcher.ts:506-728 | Approving a whole delta as requested always gives a decision, which the writer refuses only for a consent without any accounts grant; applied, it keeps one well-formed grant per type, and the same manifest's next delta is empty when no offered account is left ungranted |
| `Convergence.ApprovedManifestPermits` | packages/wallet-bridge/src/dispatcher.ts:506-728 | Negotiation, writer and enforcement together: after a whole approval, which the writer refuses only for a consent without any accounts grant, every contracts, transaction, simulation or data call the manifest alone would permit is permitted by the stored row |
| `Deltas.ApprovedAccountsFlags` | packages/wallet-bridge/src/dispatcher.ts:506-728 | After a whole approval the row holds an accounts grant, and accounts may be listed and authorizations created exactly as the manifest asks |
| `Convergence.CoversItself` | packages/wallet-bridge/src/dispatcher.ts:700-728 | A grant list that holds a well-formed capability as the one of its type covers that capability |
| `Convergence.CoveredIsLocal` | packages/wallet-bridge/src/dispatcher.ts:700-728 | Coverage of a capability depends only on the stored grants of its own type |
| `Convergence.ReplacementIsRequested` | packages/wallet-bridge/src/dispatcher.ts:656-690 | Under a whole approval the stored record of an approved type is the requested capability: an echo of the old grant never wins |
| `Session.SessionStore.ApplyCapabilityDecision` | apps/extension/src/wallet/services/dapp-session/service.ts:341-384 | All or nothing against the row as it is now: accounts merged once each, grants replaced by type, approved types cleared and rejected ones recorded, and the consent dropped with `canCreateAuthWit` |
| `Session.SessionStore.SetAuthorizationsWithoutAsking` | apps/extension/src/wallet/services/dapp-session/service.ts:281-294 | Refused exactly for On without a grant that has `canCreateAuthWit`; Off deletes the consent; On stores one that is broad exactly when it was shown broad and an any-contract scope is held; nothing else changes |
| `Session.SessionStore.SetCapabilityGrants` | apps/extension/src/wallet/services/dapp-session/service.ts:296-307 | A rewrite of the grants drops the consent when `canCreateAuthWit` goes: a consent that stays is the old one, with `canCreateAuthWit` held |
| `Session.SessionStore.UpdateDappSession` | apps/extension/src/wallet/services/dapp-session/service.ts:235-246 | Replaces the account list outright and leaves grants, rejections, aliases and consent |
| `Session.SessionStore.SetAccountAliases` | apps/extension/src/wallet/services/dapp-session/service.ts:296-300 | Merges aliases into the row, the new ones winning, and changes nothing else |
| `Session.SessionStore.SetCapabilityRejections` | apps/extension/src/wallet/services/dapp-session/service.ts:315-319 | Replaces the rejected types and changes nothing else |
| `Session.CaipRoundTrip` | packages/wallet-bridge/src/caip.ts:24-50 | The address of a formatted account identifier reads back |
| `Session.CaipReadExactly` | packages/wallet-bridge/src/caip.ts:33-53 | An account identifier is read if and only if it is the namespace, a decimal chain id and a non-empty address without colons, joined by colons, and then as that address |
| `Session.SilentSigningJustified` | packages/wallet-bridge/src/method-scope-checkers.ts:405-440 | A covered intent under an effective consent is either under a broad consent or listed exactly by a held pattern |
| `FreshConsent.FreshConsentExact` | packages/wallet-bridge/src/dispatcher.ts:546-607 | With no write in between, a consent given in the window takes effect if and only if, over the row, the request and the answer alone: every entry read is well-formed, an accounts grant is asked for or held, the row will hold `canCreateAuthWit`, and no stored any-contract grant is hidden (its type rejected, outside the delta and answered all the same) unless another any-contract scope is shown |
| `FreshConsent.HiddenConsentFails` | packages/wallet-bridge/src/dispatcher.ts:592-607 | The failing family is inhabited: a row that may call any contract, with a later rejection of the type, and a window that adds a narrower grant and consents; the answer is taken, the row keeps `canCreateAuthWit`, and the consent signs nothing |
| `FreshConsent.MergedExactly` | packages/wallet-bridge/src/dispatcher.ts:546-578 | A decision exists, instead of an error, if and only if every answer entry of an approved or added type is well-formed |
| `FreshConsent.RecordsInstall` | packages/wallet-bridge/src/dispatcher.ts:656-690 | What a decision installs of a type, read off the answer: the chosen replacement when the type is replaced, every answered entry when it is only added, nothing otherwise |
| `FreshConsent.FreshConsentEffective` | packages/wallet-bridge/src/dispatcher.ts:546-607 | When the window answers only delta types and echoes, nothing is hidden: the consent takes effect if and only if the answer is taken and the row will hold `canCreateAuthWit` |
| `SessionRuns.MembershipOnlyOffered` | packages/wallet-bridge/src/dispatcher.ts:609-636 | Over every run of all the row's writers, an account that is a member at row n was one at row m, or an event in between offered it to the window or listed it in a rewrite of the account list |
| `SessionRuns.StoredStayWellFormed` | packages/wallet-bridge/src/dispatcher.ts:416-439 | Over every run each stored capability is one that projection accepts |
| `SessionRuns.BroadConsentProvenance` | packages/wallet-bridge/src/method-scope-checkers.ts:405-440 | A broad consent traces to the event that stored it: no broad consent before, asked for with an any-contract scope in view, stored, and kept by every row since |
| `SessionRuns.NarrowConsentStops` | packages/wallet-bridge/src/method-scope-checkers.ts:405-440 | Under every interleaving a narrow consent stops signing once the row holds an any-contract scope, until an event really stores a broad consent; one refused by the writer does not count |
| `SessionRuns.ConsentNeedsAuthWit` | apps/extension/src/wallet/services/dapp-session/service.ts:33-57 | Every write keeps a stored consent readable and paired with `canCreateAuthWit` |
| `SessionRuns.ConsentSafety` | packages/wallet-bridge/src/dispatcher.ts:1164-1201 | Over every run of a fresh session, an intent that may sign silently is listed exactly by a held pattern, or a broad consent was stored with an any-contract scope in view and is still stored by every row since; `canCreateAuthWit` is held |
| `DispatchProofs.DispatchMessage` | packages/wallet-bridge/src/dispatcher.ts:836-916 | The imperative dispatcher computes the specified run, and every call it lets through to a service is guarded |
| `DispatchProofs.HandleBatch` | packages/wallet-bridge/src/dispatcher.ts:1064-1101 | The batch loop refuses popup-gated legs up front, otherwise runs legs in order, collects results and stops at the first failure |
| `DispatchProofs.BatchIsItsLegs` | packages/wallet-bridge/src/dispatcher.ts:1078-1101 | A batch's effects are exactly those of its first k legs, where all legs returned or the k-th is the first that threw |
| `DispatchProofs.DispatchSafety` | packages/wallet-bridge/src/dispatcher.ts:836-916 | At any nesting depth every call that reaches a service is guarded by the row read at its own dispatch: type held, checker passed, account lists within the session, acting account in wallet and session and the one named, no `sendTx` or `registerToken` under a batch, silent signatures only under an effective consent and fence |
| `DispatchProofs.LegsSafety` | packages/wallet-bridge/src/dispatcher.ts:1078-1101 | The same for the legs of a batch, with each leg's row read strictly later than the one before |
| `DispatchProofs.RevocationStops` | packages/wallet-bridge/src/dispatcher.ts:1547-1600 | After the session is gone no method that needs a capability or an account reaches a service, not even from remaining legs of a running batch |
| `DispatchProofs.SilentSignatureJustified` | packages/wallet-bridge/src/dispatcher.ts:1164-1201 | A silent signature of any run is within a scope its row held, under a broad consent or an exactly listed contract |
| `DispatchExact.DispatchMakesExactly` | packages/wallet-bridge/src/dispatcher.ts:862-975 | A message other than a batch makes a given call if and only if its arguments are well-shaped, the row read at entry allows it field by field and holds every account it lists, and the call is the one its method makes, as the account it acts as, at the service it belongs to |
| `DispatchExact.GuardExact` | packages/wallet-bridge/src/dispatcher.ts:862-916 | The guard ladder passes if and only if the message is well-shaped and, unless exempt, the row's grants allow it and its account lists name session accounts only |
| `DispatchExact.ActingExact` | packages/wallet-bridge/src/dispatcher.ts:1760-1797 | The acting account is the wallet's, a session member on this chain and the one named; when none is named, the first such in wallet order; there is none exactly when no account qualifies |
| `DispatchExact.SessionAddressesExact` | packages/wallet-bridge/src/dispatcher.ts:1736-1742 | On a row of well-formed identifiers an address is the session's on a chain if and only if the row stores the identifier of that chain and address |
| `DispatchExact.AuthorizationsAreSignable` | packages/wallet-bridge/src/dispatcher.ts:1164-1201 | At any nesting depth, the row of every authorization that reaches a service holds an accounts grant that signs for the very account it is made as, and one of its call scopes, if it has any, allows what is authorized |
| `DispatchExact.EffectsAreAllowed` | packages/wallet-bridge/src/dispatcher.ts:862-916 | At any nesting depth every call that reaches a service is allowed by the fields of the grants in the row it was judged by |
| `DispatchExact.AccountsListed` | packages/wallet-bridge/src/dispatcher.ts:1009-1060 | `getAccounts` answers with exactly the wallet's accounts that are session members on the chain, and calls no service |
| `DispatchExact.FeaturesListed` | packages/wallet-bridge/src/dispatcher.ts:918-975 | `getWalletFeatures` answers `dapp-self-pay` to everyone, session or not, and calls no service |
| `DispatchExact.BatchRunsExactly` | packages/wallet-bridge/src/dispatcher.ts:1064-1101 | A batch runs its legs if and only if it is well-shaped and no leg is `sendTx` or `registerToken`; otherwise nothing of it runs |
| `DispatchExact.BatchAnswers` | packages/wallet-bridge/src/dispatcher.ts:1064-1101 | A batch returns if and only if every leg does, with one entry per leg in order, each the leg's name and result |
| `SigningRuns.SilentSignatureTraced` | packages/wallet-bridge/src/dispatcher.ts:1164-1201 | Dispatch and session runs together: when the rows read are rows of one run of a fresh session, each silently signed intent is listed exactly by its row, or signs under a broad consent that was stored and kept by every row up to the one read |
| `Dispatch.Resolve` | packages/wallet-bridge/src/account-resolution.ts:40-60 | The resolved account is in both wallet and session and is the requested one; without a request it is the first authorized in wallet order; None means there is none |
| `Dispatch.ActingAccount` | packages/wallet-bridge/src/dispatcher.ts:1760-1797 | An acting account is in the wallet's list and among the session's addresses on the chain, and equals the one a request names |
| `ChunkCycles.TrimPass` | apps/extension/scripts/chunk-cycle-guard.ts:9-24 | One pass over the chunks in any order keeps every self-supporting set inside, and a pass that trims nothing leaves a self-supporting set |
| `ChunkCycles.CyclicChunks` | apps/extension/scripts/chunk-cycle-guard.ts:9-24 | Returns, sorted and without repeats, the greatest set whose members each import and are imported by another member |
| `ChunkCycles.GreatestIsUnique` | apps/extension/scripts/chunk-cycle-guard.ts:9-24 | That set is unique, so the iteration order does not matter |
| `ChunkCycles.KeepsCycles` | apps/extension/scripts/chunk-cycle-guard.ts:9-24 | Every chunk on a cycle is kept |
| `ChunkCycles.KeptBetweenCycles` | apps/extension/scripts/chunk-cycle-guard.ts:9-24 | Every kept chunk reaches a cycle and is reached from one |
| `ChunkCycles.EmptyIffAcyclic` | apps/extension/scripts/chunk-cycle-guard.ts:9-24 | The result is empty if and only if the graph without self-loops is acyclic |
| `Pairing.PairPartitions` | scripts/complexity-baseline/scan.ts:335-345 | Left-over and moved-to entries partition the added list, left-over and moved-from the removed list: nothing lost, nothing used twice |
| `Pairing.MovedIsIntersection` | scripts/complexity-baseline/scan.ts:335-351 | The number moved is the sum over keys of the smaller count, whatever the order of the lists |
| `Pairing.PairingIsMaximum` | scripts/complexity-baseline/scan.ts:335-351 | The greedy pairing is a matching and no matching is larger |
| `Ratchet.MoveIsKeyEquality` | scripts/complexity-baseline/scan.ts:347-352 | `isMoveOf` is equality of a partial key |
| `Ratchet.PairMoves` | scripts/complexity-baseline/scan.ts:335-345 | The splicing loop computes the greedy pairing |
| `Ratchet.DiffEntries` | scripts/complexity-baseline/scan.ts:291-305 | The diff loop computes additions, removals, moves, restamps and rewordings of the two keyed lists |
| `Ratchet.UniqMembers` | scripts/complexity-baseline/scan.ts:291-305 | The keyed list holds exactly the last entry of each identity |
| `Ratchet.ShrinksWithoutMoves` | scripts/complexity-baseline/scan.ts:358-366 | With no violations and moves not approved, every head identity is a base identity with the same rule and a stamp no higher |
| `Ratchet.ShrinksWithMoves` | scripts/complexity-baseline/scan.ts:358-366 | With moves approved there is a rule-preserving, stamp-dominating injection from head identities to base identities |
| `RatchetExact.PassesExactly` | scripts/complexity-baseline/scan.ts:355-366 | Without approved moves a change passes if and only if every identity of the head is one of the base's and no stamp is above the base's: every removal passes and nothing else is refused |
| `RatchetExact.PassesWithMovesExactly` | scripts/complexity-baseline/scan.ts:332-366 | With moves approved a change passes if and only if no stamp rose and the entries under new identities can be matched one to one with dropped ones of the same rule, stamp, sentence and declared name |
| `RatchetExact.LookupIsCurrent` | scripts/complexity-baseline/scan.ts:291-293 | The keyed list holds for an identity exactly the last entry with it |
| `Ratchet.CountsNeverGrow` | scripts/complexity-baseline/scan.ts:358-377 | A violation-free change into a duplicate-free list never raises a rule's count |
| `Ratchet.CountsNeverGrowExactly` | scripts/complexity-baseline/scan.ts:358-377 | A list is duplicate-free if and only if no list that passes the ratchet in front of it has a smaller count of any rule |
| `Ratchet.ChainShrinksCounts` | scripts/complexity-baseline/scan.ts:358-377 | Over any chain of accepted changes, moves approved or not, a rule's count only shrinks |
| `Ratchet.ChainShrinksIdentities` | scripts/complexity-baseline/scan.ts:358-366 | Over any chain without approved moves each identity was there from the start with a stamp no lower |
| `Ratchet.ChainInjects` | scripts/complexity-baseline/scan.ts:335-366 | Over any chain of accepted changes, moves approved or not, one injection takes the identities of the last manifest to the first, keeping every rule and raising no stamp |
| `Ratchet.DuplicatesEscape` | scripts/complexity-baseline/scan.ts:213-223 | Every list with a duplicated identity passes against its own duplicate-free form and still counts more of the duplicate's rule, which is why duplicates are refused |
| `Ratchet.EmptyDiffExact` | scripts/complexity-baseline/scan.ts:291-305 | The diff of duplicate-free lists is empty if and only if they hold the same identities with the same stamps and sentences |
| `Ratchet.EmptyIffEqual` | scripts/complexity-baseline/scan.ts:254-305 | For duplicate-free lists between which no two paths are confusable the diff is empty if and only if they hold the same entries |
| `Ratchet.CollidesExactly` | scripts/complexity-baseline/scan.ts:254-254 | Entries of two different paths can share an identity if and only if one path is the other followed by the separator, or by the separator without its last space |
| `Ratchet.TrimmedCollidesExactly` | scripts/complexity-baseline/scan.ts:201-211 | With the trimmed, non-empty anchors of the scan, two different paths can share an identity if and only if one continues the other with the separator and no further white space |
| `Ratchet.IdentityIsInjective` | scripts/complexity-baseline/scan.ts:254-254 | Between paths that are not confusable the identity string determines file, rule and anchor |
| `Ratchet.DiffDecidesExactly` | scripts/complexity-baseline/scan.ts:254-305 | Over a set of paths an empty diff decides equality of all duplicate-free lists if and only if no two of the paths are confusable |
| `Ratchet.EntryKeyKeepsRule` | scripts/complexity-baseline/scan.ts:254-254 | The identity string always determines the rule |
| `Ratchet.DashCollision` | scripts/complexity-baseline/scan.ts:254-254 | The paths `x.ts` and `x.ts — y.ts`, named by a manifest, are confusable: replacing an acceptance in one by one in the other goes unseen |
| `Spdx.Tokenize` | packages/third-party-notices/src/spdx.ts:7-26 | The scanning loop computes the token list, or fails exactly where a character starts no token |
| `SpdxLexing.LexesExactly` | packages/third-party-notices/src/spdx.ts:7-26 | Tokenizing is sound and complete: it gives a token list if and only if the text is those tokens with blank gaps around them, a gap that is not empty between two identifiers; it fails exactly on text that spells no token list |
| `Spdx.Atomic` | packages/third-party-notices/src/spdx.ts:28-72 | The cursor-advancing parser of atoms computes the specified parse |
| `Spdx.Conjunction` | packages/third-party-notices/src/spdx.ts:28-72 | The AND loop computes the specified left-associative parse |
| `Spdx.Disjunction` | packages/third-party-notices/src/spdx.ts:28-72 | The OR loop computes the specified left-associative parse |
| `Spdx.ParseSpdx` | packages/third-party-notices/src/spdx.ts:28-72 | Text is accepted exactly when it tokenizes and the whole token list parses, with that tree |
| `Spdx.AcceptsExactlyGrammar` | packages/third-party-notices/src/spdx.ts:28-72 | The parser returns an expression if and only if it is valid and has exactly these tokens, AND binding tighter than OR (section D.4.5 of Annex D of the SPDX Specification 2.3) |
| `Spdx.Unambiguous` | packages/third-party-notices/src/spdx.ts:28-72 | Two valid expressions with the same tokens are the same |
| `Spdx.PrintParse` | packages/third-party-notices/src/spdx.ts:9-72 | Parsing the fully parenthesised print of a tree gives the tree back, through tokenization |
| `Spdx.AllowedIsSomeClause` | packages/third-party-notices/src/spdx.ts:74-79 | Evaluation equals "some clause of the disjunctive normal form is wholly allowed" |
| `Spdx.AllowedIsMonotone` | packages/third-party-notices/src/spdx.ts:74-79 | A larger allowlist never refuses what a smaller one allowed |
| `Spdx.ExceptionNeverRidesIn` | packages/third-party-notices/src/spdx.ts:74-79 | No allowlist of plain licence ids allows a licence WITH an exception |
| `Notices.RenderedLines` | packages/third-party-notices/src/generate.ts:264-276 | A rendered file is the header lines, an empty line, the inventory and an empty line, whatever follows |
| `Notices.NamesRoundTrip` | packages/third-party-notices/src/generate.ts:304-313 | Reading a rendered file back gives exactly the version-stripped names of its entries, whatever the licence texts contain |
| `Notices.VersionStripped` | packages/third-party-notices/src/generate.ts:304-313 | The text from the last `@` on is dropped from a title, unless that `@` opens it |
| `Notices.PlainNameKept` | packages/third-party-notices/src/generate.ts:304-313 | A title without `@` is its own name |
| `Notices.FileShowsEntry` | packages/third-party-notices/src/generate.ts:264-281 | Every component stands in the rendered file with its title, licence, source and note, and every one of its licence texts stands there whole under its label |
| `Notices.SortedStably` | packages/third-party-notices/src/generate.ts:264-266 | The entries come in title order and those of one title in the order given: nothing added, dropped or repeated |
| `StoreVersion.CompareStoreVersions` | scripts/release/publish-chrome-store.ts:59-64 | The loop returns -1, 0 or 1 exactly as the first differing part says, 0 only for equal tuples |
| `StoreVersion.OrderIsNumeric` | scripts/release/publish-chrome-store.ts:49-64 | Comparing tuples part by part is comparing numbers in base 65536 |
| `StoreVersion.StrictTotalOrder` | scripts/release/publish-chrome-store.ts:49-64 | The order is irreflexive, transitive and total |
| `StoreVersion.VersionRoundTrip` | scripts/release/publish-chrome-store.ts:53-57 | One to four in-range numbers printed with dots read back padded with zeros |
| `StoreVersion.VersionReadExactly` | scripts/release/publish-chrome-store.ts:53-57 | A text reads as a version if and only if it is one to four runs of digits with dots between them, each below 65536, and the version is their numbers padded with zeros |
| `StorePublish.CheckChannels` | scripts/release/publish-chrome-store.ts:112-130 | The channel loop passes exactly when every listed channel is readable and strictly below our version |
| `StorePublish.InterpretPreflight` | scripts/release/publish-chrome-store.ts:100-133 | Accepts exactly the eligible statuses: our item, not taken down, nothing pending, known revision states, every listed channel strictly below |
| `StorePublish.EligibleOutranksListed` | scripts/release/publish-chrome-store.ts:100-133 | Under an accepting preflight our version is strictly above every listed channel version |
| `StorePublish.EligibleExact` | scripts/release/publish-chrome-store.ts:100-133 | A status is accepted if and only if, over its fields, it is our item's, not taken down, not pending review, and each revision is absent or in one of the six known states with every channel at a readable version of lower rank |
| `StorePublish.UploadReadExactly` | scripts/release/publish-chrome-store.ts:149-170 | An upload's answer is read as done if and only if it names our item, says `SUCCEEDED` and carries a version of our rank, and as still going if and only if it names our item and says it is in progress, in either spelling |
| `StorePublish.AsyncReadExactly` | scripts/release/publish-chrome-store.ts:173-186 | A poll is read as done if and only if it names our item and its `lastAsyncUploadState` is `SUCCEEDED`, and as still going if and only if that field says in progress |
| `StorePublish.ReadWarnings` | scripts/release/publish-chrome-store.ts:219-228 | The loop returns the reasons of a list exactly when every entry names one |
| `StorePublish.LicenceHidesNothing` | scripts/release/publish-chrome-store.ts:278-305 | A refusal that licenses the retry has only understood details, every warning in any of them is the accepted reason, and a confirmation is unique and names our item |
| `StorePublish.RefusalIsNoSuccess` | scripts/release/publish-chrome-store.ts:256-323 | A refusal that licenses the retry is never read as a success |
| `StorePublish.LicenceExact` | scripts/release/publish-chrome-store.ts:278-305 | A refusal licenses the retry if and only if it is HTTP 400 with a failed precondition and no success field, each detail is a list of accepted warnings, inert, or the confirmation, exactly one detail confirms our item, and some warning is listed |
| `StorePublish.TakenExact` | scripts/release/publish-chrome-store.ts:256-323 | A publish answer is a success if and only if it is below 400 in one of the four taken states; the retry's if and only if in addition every warning it lists is the accepted one |
| `PublishRun.Runner.PollUpload` | scripts/release/publish-chrome-store-run.ts:181-191 | Polls until done, failed or past the deadline, with at most 36 status requests |
| `PublishRun.Runner.Publish` | scripts/release/publish-chrome-store-run.ts:155-177 | One blocking publish and at most one licensed retry; exits 0 exactly when the store took the submission |
| `PublishRun.Runner.Deliver` | scripts/release/publish-chrome-store-run.ts:134-147 | The request sequence conforms to the protocol, carries the store's own answers and sends at most 40 requests; it exits 0 if and only if the store took the submission, and gives up only when an answer stops it, the zip cannot be read after the preflight, or the upload is still going past the deadline |
| `PublishRun.Runner.RunPublish` | scripts/release/publish-chrome-store-run.ts:89-147 | A dry run, bad input or a missing token sends nothing; any other run conforms to the protocol, is bounded, exits 0 exactly on a taken submission, and gives up only for a stated reason |
| `PublishRun.Runner.RunCheck` | scripts/release/publish-chrome-store-run.ts:99-109 | Sends at most one status request and exits 0 exactly when it answers for our item |
| `PublishRun.ReadManifest` | scripts/release/publish-chrome-store-run.ts:210-227 | A zip is accepted exactly when its manifest is not the Firefox one, is named after VERSION and has a four-part version equal to the one VERSION derives; the store version parses and is that one |
| `PublishRun.PublishSafety` | scripts/release/publish-chrome-store-run.ts:111-177 | In every conforming trace a publish follows, by the fields of the store's answers, a preflight that leaves room for our version and an upload complete at once or through polls that all say in progress, each answer naming our item; a non-blocking publish comes right after a refusal on accepted warnings alone |
| `PublishRun.PhaseExact` | scripts/release/publish-chrome-store-run.ts:111-191 | A trace leads to a phase of the protocol if and only if the fields of its answers say so: nothing that reads as an eligible preflight, a completed upload, a licence or a taken submission is treated otherwise, and a run fails exactly at an answer that allows no further step |
| `PublishRun.NoSecondPublish` | scripts/release/publish-chrome-store-run.ts:149-177 | Two publish requests are the blocking one and its retry, in that order: `blockOnWarnings: false` is never sent twice |
| `PublishRun.PublishedOutranksListed` | scripts/release/publish-chrome-store-run.ts:134-147 | Whatever is published lies strictly above every version the preflight listed |
| `PublishRun.SuccessIsSubmission` | scripts/release/publish-chrome-store-run.ts:155-177 | A trace is a success if and only if it ends with the store taking the submission, at the first publish or at the licensed retry |
| `DiscoveryQueue.Queue.EnqueueDiscovery` | packages/wallet-bridge/src/discovery-queue.ts:68-85 | Queues exactly when no pair repeats and neither cap is reached; the badge equals the length |
| `DiscoveryQueue.Queue.Advance` | packages/wallet-bridge/src/discovery-queue.ts:100-119 | The loop between two awaits skips entries that are not pending, rejects those older than 55 seconds and stops at the first pending one that is not |
| `DiscoveryQueue.Queue.Drain` | packages/wallet-bridge/src/discovery-queue.ts:91-120 | Starting a drain takes the whole queue, clears the badge and runs to the first await |
| `DiscoveryQueue.Queue.ResumeDrain` | packages/wallet-bridge/src/discovery-queue.ts:120-131 | Going on after an await: a lock puts back what is left behind whatever the queue holds by then, a throw puts back nothing, and the badge equals the length when control is given up |
| `DiscoveryQueue.DrainConserves` | packages/wallet-bridge/src/discovery-queue.ts:68-132 | Under every interleaving of arrivals and any number of suspended drains, each admitted entry is in the queue, waits in one drain, or was settled or lost by one, as often as it was admitted; each drain settles its snapshot in order and puts back or loses only a suffix |
| `DiscoveryQueue.NothingLostExactly` | packages/wallet-bridge/src/discovery-queue.ts:120-128 | Over a whole run no entry is lost if and only if no processing throws |
| `DiscoveryQueue.ThrowLosesTheRest` | apps/extension/src/wallet/services/wallet-sdk/background.ts:675-686 | Processing that throws loses its entry and all behind it, and puts nothing back |
| `DiscoveryCaps.QuietRunsKeepCaps` | packages/wallet-bridge/src/discovery-queue.ts:68-132 | In runs where nothing is admitted while a drain is suspended the queue stays within 32, within 4 per origin and free of duplicate pairs, however drains overlap |
| `DiscoveryCaps.AdmitsExactly` | packages/wallet-bridge/src/discovery-queue.ts:68-85 | Within the caps, a request is queued if and only if the queue with it holds at most 32 entries, no pair twice and at most 4 of any origin |
| `DiscoveryCaps.InterleavedBound` | apps/extension/src/wallet/services/wallet-sdk/background.ts:661-673 | Over every interleaving, overlapping drains included, each drain with an admission before the next one starts adds at most one cap's worth: in total, per origin and per pair |
| `DiscoveryCaps.InterruptedDrainOverflows` | packages/wallet-bridge/src/discovery-queue.ts:118-130 | A full queue whose drain is interrupted by an arrival and then locked ends above the cap and with a duplicate pair |
| `DiscoveryCaps.OverlappingDrainsOverflow` | apps/extension/src/wallet/services/wallet-sdk/background.ts:661-673 | So does a second drain that takes the arrival while the first is suspended, when both are locked |
| `DiscoveryCaps.StepKeepsCaps` | packages/wallet-bridge/src/discovery-queue.ts:118-130 | One operation leaves the queue within its caps if and only if what it puts back fits beside what the queue holds by then: sizes, per-origin counts and no shared pair |
| `DiscoveryCaps.RunsKeepCapsExactly` | packages/wallet-bridge/src/discovery-queue.ts:68-132 | Over every interleaving, overlapping drains included, the queue is within its caps after every operation if and only if every list put back fits |
| `Legal.HistoryTail` | packages/legal/src/status.ts:99-108 | The index loop returns the last 20 elements of a list and nothing of a non-list |
| `Legal.LastOfIsTwenty` | packages/legal/src/status.ts:99-108 | The tail is the last 20 elements, or all of a shorter list |
| `Legal.RecordRoundTrip` | packages/legal/src/status.ts:56-124 | A stored record re-parses to itself |
| `Legal.RecordTracksLog` | packages/legal/src/status.ts:150-176 | Over any series of acceptances under any manifests the head is the latest acceptance of the greatest Terms version, by major, minor and patch, and the history is the last 20 of the log |
| `Legal.AcceptedIsCurrent` | packages/legal/src/status.ts:126-176 | Right after an acceptance under an ascending manifest with a material Terms version the status is current, whatever was stored before |
| `Legal.CurrentIffNothingPending` | packages/legal/src/status.ts:126-148 | With such a manifest the status is current if and only if no Terms version is pending |
| `Legal.StatusExact` | packages/legal/src/status.ts:126-135 | The status is missing if and only if the stored value is no acceptance or no readable material Terms version exists; otherwise it is current or stale by major and minor alone against the last material version |
| `Legal.PendingExact` | packages/legal/src/status.ts:137-148 | A version is pending if and only if it is a readable material Terms version that the accepted one does not reach, or there is no acceptance |
| `Legal.EntryReadExactly` | packages/legal/src/status.ts:77-96 | An acceptance is read if and only if its four fields are well-formed, and then field by field |
| `Legal.HistoryReadExactly` | packages/legal/src/status.ts:110-124 | The history keeps exactly the acceptances among its items, in order |
| `Legal.AcceptanceLogged` | packages/legal/src/status.ts:150-176 | An acceptance fails if and only if a document has no version, and otherwise logs the last versions of both, the time and the surface |
| `ExternalId.TokenTable.DescribeExternalId` | packages/wallet-bridge/src/external-id.ts:24-45 | One call's token and new table, with the clear on overflow: the bound of 512 is kept, a tracked id is in the table under the token returned, and the counter never rewinds |
| `ExternalId.TokensNeverShared` | packages/wallet-bridge/src/external-id.ts:24-45 | Over an entire run, overflows included, one token never names two different ids |
| `ExternalId.TableIsBounded` | packages/wallet-bridge/src/external-id.ts:24-45 | The table never exceeds 512 entries |
| `ExternalId.RepeatedIdKeepsToken` | packages/wallet-bridge/src/external-id.ts:24-45 | Between overflows a repeated id keeps its token |
| `ExternalId.TokensAreNotPlaceholders` | packages/wallet-bridge/src/external-id.ts:24-45 | A token never equals the placeholder of an untracked value |
| `ExternalId.UntrackedIsItsKind` | packages/wallet-bridge/src/external-id.ts:27-30 | A value that is not a non-empty string is logged as its kind alone and leaves the table as it was |
| `Unstick.Runner.RunUnstick` | scripts/release/auto-unstick-run.ts:66-115 | A run that fails or dies at any effect leaves exactly the effects before it, in order; it exits 0 if and only if it does not abort and gets through all its effects |
| `Unstick.TagsNeverMove` | scripts/release/auto-unstick-run.ts:66-115 | Over any series of runs, crashed or not, an existing tag keeps its commit |
| `Unstick.CompletedRunPublishes` | scripts/release/auto-unstick.ts:54-76 | One completed enabled push run takes a stuck release with its tag absent or at the merge commit to tag, release and tagged label |
| `Unstick.CompletedRunExactly` | scripts/release/auto-unstick.ts:54-76 | On every hub: the run aborts if and only if the commit awaits its release and the tag is at another commit; a completed run of an awaiting commit otherwise leaves the tag, the labels and the release, a prerelease exactly when the version has a dash; any other run changes nothing |
| `Unstick.RerunHealsExactly` | scripts/release/auto-unstick-run.ts:93-115 | After a run cut anywhere, a completed rerun publishes if and only if the cut did not fall between relabelling and releasing |
| `Unstick.CutNeverHeals` | scripts/release/auto-unstick-run.ts:93-115 | After that cut no number of reruns of the commit creates the release |

## Left out

- Coverage of the accounts list, of `contractClasses` (compared by type only) and of `createAuthWit`, where an added transaction scope can restrict what may be signed: coverage does not promise to match enforcement there.
- Wire capabilities whose `type` is not a string, and malformed capabilities left in storage by older versions: stored grants are typed here.
- The key order that decides whether two capabilities serialize alike when a replacement is chosen: capabilities are compared by value.
- Account identifiers whose chain id is not plain decimal digits, and case folding outside ASCII.
- The plan's widening is a value computed at once, not pushed into the delta in place.
- The answer returned to the dApp (enrichment with account data and data contents), error classes, messages, logs and timestamps of grants and rejections.
- Inside dispatch the capability negotiation is one abstract service call; its steps are the session runs.
- Session expiry, storage integrity, session upgrade and profile deletion.
- JavaScript prototypes, proxies and getters: wire values are plain data.
- That a drain's stretch between two awaits sees one clock and one handler: each entry's status and clock reading is arbitrary.
- The per-file rule summary and the legacy ratchet, and how suppression lines and declaration names are recognised in text: the name of a declaration is an arbitrary function.
- In the publish runner, a thrown error (an upload answer whose `crxVersion` is not text, an unreadable zip) is the failing exit it leads to; request headers, the token, masking and message texts are not modelled, and the clock never runs backwards.
- UTF-16 order of titles outside the basic plane: sorting is by code point.
- The Firefox publish runner, tag resolution, the sync pull request, cryptography, the user interface and all real input and output.
