# CHLOM verification models

Dafny models of the parts of CHLOM that keep state or do exact arithmetic, with proofs of what they promise
over every input and every run:

- the DAIL ledger (`services/dail_v1/runtime.py`): the hash chain, its idempotency index, corrections, the full
  verifier, isolated restore and the sanitised cold export with its own receipt chain;
- the wallet connection (`public/wallet-connection.js`): async calls cut at every `await`, interleaved with wallet
  events and guarded by an epoch;
- the rights registry and the licensing pallet, run together as one chain;
- the policy registry with its two-time lookup and revocation;
- exact apportionment: `split_by_basis_points` with the settlement pallet, and `splitRevenue`;
- oracle case history, the checkpoint chain, canonical JSON, and the admission of ZK verifications.

Each stateful component has four layers. A *model* file gives the state and one pure function per operation, with
the branches, the order of checks and the errors of the source. An *outcomes* file states what each operation does
without the model's own helpers: for each answer the condition on the arguments and the stored fields under which it is
given, and every field of the state it leaves. A *proofs* file states what holds over every run. A *class* runs the
operations on its fields step by step; each method's contract equates its result and its new state with the model
function, so the outcome and whole-run lemmas speak about it. Small components keep layers in one file.

## Reading the models

- Hashes are arbitrary functions. Nothing assumes that SHA-256 or Blake2 is injective: a lemma about binding takes as
  hypothesis that the texts actually hashed in the runs it compares do not collide, and (where needed) that none of
  them hashes to the zero hash.
- Text is a sequence of code points (Python) or of UTF-16 code units (JavaScript). A lone surrogate is a legal unit;
  digesting text that holds one fails, as encoding it does.
- `u16`, `u32`, `u64` and `u128` are subset types and every saturating or checked operation is written out.
- Doubles occur only in `splitRevenue`. Its product is rounded to nearest with ties to even. Its quotient is any
  function within half a gap of the exact one (and exact on whole cents), so the lemmas hold for the code's own as
  well as for all others.
- The block number is a parameter of each pallet method; it never decreases along a run. A caller authorised by the
  pallet's origin is assumed.
- `Option` stands for a value that may be missing or for a raised exception, `Result` for a pallet's outcome.

Results that a reader of the code may not expect:

- `append_correction` does not check that the replacement payload is a JSON object, while `verify` demands it. A
  call leaves a verifiable ledger verifiable exactly when it is not a correction that passes every check made before
  recording and has some other replacement (`LedgerRuns.VerifiableExactly`); one append and one correction with the
  replacement `null` is such a run (`LedgerLimits.NullReplacementBreaksVerify`); and nothing repairs the ledger
  afterwards (`LedgerRuns.UnverifiableForever`).
- `full_state_sha256` raises on a ledger that verifies exactly when an idempotency key or a payload holds a lone
  surrogate (`LedgerLimits.StateDigestExactly`); one append under such a key is such a ledger
  (`LedgerLimits.SurrogateKeyHasNoDigest`).
- `verify` compares stripped ids and keys, while a restored ledger indexes them as stored. A later call can then record
  the stripped form of a stored id or key, after which the ledger no longer verifies. A run leaves a restored ledger
  verifiable exactly when none of its calls does that or is an admitted correction that replaces with something other
  than an object (`RestoredRuns.RestoredRunExactly`). Given one event id and one key that are not in use, an append that
  breaks the ledger exists exactly when some restored id or key is not already stripped
  (`RestoredRuns.BreakableExactly`); the ledger of one append with a space before its key is an example
  (`RestoredRuns.PaddedKeyBreaks`).
- `splitRevenue` compares doubles. Equal remainders are told apart by rounding: 52 cents split 35/45/20 come out as 18,
  23 and 11, not 18, 24 and 10 (`SplitRevenue.RoundingBreaksTheTie`). Ties go to the lower index exactly when, among
  those that tie across the last cent handed out, no recipient due it by index has a quotient with a smaller error than
  one not due it (`SplitRevenue.TiesByError`); and they do so however the quotients round exactly when no two different
  weights tie there (`SplitRevenue.TiesGoLowExactly`).
- A product that is odd and above 2^53 is off by one, and then a strictly smaller remainder can win
  (`SplitRevenue.RoundedProductOvertakes`). The exact remainders decide exactly when no such product, tied once rounded
  across the last cent handed out, is served after rounding up or passed over after rounding down
  (`SplitRevenue.RemaindersByRounding`); and however the quotients round exactly when none is tied there
  (`SplitRevenue.RemaindersDecideExactly`). Up to 900719925474 cents there is no such product
  (`SplitRevenue.MostSizesAreExact`). For every admitted amount the sum, the rounding to within a cent, whole shares and
  the order of the weights are kept, and nobody is passed over who has more than one ten-thousandth of a cent more left
  than someone served (`SplitRevenue.AllocationIsFair`).
- The event hash binds normalised fields: `verify` strips the text of a row before hashing it. Without a collision, two
  verified ledgers with one head agree on the stripped fields, the payload and the time
  (`LedgerVerified.HeadBindsEvents`), and raw fields do differ under one head: a space before the last entity id or key
  of any verified ledger with rows leaves it verified under the same head (`RestoredRuns.HeadHidesRawText`). Ledgers restored
  under the full-state digest agree on every field (`LedgerIntegrity.StateTextBindsRows`).
- The policy lookup is final for blocks before the current one. For the current and later blocks it can still change
  exactly when a version is active there or another one can still be recorded for it
  (`PolicyProofs.AnswerCanChangeExactly`).
- The ZK admission gate keeps its limit while the clock does not go back; for every single step back there is a run
  that exceeds it (`Limiter.EveryStepBackAdmitsMore`).
- At version 4294967295 the licensing pallet's version check accepts the stored head again; only the already-exists
  check prevents the overwrite (`Versions.OnlySaturationAcceptsAStoredVersion`).

## Model

| member | source | states |
|---|---|---|
| Json.ReadEscaped | services/dail_v1/runtime.py:150-155 | Reading back a printed string recovers it and leaves what follows its closing quote alone, in the Python and the JavaScript escaping |
| Json.UniqueReading | services/dail_v1/runtime.py:150-155 | Two well-formed documents printed before any two rests give the same text only if the documents and the rests are the same |
| CanonicalForm.NormalKeepsMeaning | services/dail_v1/runtime.py:150-155 | Sorting the keys at every level keeps a document well formed and keeps the value it stands for |
| CanonicalForm.CanonicalTextIsValue | services/dail_v1/runtime.py:150-171 | Canonical texts are equal exactly when the documents stand for the same JSON value, which is also what hashing and cloning through JSON rely on |
| CanonicalForm.NormalIsSorted | services/dail_v1/runtime.py:150-155 | In the canonical form the members of every object, at any depth, ascend by key |
| JsonSpelling.StringSpelled | services/dail_v1/runtime.py:150-155 | A printed string is its quoted spelling, unit by unit: short escapes, \u00xx for other control characters, a lone surrogate escaped in JavaScript only, and every other unit as it is |
| JsonSpelling.DocumentSpelled | services/dail_v1/runtime.py:150-155 | Literals, tokens, arrays and objects print with brackets, commas and colons and no white space, in the order given |
| JsonSpelling.DecimalSpelled | services/dail_v1/runtime.py:150-155 | An integer prints as its decimal digits without a leading zero, after a minus sign when negative |
| CanonicalForm.SortedUnique | lib/protocol/proofs.js:19-21 | A set of members has one key-sorted order |
| CanonicalJs.AcceptedExactly | lib/protocol/proofs.js:8-23 | The printer accepts exactly the plain JSON values (dense arrays without extra properties, plain objects, finite numbers) nested at most twenty levels deep |
| CanonicalJs.PrintsCanonicalText | lib/protocol/proofs.js:8-23 | An accepted value prints as the canonical text of its document |
| CanonicalJs.CanonicalIsFaithful | lib/protocol/proofs.js:8-23 | Two accepted values print alike exactly when they are the same JSON value, with negative zero read as zero |
| CanonicalJs.KeyOrderIrrelevant | lib/protocol/proofs.js:19-21 | Reordering an object's members never changes the outcome, whether accepted or refused |
| CanonicalJs.SameDigestSameEvidence | lib/protocol/proofs.js:32-36 | Without a collision of the two texts, equal evidence digests mean the same evidence |
| CanonicalJs.HashEvidenceExactly | lib/protocol/proofs.js:32-36 | Evidence has a digest exactly when it is a JSON value nested at most twenty levels deep whose canonical text has at most 65536 bytes, and it is the digest of that text |
| PythonText.JoinSplits | services/dail_v1/runtime.py:336-352 | Fields without the delimiter are determined by their pipe-joined text |
| PythonText.StripSplits | services/dail_v1/runtime.py:199-207 | Stripping takes off white space at both ends, all of it, and nothing else |
| PythonText.JoinSpelled | services/dail_v1/runtime.py:336-352 | The joined text is the fields in order with a bar between each and the next |
| Records.RecordsEqual | services/dail_v1/runtime.py:365-375 | Records over the same ascending keys with equal canonical form have equal values, key by key |
| LedgerModel.NormalizeNamesIdempotent | services/dail_v1/runtime.py:498-508 | Names once normalised are unchanged by normalising them again, as the verifier does |
| LedgerRuns.IndexIsLinearSearch | services/dail_v1/runtime.py:738-742 | The idempotency index answers every key with the request digest and sequence a linear search of the rows gives, and holds no other key |
| LedgerRuns.StepKeeps | services/dail_v1/runtime.py:482-586 | One call keeps the rows linked and both indexes exact, adds at most one last row, changes nothing when it is refused or answered from the index, and a correction row is as good as its replacement |
| LedgerRuns.RunKeeps | services/dail_v1/runtime.py:410-586 | Over any run the ledger stays consistent and only grows at its end |
| LedgerRuns.ReachableVerifies | services/dail_v1/runtime.py:588-677 | Every ledger reached from the empty one by appends and by corrections whose replacements are objects passes verify |
| LedgerRuns.VerifiableExactly | services/dail_v1/runtime.py:463-472 | A call leaves a verifiable ledger verifiable exactly when it is not a correction that passes every check made before recording and whose replacement is something other than an object |
| LedgerRuns.CorrectionAppendsExactly | services/dail_v1/runtime.py:453-480 | A correction is recorded exactly when its target is on record, it has a reason and an actor, its text fits its payload, its key and id are fresh, its time is valid and its digest can be computed; the replacement is not looked at |
| LedgerRuns.UnverifiableForever | services/dail_v1/runtime.py:694-695 | Once a ledger does not verify, no later run makes it verify |
| LedgerLimits.NullReplacementBreaksVerify | services/dail_v1/runtime.py:440-480 | A concrete run: an append and a correction of it with replacement null are both recorded, and the ledger verifies after the first and not after the second |
| LedgerLimits.StateDigestExactly | services/dail_v1/runtime.py:397-408 | The full-state digest of a verified ledger exists exactly when no idempotency key and no payload holds a lone surrogate |
| LedgerLimits.SurrogateKeyHasNoDigest | services/dail_v1/runtime.py:397-408 | A concrete run: one append under a key that is a lone surrogate is recorded and verifies, and the full-state digest does not exist |
| LedgerLimits.RestoredAppendExactly | services/dail_v1/runtime.py:738-743 | An append leaves a restored ledger verifiable exactly when it is not an admitted one whose id or key is the stripped form of a stored one |
| LedgerLimits.RestoredCorrectionExactly | services/dail_v1/runtime.py:738-743 | The same for a correction, which must also replace with an object |
| LedgerLimits.GapExactly | services/dail_v1/runtime.py:738-743 | A stripped id or key that the restored indexes do not hold exists exactly when some stored id or key is not already stripped |
| RestoredRuns.StepStaysRestored | services/dail_v1/runtime.py:534-586 | After any call a restored ledger is again what a restore of its rows would build, with the rows only grown at the end |
| RestoredRuns.RestoredRunExactly | services/dail_v1/runtime.py:738-743 | Over any run a restored ledger stays verifiable exactly when no call is an admitted one with the stripped form of a stored id or key, or an admitted correction with another replacement than an object |
| RestoredRuns.UntidyCanBreak | services/dail_v1/runtime.py:738-743 | If some stored id or key is not stripped, the first row's own request under another id and key is admitted and breaks the ledger, given one new id and one new key |
| RestoredRuns.BreakableExactly | services/dail_v1/runtime.py:738-743 | Given one new id and one new key, some append leaves a restored ledger unverifiable exactly when some stored id or key is not already stripped |
| RestoredRuns.PaddedKeyBreaks | services/dail_v1/runtime.py:697-743 | A concrete run: one append, a space before its key, a restore; the same key is then recorded again and the ledger does not verify |
| RestoredRuns.HeadHidesRawText | services/dail_v1/runtime.py:588-677 | With a space before the entity id or key of its last row, every verified ledger still verifies under the same head, and the two rows hash the same text |
| Records.CanonicalEncodableExactly | services/dail_v1/runtime.py:150-163 | A canonical text can be digested exactly when no text in the document holds a lone surrogate |
| LedgerRuns.RetryFindsOriginal | services/dail_v1/runtime.py:535-542 | In every later state a retry with the same request is answered with the row first recorded, and the same key with another request is a conflict; neither changes the ledger |
| LedgerOutcomes.RequestTextSpelled | services/dail_v1/runtime.py:355-375 | The request text names the six fields and the payload digest, each under its own key |
| LedgerOutcomes.SameRequestExactly | services/dail_v1/runtime.py:355-375 | Unless their texts collide, request digests are equal if and only if the payload digests and all normalised names but the key are |
| LedgerOutcomes.PreparedExactly | services/dail_v1/runtime.py:498-532 | A request passes the checks before the lock exactly when its names fit, its type is allowed, its payload is an object its database text represents and no name has a lone surrogate; it is kept stripped, with both digests |
| LedgerOutcomes.AppendOutcome | services/dail_v1/runtime.py:410-438 | Every answer of append with its condition: the new row field by field, the row of a used key, a conflict, a replay, or an invalid event; in all but the first nothing changes |
| LedgerOutcomes.CorrectionOutcome | services/dail_v1/runtime.py:440-480 | Every answer of append_correction: invalid without a target on record, a reason and an actor, otherwise the answer to the request made of the target entity and the three fields |
| LedgerOutcomes.CorrectionRow | services/dail_v1/runtime.py:463-480 | The row a correction leaves holds, under the three keys, the stripped target and reason and exactly the replacement given; its entity is the target row's, its actors and key those given |
| LedgerOutcomes.RunNamesStripped | services/dail_v1/runtime.py:498-508 | In every ledger reached from the empty one the names of every row are stripped |
| LedgerOutcomes.RetryExactly | services/dail_v1/runtime.py:535-542 | In every later state a recorded key with the same names and payload digest gets the row first recorded, and with any other name or payload digest a conflict, unless two request texts collide |
| LedgerOutcomes.OtherPayloadConflicts | services/dail_v1/runtime.py:535-542 | Another payload value under a recorded key is always a conflict, unless two of the texts collide |
| LedgerRuns.ReplayAlwaysDetected | services/dail_v1/runtime.py:543-548 | A fresh key with an event id on record is always refused as a replay |
| LedgerIntegrity.BackStep | services/dail_v1/runtime.py:331-352 | Equal last event hashes force equal bound fields and equal earlier heads; the genesis marker is never mistaken for a hash |
| LedgerIntegrity.HeadBindsHistory | services/dail_v1/runtime.py:588-677 | Two verified ledgers with the same head hash have the same length and agree on all ten bound fields at every position, unless two event texts collide or one hashes to zero |
| LedgerIntegrity.BoundFieldsMean | services/dail_v1/runtime.py:336-352 | Equal bound fields mean equal normalised id, type, entity, version (missing only with missing), actor (DID, else reference), payload digest and time |
| LedgerVerified.VerifiedExactly | services/dail_v1/runtime.py:588-677 | Rows pass verify if and only if each holds in its place: fields that fit, a represented payload, both digests, a canonical time, the hash over its ten fields, its number, its predecessor's hash, no repeated stripped id or key, and a sound correction |
| LedgerVerified.HeadBindsEvents | services/dail_v1/runtime.py:588-677 | Without a collision two verified ledgers with one head agree at every position on number, stripped id, type, entity, actor, payload text and value, links and time |
| LedgerIntegrity.StateTextBindsRows | services/dail_v1/runtime.py:397-408 | Equal full-state texts come from the same rows, field by field |
| LedgerVerified.RowWritten | services/dail_v1/runtime.py:397-408 | A row is written into the full state with each of its seventeen fields under its own key |
| LedgerVerified.StateDigestWritten | services/dail_v1/runtime.py:397-408 | The full-state digest is that of the canonical text of the list of all rows |
| LedgerVerified.RestoreOutcome | services/dail_v1/runtime.py:697-743 | A restore succeeds exactly when every row holds in its place, the expected head is the last event hash and the expected state digest that of the rows |
| LedgerVerified.RestoredOutcome | services/dail_v1/runtime.py:738-743 | The restored ledger has exactly the rows, their ids, and for each key the request digest and number of its row |
| LedgerIntegrity.RestoreOwn | services/dail_v1/runtime.py:697-743 | A verifiable ledger restored under its own anchors is accepted and rebuilt exactly, with the same id set and index |
| LedgerIntegrity.RestoreIsOriginal | services/dail_v1/runtime.py:697-743 | Any row list accepted under a ledger's anchors is that ledger, with the same indexes, unless two full-state texts collide |
| LedgerIntegrity.SameForever | services/dail_v1/runtime.py:534-586 | After a restore every later sequence of calls has the same outcomes as on the original: fresh rows, retries, conflicts and replays |
| ColdExport.ExportIsAccepted | services/dail_v1/runtime.py:745-786 | The export of any verified ledger, the empty one included, is produced and is accepted by the cold verifier under its own digest and the ledger's head |
| ColdOutcomes.ExportOutcome | services/dail_v1/runtime.py:745-786 | The export field by field: each receipt holds the digests of its row's very id, type and entity, its payload digest, links and time, and the document its format, count, span, heads and digests |
| ColdOutcomes.ReceiptTextSpelled | services/dail_v1/runtime.py:756-768 | A receipt's hash covers each of its other fields under its own key |
| ColdOutcomes.ReceiptWritten | services/dail_v1/runtime.py:769-770 | A receipt is written with its ten fields under their keys |
| ColdOutcomes.DocumentWritten | services/dail_v1/runtime.py:772-786 | The document is written with its fields and its integrity block under their keys |
| ColdOutcomes.ColdAcceptsExactly | services/dail_v1/runtime.py:808-919 | The cold verifier accepts a document exactly when its digest, format, count, span and list digest, its heads and each receipt in its place hold |
| ColdOutcomes.EqualsNumberExactly | services/dail_v1/runtime.py:898-904 | A printed integer is found equal to a number exactly when it is that number, and null exactly to none |
| ColdExport.ReceiptTextBinds | services/dail_v1/runtime.py:756-768 | Equal receipt texts come from receipts that agree on every field but the receipt's own hash and, until the chain gives it, the sequence |
| ColdExport.ReceiptHeadBinds | services/dail_v1/runtime.py:858-896 | Backwards along the receipt chain: two accepted chains with the same receipt head are the same list of receipts, unless two receipt texts collide |
| ColdExport.AcceptedExportsAgree | services/dail_v1/runtime.py:808-919 | Two accepted exports with the same receipt head have identical receipts and were accepted under the same ledger head |
| Ledger.CheckCorrection | services/dail_v1/runtime.py:679-695 | No fault exactly when the payload has the three correction fields, an earlier target, a non-blank reason and an object replacement |
| Ledger.CheckRow | services/dail_v1/runtime.py:597-671 | No fault exactly when the row is sound on its own and fits its position, the ids and keys seen and the expected previous hash |
| Ledger.VerifyRows | services/dail_v1/runtime.py:588-677 | The report is clean exactly when every row is linked to those before it and every correction replaces with an object; it then names the head hash |
| Ledger.DAILLedger.Commit | services/dail_v1/runtime.py:534-586 | The locked section: the new rows, id set and index, and the outcome, are those of the model's commit |
| Ledger.DAILLedger.Append | services/dail_v1/runtime.py:410-438 | State and outcome are those of the model's append, and a consistent ledger stays consistent |
| Ledger.DAILLedger.AppendCorrection | services/dail_v1/runtime.py:440-480 | State and outcome are those of the model's correction, and a consistent ledger stays consistent |
| Ledger.DAILLedger.Verify | services/dail_v1/runtime.py:588-677 | Reports ok exactly when the stored rows are verifiable, with their count and head |
| Ledger.DAILLedger.RestoreIsolated | services/dail_v1/runtime.py:697-743 | Succeeds exactly when the rows verify under both anchors, and then returns a fresh ledger with exactly those rows and rebuilt indexes |
| Ledger.DAILLedger.Reindex | services/dail_v1/runtime.py:738-743 | The rebuilding loop yields the id set and the index of the rows |
| Ledger.DAILLedger.ExportCold | services/dail_v1/runtime.py:745-786 | Succeeds exactly when the ledger verifies and the time is valid; the document is then accepted by the cold verifier under its digest and this head |
| Ledger.CheckReceipt | services/dail_v1/runtime.py:860-896 | No fault exactly when the receipt is well formed, at its position, linked to both previous hashes and correctly hashed |
| Ledger.VerifyCold | services/dail_v1/runtime.py:808-919 | No error exactly when the document is an acceptable export under the two external anchors |
| WalletProofs.StepKeeps | public/wallet-connection.js:29-98 | Every segment of every call and every wallet event keeps the invariant, with any number of calls suspended and arbitrary replies |
| WalletProofs.AlwaysAgrees | public/wallet-connection.js:29-98 | In every interleaving a held challenge or observation names the shown address (ignoring case) and the shown chain |
| WalletProofs.EpochGrows | public/wallet-connection.js:31-55 | No step lowers the epoch, and an account change, chain change, disconnect or admitted connect raises it |
| WalletProofs.QuietRun | public/wallet-connection.js:31-55 | A run that ends at the epoch it began with holds no account change, chain change, disconnect or admitted connect |
| WalletProofs.RunCarries | public/wallet-connection.js:86-92 | A signing call keeps the challenge, epoch and address it captured until it ends, and its frame is never reused |
| WalletProofs.RunSteady | public/wallet-connection.js:56-64 | While a signing call waits in its own epoch, the shown account and chain never change, whatever a refresh finds |
| WalletProofs.StoredObservationWasSigned | public/wallet-connection.js:82-94 | An observation signProof stores names the address passed to personal_sign and the chain shown then; both stayed as shown throughout, and nothing interrupted in between |
| WalletOutcomes.AddressExactly | public/wallet-connection.js:2 | An address is 0x and forty hexadecimal digits, kept as it is |
| WalletOutcomes.ChainExactly | public/wallet-connection.js:3 | A chain is 0x and one to thirteen hexadecimal digits of a positive number; its name keeps the number, in lower case and without leading zeros |
| WalletOutcomes.SameChainExactly | public/wallet-connection.js:3 | Two chains have one name exactly when they are the same number |
| WalletOutcomes.SameAddressExactly | public/wallet-connection.js:61 | Two addresses agree ignoring case exactly when they are the same number |
| WalletOutcomes.AccountsChangedShows | public/wallet-connection.js:31 | After accountsChanged the first account is shown when it is an address and none otherwise, chain and provider are kept, challenge and observation dropped, and a refresh starts if an account is shown |
| WalletOutcomes.ChainChangedShows | public/wallet-connection.js:32 | After chainChanged the new chain is shown by its name when it is one and none otherwise, address and provider are kept, challenge and observation dropped |
| WalletOutcomes.DisconnectShowsNothing | public/wallet-connection.js:51-55 | After a disconnect nothing is shown and nothing is pending |
| WalletOutcomes.RefreshOutcome | public/wallet-connection.js:56-69 | A refresh run to its end shows the account and chain of the answer, and drops challenge and observation in a new epoch exactly when either is another one |
| WalletOutcomes.ConnectOutcome | public/wallet-connection.js:36-50 | A connect run to its end shows the valid account and chain it was given, refreshed once, or nothing; then nothing is pending and no call is left over |
| WalletOutcomes.PrepareOutcome | public/wallet-connection.js:73-81 | prepareProof run to its end stores a challenge exactly when an account is still shown and the answer is about it and the shown chain |
| WalletOutcomes.SignAsks | public/wallet-connection.js:83-88 | signProof asks for a signature, for the account then shown, exactly when its refresh was answered and its challenge is still the one shown |
| WalletOutcomes.SignEnds | public/wallet-connection.js:88-94 | It stores the observation exactly when the account signed, the second refresh was answered with the same account and chain, and the answer names both |
| WalletOutcomes.CallsTurnedAway | public/wallet-connection.js:37-84 | A connect while pending or without a wallet, a prepare without an account and a sign without a live challenge change nothing |
| WalletOutcomes.LateSegments | public/wallet-connection.js:43-91 | A segment of an earlier epoch ends its own call and shows nothing; only a connect also stops being pending |
| WalletOutcomes.LateRefresh | public/wallet-connection.js:60 | A refresh of an earlier epoch returns without showing anything |
| Wallet.WalletConnection.Connect | public/wallet-connection.js:36-41 | The first segment of connect: new epoch, cleared state, pending, one suspended call; nothing when pending or without a choice |
| Wallet.WalletConnection.AccountsArrive | public/wallet-connection.js:42-45 | The segment after the account list: asks for the chain only with an account and in the epoch that asked, otherwise ends the connect |
| Wallet.WalletConnection.ChainArrives | public/wallet-connection.js:45-49 | The segment after the chain id: attaches the provider and shows the account only in the epoch that asked |
| Wallet.WalletConnection.Disconnect | public/wallet-connection.js:51-55 | Clears everything shown and raises the epoch |
| Wallet.WalletConnection.AccountsChanged | public/wallet-connection.js:31 | Raises the epoch, shows the new account and drops challenge and observation |
| Wallet.WalletConnection.ChainChanged | public/wallet-connection.js:32 | Raises the epoch, shows the new chain or none, and drops challenge and observation |
| Wallet.WalletConnection.RefreshArrives | public/wallet-connection.js:56-64 | The segment of refresh after both answers: ignored in a later epoch, otherwise a changed account or chain raises the epoch and drops challenge and observation |
| Wallet.WalletConnection.ChallengeArrives | public/wallet-connection.js:77-81 | Stores a challenge only in the epoch that asked and only for the shown address and chain |
| Wallet.WalletConnection.SignatureArrives | public/wallet-connection.js:88-90 | Goes on only if signed in an unchanged epoch |
| Wallet.WalletConnection.VerificationArrives | public/wallet-connection.js:91-94 | Stores an observation only in an unchanged epoch and only for the captured address and shown chain |
| Wallet.WalletConnection.Resume | public/wallet-connection.js:73-92 | What each caller of refresh does when it returns or throws |
| Supersession.InsertSound | substrate/chlom-l1/pallets/rights/src/lib.rs:176-202 | Recording an admissible record keeps the map the exact inverse of the stored supersedes field and keeps an order of recording in which every record precedes its successor |
| Supersession.WalkTerminates | substrate/chlom-l1/pallets/rights/src/lib.rs:277-315 | From every record, following superseded-by ends in an unsuperseded record of the same asset |
| Supersession.TipUnique | substrate/chlom-l1/pallets/rights/src/lib.rs:284-288 | It ends in only one such record, after only one number of steps |
| Supersession.Acyclic | substrate/chlom-l1/pallets/rights/src/lib.rs:284-288 | No record supersedes itself, however indirectly |
| Supersession.LinesDoNotMerge | substrate/chlom-l1/pallets/rights/src/lib.rs:284-288 | Two records with a common successor lie on one line; with one step each, superseded-by is injective |
| Rights.RunKeeps | substrate/chlom-l1/pallets/rights/src/lib.rs:125-326 | Over any run both registries stay sound, contractual records carry D3 authority and a non-zero governing hash, and nothing recorded changes |
| Rights.InstrumentsSupersedeSoundly | substrate/chlom-l1/pallets/rights/src/lib.rs:256-315 | In every reachable state each instrument leads to exactly one unsuperseded instrument of its asset, no line is a cycle, and the map is the inverse of what the records store |
| Rights.InterestsSupersedeSoundly | substrate/chlom-l1/pallets/rights/src/lib.rs:159-202 | The same for ownership interests |
| Rights.InterestOutcome | substrate/chlom-l1/pallets/rights/src/lib.rs:129-211 | An interest is refused with the first check that fails, each spelled out on the arguments and the maps, and otherwise stored as given with its predecessor marked superseded |
| Rights.InstrumentOutcome | substrate/chlom-l1/pallets/rights/src/lib.rs:215-325 | The same for an instrument |
| Rights.RightsPallet.RecordOwnershipInterest | substrate/chlom-l1/pallets/rights/src/lib.rs:129-211 | The outcome names the first failing check, an error changes nothing, success adds exactly the record and its supersession, and the invariant is kept |
| Rights.RightsPallet.RecordRightsInstrument | substrate/chlom-l1/pallets/rights/src/lib.rs:215-325 | The same for instruments |
| Versions.PutKeepsDense | substrate/chlom-l1/pallets/licensing/src/lib.rs:612-638 | An accepted version keeps exactly versions 1..head stored, each with its predecessor's hash, and changes no stored record |
| Versions.OnlySaturationAcceptsAStoredVersion | substrate/chlom-l1/pallets/licensing/src/lib.rs:626-630 | The version check alone accepts an already stored version exactly at the largest number, for the stored head repeated with its own hash as predecessor |
| Versions.PutKeepsSteps | substrate/chlom-l1/pallets/licensing/src/lib.rs:361-380 | A rule checked between the head and each new version holds between all consecutive versions |
| Versions.Carried | substrate/chlom-l1/pallets/licensing/src/lib.rs:361-380 | What every allowed step passes on holds from any version to all later ones |
| LicensingOutcomes.NextExactly | substrate/chlom-l1/pallets/licensing/src/lib.rs:612-638 | On a line of versions 1 to head a new record is accepted exactly as number head + 1 naming the head's hash, with the error of the part that fails |
| LicensingProofs.DlaStep | substrate/chlom-l1/pallets/licensing/src/lib.rs:215-316 | Recording a DLA version keeps the joint invariant of both pallets and changes no stored record |
| LicensingProofs.LicenseStepKeeps | substrate/chlom-l1/pallets/licensing/src/lib.rs:320-414 | The same for a licence version |
| LicensingProofs.OfferStep | substrate/chlom-l1/pallets/licensing/src/lib.rs:418-511 | The same for an offer version |
| LicensingProofs.EntitlementStep | substrate/chlom-l1/pallets/licensing/src/lib.rs:515-608 | The same for an entitlement version |
| LicensingProofs.RunKeeps | substrate/chlom-l1/pallets/licensing/src/lib.rs:211-609 | Over any run of both pallets all four families stay dense and hash-linked, the rights state copied into every DLA version equals the registry's, every reference resolves, and nothing recorded changes |
| LicensingProofs.EligibleExactly | substrate/chlom-l1/pallets/licensing/src/lib.rs:670-699 | A stored DLA version is eligible exactly when it says so and its instrument is recorded, unsuperseded and inside its window: the copied rights never diverge |
| LicensingProofs.PublicIsAuthorised | substrate/chlom-l1/pallets/licensing/src/lib.rs:265-272 | A publicly eligible DLA rests on an instrument recorded with D3 authority and a non-zero governing hash |
| LicensingProofs.AlwaysGrounded | substrate/chlom-l1/pallets/licensing/src/lib.rs:701-727 | In every reachable state an active entitlement has an active licence with the same holder, whose current DLA names an instrument of the same asset and version in force now, with D3 authority if the DLA is publicly eligible |
| LicensingOutcomes.LicenseActiveExactly | substrate/chlom-l1/pallets/licensing/src/lib.rs:701-710 | A licence is active exactly when its latest version is active and not past its end, and its latest DLA is offered and rests on a recorded, unsuperseded instrument inside its term |
| LicensingOutcomes.EntitlementActiveExactly | substrate/chlom-l1/pallets/licensing/src/lib.rs:712-727 | An entitlement is active exactly when its latest version is contractual and not past its end, and its licence is active for the same holder |
| LicensingOutcomes.ReadersExactly | substrate/chlom-l1/pallets/licensing/src/lib.rs:701-727 | Both in every reachable state |
| LicensingOutcomes.DlaOutcome | substrate/chlom-l1/pallets/licensing/src/lib.rs:215-316 | A DLA version is refused with the first check that fails, each spelled out on the stored maps, and otherwise exactly it and its head are written |
| LicensingOutcomes.TransitionsExactly | substrate/chlom-l1/pallets/licensing/src/lib.rs:640-651 | A status may follow another exactly when a closed one stays closed and none becomes pending again |
| LicensingOutcomes.LicenseOutcome | substrate/chlom-l1/pallets/licensing/src/lib.rs:320-414 | The same for a licence version |
| LicensingOutcomes.OfferOutcome | substrate/chlom-l1/pallets/licensing/src/lib.rs:418-511 | The same for an offer version |
| LicensingOutcomes.EntitlementOutcome | substrate/chlom-l1/pallets/licensing/src/lib.rs:515-608 | The same for an entitlement version |
| LicensingProofs.AcceptedLicenseIsActive | substrate/chlom-l1/pallets/licensing/src/lib.rs:349-356 | A licence accepted as active is active at once |
| LicensingProofs.AcceptedEntitlementIsActive | substrate/chlom-l1/pallets/licensing/src/lib.rs:543-561 | An entitlement accepted as contractual is active at once |
| LicensingProofs.AcceptedEntitlementIsWithinLicense | substrate/chlom-l1/pallets/licensing/src/lib.rs:538-561 | A contractual entitlement is granted to the holder of an active licence and ends no later than the licence |
| LicensingProofs.AcceptedOfferIsGrounded | substrate/chlom-l1/pallets/licensing/src/lib.rs:446-464 | A published offer was verified by its provider and rests on a publicly eligible DLA with a D3 instrument in force; a staged one on an eligible DLA |
| LicensingProofs.LostEligibilityIsFinal | substrate/chlom-l1/pallets/licensing/src/lib.rs:663-668 | A DLA version whose instrument is superseded or expired is never eligible again |
| LicensingProofs.ClosedForever | substrate/chlom-l1/pallets/licensing/src/lib.rs:640-651 | Once a licence's head is revoked, expired or superseded, neither it nor any entitlement naming it is active in any later state |
| LicensingProofs.NonTransferableForever | substrate/chlom-l1/pallets/licensing/src/lib.rs:374-379 | Once a version is not transferable every later version keeps its holder and stays so, and an active entitlement on the licence belongs to that holder |
| LicensingProofs.ReferenceIsExact | substrate/chlom-l1/runtime/src/origins.rs:179-193 | The reference handed to licensing exists exactly for a recorded instrument, carries its fields, and says superseded exactly when another record names it as its predecessor |
| LicensingPallet.LicensingPallet.IsLicenseActive | substrate/chlom-l1/pallets/licensing/src/lib.rs:701-710 | True exactly when the head is active, unexpired and its current DLA is eligible now |
| LicensingPallet.LicensingPallet.IsEntitlementActive | substrate/chlom-l1/pallets/licensing/src/lib.rs:712-727 | True exactly when the head is contractual, unexpired, its licence is active and has the same holder |
| LicensingPallet.LicensingPallet.RecordDlaVersion | substrate/chlom-l1/pallets/licensing/src/lib.rs:215-316 | The outcome names the first failing check, an error changes nothing, success adds exactly that version and head |
| LicensingPallet.LicensingPallet.RecordLicenseVersion | substrate/chlom-l1/pallets/licensing/src/lib.rs:320-414 | The same for licences |
| LicensingPallet.LicensingPallet.RecordLexOfferVersion | substrate/chlom-l1/pallets/licensing/src/lib.rs:418-511 | The same for offers |
| LicensingPallet.LicensingPallet.RecordEntitlementVersion | substrate/chlom-l1/pallets/licensing/src/lib.rs:515-608 | The same for entitlements |
| PolicyProofs.RunKeeps | substrate/chlom-l1/pallets/policy/src/lib.rs:143-269 | Over any run each index is exactly 1..n, later versions are effective and recorded no earlier, and nothing stored changes |
| PolicyProofs.ActiveUnique | substrate/chlom-l1/pallets/policy/src/lib.rs:276-297 | What the lookup promises determines its answer |
| PolicyProofs.PastIsFinal | substrate/chlom-l1/pallets/policy/src/lib.rs:276-297 | For every block before the current one the lookup answers the same after every later run |
| PolicyProofs.RevocationEndsIt | substrate/chlom-l1/pallets/policy/src/lib.rs:253-261 | Revoking the version in force changes the answer for the current block and every later one |
| PolicyProofs.AnswerCanChangeExactly | substrate/chlom-l1/pallets/policy/src/lib.rs:182-218 | The answer for a block can still change exactly when the block is not past and a version is active for it or another one can be recorded for it |
| PolicyProofs.ActiveVersionAscends | substrate/chlom-l1/pallets/policy/src/lib.rs:187-203 | The active version never decreases as the block grows |
| PolicyProofs.NeverRevived | substrate/chlom-l1/pallets/policy/src/lib.rs:276-297 | Once the newest applicable version is revoked or expired, no version up to it is active at any later block in any later state |
| PolicyProofs.EffectiveImpliesRecorded | substrate/chlom-l1/pallets/policy/src/lib.rs:182-186 | A stored version is applicable exactly when it is effective: the recorded-at condition never decides |
| PolicyProofs.AnswersOwnScope | substrate/chlom-l1/pallets/policy/src/lib.rs:272-282 | Unless two scopes share an identifier, the policy answered for a scope is that scope's own |
| PolicyProofs.RetryIsHarmless | substrate/chlom-l1/pallets/policy/src/lib.rs:169-181 | An accepted approval repeated in any later state succeeds and changes nothing |
| PolicyProofs.ApprovalIsNeverRewritten | substrate/chlom-l1/pallets/policy/src/lib.rs:169-181 | Other content under the same scope and version is refused in every later state |
| PolicyProofs.ApproveOutcome | substrate/chlom-l1/pallets/policy/src/lib.rs:148-226 | An approval is refused with the first check that fails, changes nothing when the same content is stored, and is otherwise stored as given at the current block as the next version |
| PolicyProofs.RevokeOutcome | substrate/chlom-l1/pallets/policy/src/lib.rs:230-268 | The first revocation is stored with its two hashes and block, the same again changes nothing, any other is refused |
| PolicyProofs.LookupOutcome | substrate/chlom-l1/pallets/policy/src/lib.rs:278-297 | The lookup answers with exactly the version that is recorded and effective at the block, neither ended nor revoked there, while every later one is not yet recorded or effective |
| PolicyPallet.PolicyPallet.ApproveVersion | substrate/chlom-l1/pallets/policy/src/lib.rs:148-226 | State and outcome are those of the model, and the invariant is kept |
| PolicyPallet.PolicyPallet.RevokeVersion | substrate/chlom-l1/pallets/policy/src/lib.rs:230-268 | State and outcome are those of the model, and the invariant is kept |
| PolicyPallet.PolicyPallet.ActivePolicy | substrate/chlom-l1/pallets/policy/src/lib.rs:278-297 | The reverse scan answers with the greatest applicable version if it is neither expired nor revoked, and with nothing otherwise |
| Apportion.SharesExact | substrate/chlom-l1/primitives/src/lib.rs:215-232 | Amounts sum to the total, every leg but the last is the exact share rounded down, and the last exceeds its own by at most the number of other legs |
| Apportion.DivideFirst | substrate/chlom-l1/primitives/src/lib.rs:221-227 | Dividing before multiplying gives the same rounded share |
| Apportion.NoOverflow | substrate/chlom-l1/primitives/src/lib.rs:221-227 | No intermediate product or sum leaves 128 bits, for every total |
| Apportion.SplitByBasisPoints | substrate/chlom-l1/primitives/src/lib.rs:204-233 | Fails exactly on an empty or unbalanced list; otherwise no checked operation fails and the amounts are the shares |
| Settlement.SaturationIsHarmless | substrate/chlom-l1/pallets/settlement/src/lib.rs:167-177 | The saturating total is the true one capped at the largest u32, so the balance check is exact |
| Settlement.PreviewNeverFailsInArithmetic | substrate/chlom-l1/pallets/settlement/src/lib.rs:222-234 | Previewing a recorded policy never fails in the arithmetic nor on money movement, whatever the amount |
| Settlement.RunKeeps | substrate/chlom-l1/pallets/settlement/src/lib.rs:135-267 | Over any run policies stay balanced, previews commit to amounts that sum to their gross and move no money, and nothing recorded changes |
| Settlement.PolicyOutcome | substrate/chlom-l1/pallets/settlement/src/lib.rs:139-196 | A policy is refused with the first check that fails and otherwise stored as given; its legs total 10000 |
| Settlement.PreviewOutcome | substrate/chlom-l1/pallets/settlement/src/lib.rs:200-266 | A preview is refused with the first check that fails and otherwise stored with the request's own fields and a root over amounts that sum to the gross, each the exact share rounded down but the last |
| Settlement.SettlementPallet.RecordRevenuePolicy | substrate/chlom-l1/pallets/settlement/src/lib.rs:139-196 | State and outcome are those of the model, and the invariant is kept |
| Settlement.SettlementPallet.Calculate | substrate/chlom-l1/pallets/settlement/src/lib.rs:200-266 | State and outcome are those of the model's preview, which is never an arithmetic failure |
| LargestRemainder.Order | public/lex-core.js:28 | The sort lists every index once, each before those with a smaller key or with an equal key and a higher index |
| LargestRemainder.ServedByRemainder | public/lex-core.js:28-29 | Along any order that puts strictly larger remainders first, each amount is its share rounded down or one more, none is passed over for a strictly smaller remainder, and the sum grows by the leftover |
| LargestRemainder.WholeShareGetsNoExtra | public/lex-core.js:28-29 | A share without a remainder gets no extra cent |
| LargestRemainder.LargerShareNeverLess | public/lex-core.js:28-29 | A larger share never receives less |
| LargestRemainder.UniqueWithoutTie | public/lex-core.js:28-29 | Unless a tie straddles the last place served, the amounts are determined by the sum and by larger remainders first |
| LargestRemainder.TiesMatterExactly | public/lex-core.js:28-29 | Every such order gives the lower-index amounts if and only if no tie straddles the last place served |
| LargestRemainder.SwappedAreTied | public/lex-core.js:28-29 | Whatever such an order and the lower-index order serve differently is tied across the last place served |
| LargestRemainder.EdgeIsSplit | public/lex-core.js:28-29 | A tie across the last place served splits in every such order: one of the tied is served and another is not |
| SplitRevenue.QuotientParts | public/lex-core.js:26-28 | The double quotient rounds down to the exact whole and its fraction is the remainder to within half a gap between doubles |
| SplitRevenue.KeyOrder | public/lex-core.js:28 | A strictly larger remainder gives a strictly larger sort key |
| SplitRevenue.LeftoverFits | public/lex-core.js:27-29 | The leftover is smaller than the number of recipients for every admitted amount, so the wrap-around index never wraps |
| SplitRevenue.MostSizesAreExact | public/lex-core.js:26 | Up to 900719925474 cents every product is exact, whatever the weights |
| SplitRevenue.OneProductOff | public/lex-core.js:26 | A product that is not exact is off by at most one, every other product is exact and smaller, and there is another one |
| SplitRevenue.TiesByError | public/lex-core.js:25-29 | For every admitted amount and the rounding at hand, the amounts are those with ties to the lower index if and only if, among those tied across the last place served, none the lower index serves has a smaller quotient error than one it does not serve |
| SplitRevenue.TiesGoLowExactly | public/lex-core.js:25-29 | For every admitted amount, every rounding of the quotients gives the amounts with ties to the lower index if and only if no two different weights tie across the last place served; with exact products those are the amounts by exact remainders |
| SplitRevenue.RemaindersByRounding | public/lex-core.js:25-29 | For every admitted amount and the rounding at hand, nobody is passed over for a strictly smaller exact remainder if and only if no rounded product tied across the last place served is served after rounding up or passed over after rounding down |
| SplitRevenue.RemaindersDecideExactly | public/lex-core.js:25-29 | For every admitted amount, under every rounding of the quotients nobody is passed over for a strictly smaller exact remainder if and only if no rounded product ties across the last place served |
| SplitRevenue.OffByExactlyOne | public/lex-core.js:26 | The exact remainder of such a product differs by exactly one from that of each recipient it ties with, below it when rounded up and above it when rounded down |
| SplitRevenue.PassedOverByOne | public/lex-core.js:25-29 | For every admitted amount, someone passed over has at most one ten-thousandth of a cent more left than someone served |
| SplitRevenue.RoundingBreaksTheTie | public/lex-core.js:26-29 | 52 cents split 35/45/20 tie at the edge, and the nearest doubles give the cent to the higher index |
| SplitRevenue.RoundedProductOvertakes | public/lex-core.js:26-29 | 999999999697 cents split 99.83/0.16/0.01: a rounded product lets a strictly smaller exact remainder win |
| SplitRevenue.BothInputsAreConsistent | public/lex-core.js:26-29 | Both inputs occur with doubles that round to nearest |
| SplitRevenue.BothConditionsOccur | public/lex-core.js:26-29 | In the first input two different weights tie, in the second a rounded product does, across the last place served |
| SplitRevenue.AllocationIsFair | public/lex-core.js:25-30 | For every admitted amount the amounts sum to the net, are the exact share rounded down or one more, give nothing extra to a whole share, never give a larger weight less, and follow the exact remainders to within one ten-thousandth of a cent |
| SplitRevenue.HandOut | public/lex-core.js:29 | The loop gives one cent to exactly the first recipients of the order |
| SplitRevenue.Divide | public/lex-core.js:25-30 | For balanced weights the amounts are those of the model and fair |
| SplitRevenue.SplitCents | public/lex-core.js:19-31 | Each refusal is exactly its condition, and an accepted request is divided fairly, by the doubles it is computed in |
| OracleProofs.RunKeeps | substrate/chlom-l1/pallets/oracle/src/lib.rs:203-374 | Every run from a sound state keeps the projection equal to the head revision, revisions 1..head dense and hash-linked with consecutive hashes different, and changes no stored revision or signal |
| OracleProofs.HistoryIsSound | substrate/chlom-l1/pallets/oracle/src/lib.rs:376-401 | This holds from a fresh chain and from any chain of signals and cases stored before revisions existed, and those signals stay as they were |
| OracleProofs.SubjectNeverChanges | substrate/chlom-l1/pallets/oracle/src/lib.rs:355-365 | A case keeps its signal, target and required authority for ever |
| OracleProofs.LegacyIsPreserved | substrate/chlom-l1/pallets/oracle/src/lib.rs:331-346 | A case stored before revisions existed is untouched until its first decision and revision 1 for ever after |
| OracleProofs.InvalidRevisionExactly | substrate/chlom-l1/pallets/oracle/src/lib.rs:327-354 | An otherwise admissible decision is refused exactly when it repeats the current hash or the counter is exhausted: the storage consistency checks never fire |
| OracleProofs.ReportOutcome | substrate/chlom-l1/pallets/oracle/src/lib.rs:207-293 | A report is refused with the first check that fails; an accepted one stores the signal as given and opens its case as revision 1 |
| OracleProofs.DecisionOutcome | substrate/chlom-l1/pallets/oracle/src/lib.rs:297-373 | A decision is accepted exactly when the identifiers are non-zero, the case is stored, the reviewer ranks at least as required, the state is one of the five, the hash is new and the counter not exhausted; its revision carries the call's own fields |
| OraclePallet.OraclePallet.ReportSignal | substrate/chlom-l1/pallets/oracle/src/lib.rs:207-293 | State and outcome are those of the model; a refusal leaves no partial signal |
| OraclePallet.OraclePallet.RecordReviewDecision | substrate/chlom-l1/pallets/oracle/src/lib.rs:297-373 | State and outcome are those of the model, and the invariant is kept |
| CheckpointProofs.RunKeeps | substrate/chlom-l1/pallets/checkpoint/src/lib.rs:125-341 | Over any run the checkpoints form one chain, every anchor is sound and nothing recorded changes |
| CheckpointProofs.ChainOfEverything | substrate/chlom-l1/pallets/checkpoint/src/lib.rs:154-216 | All checkpoints form one chain by root ending at the head, with ascending disjoint ranges, and their event counts sum to at most what the chain spans, so to at most 64 bits |
| CheckpointProofs.CoveredOnce | substrate/chlom-l1/pallets/checkpoint/src/lib.rs:187-198 | No ledger position is covered by two checkpoints |
| CheckpointProofs.ReceiptsAnchorRoots | substrate/chlom-l1/pallets/checkpoint/src/lib.rs:257-332 | Every receipt carries for ever the root of its intent's checkpoint, on the intended network |
| CheckpointProofs.CheckpointOutcome | substrate/chlom-l1/pallets/checkpoint/src/lib.rs:129-226 | A checkpoint is refused with the first check that fails and otherwise stored as given and made the head |
| CheckpointProofs.IntentOutcome | substrate/chlom-l1/pallets/checkpoint/src/lib.rs:230-278 | The same for an intent, which holds the call's fields and its checkpoint's root |
| CheckpointProofs.ReceiptOutcome | substrate/chlom-l1/pallets/checkpoint/src/lib.rs:282-340 | The same for a receipt, which holds the call's fields and its intent's root |
| CheckpointPallet.CheckpointPallet.RecordCheckpoint | substrate/chlom-l1/pallets/checkpoint/src/lib.rs:129-226 | The outcome names the first failing check, an error changes nothing, success adds the checkpoint and moves the head |
| CheckpointPallet.CheckpointPallet.RecordAnchorIntent | substrate/chlom-l1/pallets/checkpoint/src/lib.rs:230-278 | The same for an intent, whose root is taken from the checkpoint |
| CheckpointPallet.CheckpointPallet.RecordAnchorReceipt | substrate/chlom-l1/pallets/checkpoint/src/lib.rs:282-340 | The same for a receipt, whose root is taken from the intent |
| Limiter.NeverMoreThanTwenty | lib/protocol/zk.js:99-131 | With a clock that never goes back no window of a minute holds more than twenty admissions, although old starts are dropped, and no two verifications run at once |
| Limiter.AdmittedExactly | lib/protocol/zk.js:99-107 | With such a clock a request is turned away exactly when a verification is running or twenty were admitted in the minute up to it |
| Limiter.EveryStepBackAdmitsMore | lib/protocol/zk.js:102-107 | For any two times there is a run whose clock goes forward to the later and then once back to the earlier, after which a window holds twenty-one admissions |
| Limiter.VerificationGate.Begin | lib/protocol/zk.js:102-107 | Admits exactly when nothing is in flight and fewer than twenty recent starts remain; a refusal still drops old starts |

## Left out

- Ledger.CheckRow: reports at most the faults up to the first unreadable field of a row, not the source's full list of messages; an empty list means the same.
- Ledger.VerifyCold: one fault stands for all faults of the document's own fields; an empty list means the same. First and last sequence may be any JSON value that Python finds equal to the number, except that floats of 10^16 and more, which print with an exponent, are not recognised.
- SplitRevenue.SplitCents: takes amounts and weights after rounding to whole cents and hundredths of a percent; conversion from text and that first rounding are not modelled. The quotient is any within half a gap of the exact one.
- Reading a cold export from text or bytes into a document, and writing the restored files.
- Parsing: RFC 3339 timestamps, JSON text and the database rendering of a payload are arbitrary partial functions (the first is idempotent on its results), and floats are their printed tokens. The default of the current time and the generated event id are arguments.
- LedgerModel.Prepare: a lone surrogate in a payload key makes the source raise UnicodeEncodeError while it orders the keys for the database text; here it is the same failure as any other, and nothing is recorded in either.
- LedgerModel.NewEvent: the source stores the payload cloned through JSON (the same JSON value, its keys sorted); the model stores the given one.
- Copying of rows on the way in and out of the ledger, and its lock: rows are values, and each locked section is one step.
- Balance, names, error messages, provider discovery, the status call and the expiry timer of the wallet connection. Unbinding listeners is over-approximated by wallet events arriving at any time, and switching to Base by a background refresh at any time.
- The sort algorithm of the JavaScript engine in `splitRevenue`: the order is the one its comparator determines.
- The bounds on the number of settlement legs, which their type guarantees, and the encodings under the pallets' hashes.
- Getters, proxies and string escapes other than those `JSON.stringify` prints, in the canonical printer.
- The worker, its timeout and its messages in the ZK verifier: they are one event that ends a verification. The registry and proof checks of the same file would only add field checks.
- Events, origins, weights and storage deposits of the pallets: a caller is assumed authorised.
- The utility, tokenization, authority and identity pallets, HTTP handlers, sessions, database and RPC clients, packaging and the node service: field checks or plumbing, or their source is not part of this model.
