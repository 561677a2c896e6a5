# KageB in Dafny

KageB is a batch-trading protocol with three kinds of party: an on-chain epoch program, three keypers with durable journals, and a custodial host whose ledger lives in two files. This project models the parts of it whose correctness is a property of whole runs, and proves those properties in Dafny 4.11. `dafny verify dfyconfig.toml` checks everything.

The modules, from the bottom up:

- `Bytes`, `Order`, `Sums`, `Layout`: machine integers and encodings, sorted and distinct lists and the entries of ordered maps, finite sums, fixed binary layouts.
- `Ledger`: the netting of one batch. `Reservations`, `Accounts`: the two journals as objects over files, and the two operations that span both.
- `JournalRuns`: every interleaving of any number of journal handles as a machine of lock, check, compute, write and drop steps, with a stop possible at any point. `Solvency`, `Commits`, `Retries`, `Queries`, `SettlementMark`, `AccountFile` prove what every run keeps; `SoloRuns` builds runs of whole calls.
- `Commitment`, `Wire`, `ChainState`, `Quorum`, `Program`, `ProgramRuns`, `EpochHistory`: set commitments, signed payloads, the account layouts, approval counting, and the epoch program as instructions over a map of epoch accounts and four token balances.
- `HostChain`, `TokenEffects`, `Fates`, `Custody`: the host's view of the chain, the token legs as program, observer and evidence check see them, and the two sides together.
- `Submission`, `Admission`, `LockPackage`, `Recovery`, `Settlement`, `Agreement`, `Approval`: from encrypted submissions to the settlement payload.
- `Keyper`, `KeyperRuns`, `KeyperSafety`: the lock journal, approval and share release, and runs of keypers and chain with stops, restarts and a lost journal file. `SettlementRuns` adds settlement signing to those runs, and `Finalised` the host's journals.
- `PackageWire`, `RequestWire`: the two large wire formats. `Licenses`: the license expression evaluator at token level.
- `HostOutcomes`, `ProgramOutcomes`, `AdmissionOutcomes`, `LockOutcomes`, `RecomputeOutcomes`: for each operation, in plain terms and both directions, when it succeeds and what it then does. `KeyperApprovals` carries those of a package into every run.
- `SettledResults`, `EndToEnd`, `SettlesAsApproved`, `Signatures`: what a commitment fixes, that what keypers approve is what the program locks and settles, and what signatures bind.
- `Capabilities`, `Canonical`, `CanonicalWire`, `CanonicalFile`: on arbitrary bytes, exactly which accounts, messages and files are accepted.

What stands for code outside the model is a parameter, and what is assumed of it is a hypothesis of the lemma that needs it:

- SHA-256 is any function. Collision freedom and "never all zero" are assumed only of the messages a lemma names (`Sound`), because no function into 32 bytes has them for all messages.
- A 32-byte array is the number its bytes spell, so byte-wise order is the order of numbers.
- Signature checking, ciphertext checking, key parsing and share checking are functions in `Crypto` and `Threshold`. Threshold recovery is assumed to give one plaintext for any two valid shares with distinct indices (`ThresholdSound`). That keypers sign only through `sign_lock`, and that nobody else can sign for them, is `KeyperSafety.Honest`; the same of `sign_settlement` is `SettlementRuns.Honest`, and of the operator's and a trader's key `Signatures.OperatorSigned` and `Signatures.TraderSigned`.
- Program-derived addresses are functions (`Pda`). The chain clock does not go backwards where a lemma says `Clocked`.
- A failed instruction changes nothing. A file replacement is atomic; an I/O error after it took effect is that replacement followed by a stop. A busy lock is a stop.
- `reserve` being passed the stored balance, and finalised results being nettings funded by their reservations, is `Solvency.Honest`; finalising only settled and releasing only failed epochs is `Commits.ChainHonest`.

Where the obvious claim is wrong, the code is kept and the exact situation is proved:

- An epoch can have Released nonces and a commit, because `finalize_settlement` takes no chain capability: `Commits.ReleasedThenCommitted`, and a run from empty files that gets there is `SoloRuns.BothWaysReached`. A run gets there exactly by committing an epoch that already has a Released nonce: `Commits.BothWaysIff`. It cannot when the callers follow the chain: `Fates.NoEpochBothWays`.
- Recovery after a stop between the two writes works exactly until another epoch is committed to one of the members: `Commits.RecoveryIff`. A retry may name, and then consumes, a second reservation of a member: `Retries.SecondReservationUsed`, a run that does it is `SoloRuns.TwiceUsedReached`, and exactly when it happens is `Retries.TwiceUsedIff`.
- `admit_batch` records a nonce before it looks at the receipt, so a refused submission can keep out a later good one: `Admission.RefusalBurnsNonce`, and exactly when: `Admission.AdmittedUnlessBurnt`.
- docs/protocol.md line 18 says that duplicate trading keys are rejected. The code does not look at them: `Admission.SharedTradingKeyAdmitted`. Exactly when members do have distinct ones: `Admission.DistinctKeysIff`. The model follows the code.
- The license evaluator returns true on some malformed lists, all of which contain OR: `Licenses.DanglingOrAccepted`, `Licenses.ExactWithoutOr`. Which lists are accepted, and on which of them the verdict is wrong, is said by readings of the tokens: `Licenses.AcceptedIff`, `Licenses.VerdictIff`.

## Model

| member | source | states |
|---|---|---|
| `Ledger.NetBatch` | crates/kageb-host/src/ledger.rs:154-252 | The two-pass loop with its checked counters, checked products and checked negation returns exactly the per-participant specification, errors included, for every book under 2^63 entries and every list under 2^32 orders; so none of those overflows and no `ConservationFailed` is ever returned there |
| `Ledger.Totals` | crates/kageb-host/src/ledger.rs:254-263 | A returned pair is the two sums; below 2^63 entries the i128 overflow branch is not taken |
| `Ledger.Conserves` | crates/kageb-host/src/ledger.rs:128-139 | True exactly when closing totals are opening totals plus the vault delta (below 2^63 entries) |
| `Ledger.NetSucceedsIff` | crates/kageb-host/src/ledger.rs:154-216 | Netting succeeds exactly when there is an order, participants are distinct, and each order can be filled on its own against the opening book |
| `Ledger.NettingIsOrderIndependent` | crates/kageb-host/src/ledger.rs:167-216 | Permuting the orders changes neither success nor any part of the result |
| `Ledger.Conservation` | crates/kageb-host/src/ledger.rs:185-251 | For every acceptable batch the closing totals of both assets are the opening totals plus signed lots times the lot size |
| `Ledger.NettedResult` | crates/kageb-host/src/ledger.rs:219-251 | The residual is buys minus sells, the vault delta is that many lots, totals move by the delta, and no participant appears or disappears |
| `Ledger.NettedMoves` | crates/kageb-host/src/ledger.rs:185-216 | Every participant keeps their balance or trades exactly one lot at the epoch price |
| `Reservations.ReservationJournal.SumReserved` | crates/kageb-host/src/admission.rs:219-238 | The fold is the sum of reserved atoms of the participant and fails exactly when a sum leaves u64 |
| `Reservations.ReservationJournal.Reserve` | crates/kageb-host/src/admission.rs:212-255 | The file gains the record exactly when the nonce is new and everything still reserved plus the new amounts is covered; on error file and cache are unchanged |
| `Reservations.ReservationJournal.CheckFinalize` | crates/kageb-host/src/admission.rs:270-297 | The checking loop equals its specification, including which error is reported and whether a nonce was already Used |
| `Reservations.ReservationJournal.CheckRelease` | crates/kageb-host/src/admission.rs:314-335 | The checking loop of a release equals its specification |
| `Reservations.ReservationJournal.MoveAll` | crates/kageb-host/src/admission.rs:298-312 | Exactly the named nonces that are still Reserved move; the rest of the file stays |
| `Reservations.CheckMeaning` | crates/kageb-host/src/admission.rs:277-291 | The loop accepts exactly distinct nonces of this epoch, none of them in the forbidden state |
| `Reservations.FinalizeMeaning` | crates/kageb-host/src/admission.rs:277-297 | An accepted finalisation names exactly one nonce of every member and none of anyone else (pigeonhole) |
| `Accounts.AccountJournal.Register` | crates/kageb-host/src/account.rs:139-163 | Registers exactly new, nonzero, non-empty accounts and writes nothing otherwise |
| `Accounts.AccountJournal.QueryResult` | crates/kageb-host/src/account.rs:165-185 | Reads the file again and answers from it, changing nothing on disk; what that answer is over a whole run is `Queries.QueryAnswers` |
| `Queries.QueryAnswers` | crates/kageb-host/src/account.rs:165-232 | After any run a query is answered if and only if the participant was registered under exactly that key and some commit named it, and the answer is the epoch and the balance of the last such commit |
| `Queries.QueryRefusals` | crates/kageb-host/src/account.rs:165-185 | The three refusals, exactly: never registered, registered under another key, not yet named by a commit |
| `Accounts.AccountJournal.AllMatch` | crates/kageb-host/src/account.rs:324-334 | The loop decides whether every stored balance is the one this result left for this epoch |
| `Accounts.AccountJournal.ApplySettlement` | crates/kageb-host/src/account.rs:187-232 | Equals its specification on cache and file, errors included; when that succeeds and what it writes is `HostOutcomes.ApplyIff` and `HostOutcomes.FirstFinalizeIff` |
| `Accounts.FinalizeSettlement` | crates/kageb-host/src/account.rs:276-292 | The two-journal operation run to completion equals its specification on both files; its outcome in plain terms is `HostOutcomes.FirstFinalizeIff` |
| `Accounts.ReleaseReservations` | crates/kageb-host/src/account.rs:296-312 | A release consults the commit marker and moves only nonces of its own epoch |
| `JournalRuns.StepInv` | crates/kageb-host/src/account.rs:259-312 | Every lock, check, read, write, drop and stop of any handle keeps mutual exclusion and what each handle knows about the files it has locked |
| `JournalRuns.RunInv` | crates/kageb-host/src/account.rs:259-312 | The same over every run of any number of handles |
| `Solvency.SolvencyThroughCrashes` | crates/kageb-host/src/account.rs:187-292 | In every state reachable with any interleaving and stops anywhere, each participant's Reserved atoms in epochs not yet applied are covered by the stored balance in both assets, when `reserve` is passed the stored balance and finalised results are nettings whose lots the reservations cover |
| `Solvency.NettedMovesOneLot` | crates/kageb-host/src/ledger.rs:185-216 | A netting moves each member by at most one lot, which is what the reservations have to cover |
| `Commits.FirstCommitIsReserved` | crates/kageb-host/src/admission.rs:277-311 | In every run an epoch's first commit is written only while every nonce passed is a Reserved nonce of that epoch, one per member |
| `Commits.StepReleases` | crates/kageb-host/src/account.rs:296-312 | A nonce becomes Released only through a release of its own epoch and only while that has no commit marker |
| `Commits.CommittedNeverReleased` | crates/kageb-host/src/admission.rs:314-348 | After an epoch's commit no nonce of it ever becomes Released, in any continuation |
| `Commits.NeverCommittedAndReleased` | crates/kageb-host/src/account.rs:276-312 | If finalisation is called only for settled and release only for failed epochs, no epoch ever has both a commit and a Released nonce |
| `Commits.ReleasedThenCommitted` | crates/kageb-host/src/account.rs:276-292 | Without that discipline it fails: whenever a first commit would succeed and one more nonce is Reserved, releasing that nonce and then finalising both succeed |
| `Commits.BothWaysIff` | crates/kageb-host/src/account.rs:276-312 | Exactly when: a run leaves an epoch with a commit and a Released nonce if and only if some first commit was written while the file already held a Released nonce of that epoch |
| `Commits.RecordChangeIsCommit` | crates/kageb-host/src/account.rs:205-231 | A stored record changes only in the first commit of an epoch whose result names its participant |
| `Commits.CommittedOnce` | crates/kageb-host/src/account.rs:187-232 | In any run an epoch is committed at most once |
| `Commits.OtherResultRefused` | crates/kageb-host/src/account.rs:199-204 | Finalising a committed epoch with a result of another digest is refused and writes nothing |
| `Commits.RetryOutcome` | crates/kageb-host/src/admission.rs:277-311 | With the marker on disk, finalising with any accepted nonces, also a member's second reservation, succeeds exactly when the stored balances still match, changes no balance and makes those nonces Used |
| `Commits.RecoveryIff` | crates/kageb-host/src/account.rs:276-292 | After a commit and any further steps, including a stop between the two writes, repeating the call succeeds with all nonces Used if and only if no other epoch has meanwhile been committed to one of its members |
| `Retries.SecondReservationUsed` | crates/kageb-host/src/account.rs:276-292 | A retry that names another, still Reserved nonce of a member consumes it beside the one already Used |
| `Retries.TwiceUsedIff` | crates/kageb-host/src/admission.rs:277-311 | A participant ends a run with two Used nonces in one epoch if and only if some finalisation of that epoch was written that used a Reserved nonce of the participant while another one was already Used |
| `SoloRuns.TwiceUsedReached` | crates/kageb-host/src/account.rs:276-292 | A run of whole calls from empty files that ends so, under any digest |
| `SoloRuns.BothWaysReached` | crates/kageb-host/src/account.rs:276-312 | A run of whole calls from empty files that ends with an epoch both committed and released from |
| `SoloRuns.BoughtIsNetted` | crates/kageb-host/src/ledger.rs:154-252 | The result finalised in those two runs is a genuine netting at valid lot sizes |
| `SoloRuns.SoloRelease` | crates/kageb-host/src/account.rs:296-312 | The step machine run by one handle alone computes the specification of a release |
| `Commits.SoloFinalize` | crates/kageb-host/src/account.rs:276-292 | The step-by-step machine run by one handle alone computes the specification of the whole operation |
| `Fates.FatesDisjoint` | crates/kageb-program/src/processor.rs:566-613 | Over any chain run no epoch is Settled at one time and Expired or Aborted at another |
| `Fates.NoEpochBothWays` | crates/kageb-host/src/lock.rs:1148-1167 | Chain and journals together: if finalisation follows Settled epochs and release needs a capability of a failed one, no epoch has both a commit and a Released nonce |
| `SettlementMark.SettlementDigest` | crates/kageb-host/src/account.rs:336-352 | The hasher is fed the tag and the two books with their counts |
| `SettlementMark.MessageInjective` | crates/kageb-host/src/account.rs:336-352 | Both books can be recovered from the hashed bytes |
| `SettlementMark.BooksDetermineResult` | crates/kageb-host/src/ledger.rs:185-251 | The two books of a netting determine everything else about it: the lot sizes it was netted at, its residual and its vault delta, whatever configurations are compared |
| `SettlementMark.CommittedResultIsFinal` | crates/kageb-host/src/account.rs:187-232 | After a commit, whatever happens next, finalising that epoch with any netting result, at any lot sizes, succeeds only with that very result |
| `AccountFile.Persist` | crates/kageb-host/src/account.rs:414-436 | The bytes appended to the buffer are the file of this state; a state that does not fit its counts is refused |
| `AccountFile.Load` | crates/kageb-host/src/account.rs:354-412 | On any bytes at all the loader computes its specification and every slice stays inside the file |
| `AccountFile.RecordRoundTrip` | crates/kageb-host/src/account.rs:36-76 | A record decodes to itself exactly when `decode` would accept it |
| `AccountFile.FileRoundTrip` | crates/kageb-host/src/account.rs:354-436 | What was written is read back unchanged |
| `AccountFile.NettingLeavesSomething` | crates/kageb-host/src/ledger.rs:185-216 | No netting result leaves an account that owned something with both balances zero |
| `AccountFile.ReachableFilesLoad` | crates/kageb-host/src/account.rs:354-436 | Every account file written in any run with stops loads, and loads as the state that was written |
| `Commitment.ContentRoot` | crates/kageb-host/src/commitment.rs:29-60 | Hashing, sorting, the neighbour check and the final hash compute the specified root |
| `Commitment.RefusesExactlyDuplicates` | crates/kageb-host/src/commitment.rs:47-50 | A list is refused exactly when a leaf is repeated |
| `Commitment.SameRootIffPermutation` | crates/kageb-host/src/commitment.rs:29-60 | Two accepted lists share a root under one domain exactly when they are permutations of each other |
| `Commitment.DomainsSeparate` | crates/kageb-host/src/commitment.rs:6-22 | Different domains never share a root |
| `Wire.ConfigRoundTrip` | crates/kageb-program/src/wire.rs:27-80 | A configuration is 263 bytes and decodes to itself |
| `Wire.LockRoundTrip` | crates/kageb-program/src/wire.rs:94-126 | A lock payload is 173 bytes and decodes to itself |
| `Wire.SettlementRoundTrip` | crates/kageb-program/src/wire.rs:149-201 | A settlement payload is 374 bytes and decodes to itself |
| `Wire.ConfigDigestInjective` | crates/kageb-program/src/wire.rs:49-51 | The configuration hash determines the configuration |
| `Wire.LockDigestInjective` | crates/kageb-program/src/wire.rs:107-109 | A lock digest determines the payload |
| `Wire.SettlementDigestInjective` | crates/kageb-program/src/wire.rs:176-178 | A settlement digest determines the payload |
| `Wire.LockIsNotSettlement` | crates/kageb-program/src/wire.rs:204-209 | A digest signed for a lock is never one of a settlement |
| `ChainState.EncodeEpoch` | crates/kageb-program/src/state.rs:136-167 | The zeroed array overwritten through a moving offset holds the epoch layout |
| `ChainState.EpochRoundTrip` | crates/kageb-program/src/state.rs:136-217 | An epoch account read back is the state that was stored |
| `ChainState.EncodePool` | crates/kageb-program/src/state.rs:52-79 | The zeroed array overwritten through a moving offset holds the pool layout |
| `ChainState.PoolRoundTrip` | crates/kageb-program/src/state.rs:52-113 | A pool account read back is the state that was stored |
| `Quorum.CountMatching` | crates/kageb-program/src/ed25519.rs:45-85 | The loop over a `matched` array counts the distinct keypers that a strict verifier instruction shows to have signed the digest |
| `Program.Accounts.CreateEpoch` | crates/kageb-program/src/processor.rs:177-278 | Creates an Open epoch under the stated conditions, otherwise reports the error and changes nothing |
| `Program.Accounts.Lock` | crates/kageb-program/src/processor.rs:280-347 | Locks exactly an Open epoch before its deadline with a fitting payload, enough members and two approvals |
| `Program.Accounts.Settle` | crates/kageb-program/src/processor.rs:349-527 | Equals its specification on the accounts and changes nothing on error; exactly when it succeeds is `ProgramOutcomes.SettleIff`, what it stores `ProgramOutcomes.SettleStores` |
| `Program.Accounts.ExpireOrAbort` | crates/kageb-program/src/processor.rs:566-613 | Ends exactly an Open or Locked epoch strictly after its deadline |
| `ProgramRuns.EpochRunInvariant` | crates/kageb-program/src/processor.rs:177-613 | In every reachable state each epoch is valid, its configuration hash is that of its own fields, a lock has at least four members and at least the minimum and its digest is that of the stored fields, and a settled epoch's digest is that of the payload rebuilt from pool and epoch |
| `ProgramRuns.AccountsOnlyMoveForward` | crates/kageb-program/src/processor.rs:280-613 | Over any run configuration never changes, a lock is never replaced, and Settled, Expired and Aborted accounts never change again |
| `ProgramRuns.NeverBothEnabled` | crates/kageb-program/src/processor.rs:402-408 | Settle and abort of an epoch are never both possible, nor lock and expire |
| `ProgramRuns.NoSettlementAfterAbortTime` | crates/kageb-program/src/processor.rs:566-613 | Once the abort deadline has passed unsettled, no later step of a run with a forward clock settles the epoch |
| `ProgramRuns.SettleMovesResidual` | crates/kageb-program/src/processor.rs:460-526 | A settle moves the pool by exactly the signed residual it stores, and pool plus venue stays |
| `ProgramRuns.VaultConservation` | crates/kageb-program/src/processor.rs:460-526 | Over any run pool plus venue is constant per mint and the pool's change is the sum of signed settled residuals |
| `EpochHistory.EveryEpochHasItsStory` | crates/kageb-program/src/processor.rs:177-613 | Every epoch account of every reachable state traces back to instructions of the run, in this order: the pool operator created it before its deadlines with its present terms; a lock before the lock deadline carried exactly the stored fields with two different keypers signing the stored digest; a settle up to the abort deadline likewise; or it ended by expire or abort strictly after its deadline |
| `EpochHistory.QuorumIsTwo` | crates/kageb-program/src/ed25519.rs:45-85 | A count of two means two different keypers each signed the digest |
| `EpochHistory.NeverStuck` | crates/kageb-program/src/processor.rs:566-613 | In every reachable state an unfinished epoch past its abort deadline can be ended |
| `HostChain.OpenAgrees` | crates/kageb-host/src/lock.rs:1040-1130 | The open capability, with the program's own configuration, is granted if and only if the account is Open, before its lock deadline, read no later than confirmed, and the pool's operator key is usable |
| `HostChain.LockAgrees` | crates/kageb-host/src/lock.rs:1169-1266 | The lock capability is granted if and only if the account is Locked, up to its abort deadline, read no later than confirmed, and its configuration hash is not zero |
| `HostChain.TerminalAgrees` | crates/kageb-host/src/lock.rs:1148-1167 | An Expired or Aborted account, and no other, yields the terminal capability |
| `HostChain.HostAndChainAgree` | crates/kageb-host/src/lock.rs:1040-1266 | For every epoch state the program can reach, encoded and decoded, each capability is granted exactly under its condition and a Settled account gets none; a zero configuration hash does not occur where the hash is sound |
| `TokenEffects.LegsAreTransfers` | crates/kageb-program/src/processor.rs:460-515 | The two legs are the emitted transfers carried out in order on four accounts, failing together with them |
| `TokenEffects.ValidateEffects` | crates/kageb-host/src/observer.rs:498-590 | The observer accepts exactly a recording of the transfers the program emits for this residual |
| `TokenEffects.RecordedUnique` | crates/kageb-host/src/observer.rs:558-590 | A recording shows one list of transfers only |
| `TokenEffects.ExactInstruction` | crates/kageb-host/src/observer.rs:405-452 | Accepts exactly strict verifier instructions followed by the one program instruction |
| `TokenEffects.DeltasAreLegs` | crates/kageb-host/src/evidence.rs:655-710 | The evidence check accepts exactly the balance changes the settlement legs produce |
| `Submission.AuthRoundTrip` | crates/kageb-host/src/crypto.rs:200-262 | An authorization is 249 bytes and, with usable keys, decodes to itself |
| `Submission.SubmissionRoundTrip` | crates/kageb-host/src/crypto.rs:866-893 | A submission with a full-length ciphertext is 689 bytes and decodes to itself |
| `Submission.LeafInjective` | crates/kageb-host/src/crypto.rs:857-864 | A commitment leaf determines the whole submission, ciphertext included |
| `Submission.LeafIsNotKeys` | crates/kageb-host/src/crypto.rs:414-420 | A submission's leaf is never taken for the key set's |
| `Admission.AdmitBatch` | crates/kageb-host/src/crypto.rs:930-957 | The loop over three collections equals its fold, also when the crowd is too small |
| `Admission.MembersAscend` | crates/kageb-host/src/crypto.rs:954-956 | Members come out in participant order, each filed under its own participant |
| `Admission.MembersApart` | crates/kageb-host/src/crypto.rs:934-947 | All members are valid and no two share a participant, nonce or receipt |
| `Admission.AppendKeepsMembers` | crates/kageb-host/src/crypto.rs:934-947 | Appending submissions never drops or replaces an admitted member |
| `Admission.AdmittedUnlessBurnt` | crates/kageb-host/src/crypto.rs:934-947 | A valid submission that conflicts with no member is admitted exactly when no earlier submission refused for its receipt alone carried its nonce |
| `Admission.RefusalBurnsNonce` | crates/kageb-host/src/crypto.rs:937-940 | A refused submission keeps its nonce from a later, otherwise good one |
| `Admission.DistinctKeysIff` | crates/kageb-host/src/crypto.rs:934-947 | The members have pairwise distinct trading keys if and only if at no point of the list a submission that is valid, conflicts with no member and has no burnt nonce carried the trading key of a member |
| `Admission.SharedTradingKeyAdmitted` | crates/kageb-host/src/crypto.rs:934-947 | The smallest instance: two valid submissions with one trading key and nothing else in common are both admitted |
| `LockPackage.CheckUnique` | crates/kageb-host/src/lock.rs:366-382 | The uniqueness loop equals its specification, including which error comes first |
| `LockPackage.CheckMembersMeaning` | crates/kageb-host/src/lock.rs:366-382 | That loop accepts exactly valid submissions with distinct participants, nonces and receipts |
| `LockPackage.AdmittedPassUniqueness` | crates/kageb-host/src/lock.rs:366-382 | Admitted members always pass it under the same policy |
| `LockPackage.CheckBalances` | crates/kageb-host/src/lock.rs:395-417 | The balance loop accepts exactly one covering balance per member |
| `LockPackage.HoldersAreMembers` | crates/kageb-host/src/lock.rs:395-417 | Accepted balances are exactly the members' (pigeonhole) |
| `LockPackage.Validate` | crates/kageb-host/src/lock.rs:330-419 | All checks in order, with their errors, ending in the package digest; exactly which packages pass is `LockOutcomes.ValidateIff` |
| `LockPackage.ContentsMean` | crates/kageb-host/src/lock.rs:363-418 | What the content checks establish about members, balances and both roots |
| `LockPackage.ValidateLocked` | crates/kageb-host/src/lock.rs:421-470 | The same checks against a confirmed lock |
| `LockPackage.ValidateLockedMeans` | crates/kageb-host/src/lock.rs:421-470 | An accepted package has the digest, roots and count the chain recorded |
| `Recovery.RecoverAll` | crates/kageb-host/src/evidence.rs:2225-2241 | The loop recovers every submission or fails |
| `Recovery.RecoveredIs` | crates/kageb-host/src/crypto.rs:447-499 | What is recovered depends on the key set and the ciphertexts alone, not on which two shares are used |
| `Recovery.CollectOrders` | crates/kageb-host/src/evidence.rs:2242-2273 | The loop yields one order per intent exactly when every intent belongs to a member, verifies, has a limit, and no member appears twice |
| `Recovery.EveryMemberTradesOnce` | crates/kageb-host/src/evidence.rs:2242-2273 | As many intents as members, all from members, no two from one: every member trades exactly once |
| `Settlement.Recompute` | crates/kageb-host/src/evidence.rs:2206-2342 | The whole recomputation equals its specification, errors included; exactly when it succeeds is `RecomputeOutcomes.RecomputeIff`, every field of its result `SettledResults.Explained` |
| `Settlement.NetFailsOnly` | crates/kageb-host/src/ledger.rs:185-216 | Distinct funded orders net unless a limit is violated or a credited balance overflows |
| `Settlement.FullCoverage` | crates/kageb-host/src/evidence.rs:2218-2289 | For a package accepted against a confirmed lock whose intents verify, the orders hit each locked member exactly once and netting can fail only by a limit or a credited overflow |
| `Agreement.MembersAgree` | crates/kageb-host/src/lock.rs:1268-1286 | Equal member roots mean equal key sets and permuted submissions |
| `Agreement.BalancesAgree` | crates/kageb-host/src/lock.rs:1288-1297 | Equal balance roots mean permuted balances |
| `Agreement.PackagesAgree` | crates/kageb-host/src/lock.rs:421-470 | Two packages accepted against one lock hold the same configuration, key set, submissions and balances, in any order |
| `Agreement.SettlementAgreement` | crates/kageb-host/src/evidence.rs:2206-2426 | Any two payloads recomputed against one confirmed lock are equal except for the nonce, whatever the order of submissions and balances and whichever valid share pairs are used |
| `Approval.SignSettlement` | crates/kageb-host/src/evidence.rs:2157-2203 | A keyper approves exactly a request equal to its own recomputation, as the configured keyper of a lock it journaled |
| `Approval.BuiltRequestApproved` | crates/kageb-host/src/evidence.rs:1953-1973 | A request made by `build` is approved by exactly the keypers that may sign, and what they sign is its digest |
| `Approval.ApprovalsAgree` | crates/kageb-host/src/evidence.rs:2157-2203 | Whatever requests two keypers are shown against one lock, the payloads they approve differ at most in the nonce |
| `Approval.SettledAsRecomputed` | crates/kageb-program/src/processor.rs:517-526 | A settled epoch whose digest was approved stores the residual and commitment of the recomputed netting |
| `SettlementRuns.SettledWasRecomputed` | crates/kageb-host/src/evidence.rs:2157-2203 | In every run of keypers and chain where settlement signatures come only from `sign_settlement`, each Settled epoch stores a payload that two different keypers recomputed against reads of its lock they had journaled |
| `SettlementRuns.SettledAsAnyoneRecomputes` | crates/kageb-host/src/evidence.rs:2206-2342 | And anyone who recomputes the batch against any read of that lock, at any time, gets the residual and commitment the chain stores |
| `SettlementRuns.ReadsAgree` | crates/kageb-host/src/lock.rs:1214-1266 | Two reads of one epoch's lock at whatever times differ at most in the slot |
| `Finalised.FinalisedAsSettled` | crates/kageb-host/src/account.rs:276-292 | In such a run, finalising one's own recomputation of a settled epoch is finalising what the chain settled |
| `Keyper.LockJournal.Open` | crates/kageb-host/src/lock.rs:835-852 | First start, restart and half-initialised paths are told apart; the last fails |
| `Keyper.LockJournal.Record` | crates/kageb-host/src/lock.rs:858-876 | The first digest of an epoch stays; a different one is refused without writing |
| `Keyper.ReferenceKeyper.SignLock` | crates/kageb-host/src/lock.rs:699-725 | A digest is returned for signing only after it is in the journal on disk |
| `Keyper.ReferenceKeyper.ReleaseShare` | crates/kageb-host/src/lock.rs:727-767 | Equals its specification; exactly when a share goes out, and of which ciphertext, is `LockOutcomes.ReleaseIff` |
| `Keyper.AllCiphersApart` | crates/kageb-host/src/lock.rs:752-759 | The loop decides whether all ciphertext hashes differ |
| `KeyperRuns.StepInv` | crates/kageb-host/src/lock.rs:835-876 | Opening, restarting, stopping, journaling, signing and losing the file keep the journal invariant |
| `KeyperRuns.JournalNeverForgets` | crates/kageb-host/src/lock.rs:835-876 | Over every run what was journaled is never changed, and an existing journal file holds all of it |
| `KeyperSafety.HalfInitialisedStaysShut` | crates/kageb-host/src/lock.rs:839-849 | A path with a marker and no journal never opens again and never records another digest |
| `KeyperSafety.LockUniqueness` | crates/kageb-host/src/lock.rs:699-725 | In every reachable world at most one lock of an epoch has two of three approvals |
| `KeyperSafety.CountedSupport` | crates/kageb-program/src/ed25519.rs:65-85 | Every keyper the program counts gave its approval |
| `KeyperSafety.ChainLockIsTheOne` | crates/kageb-program/src/processor.rs:325-347 | Once the chain holds a lock, it is the only payload of that epoch two keypers ever approve |
| `KeyperSafety.ShareReleaseSafety` | crates/kageb-host/src/lock.rs:727-767 | Every share ever released is of the ciphertext of the member asked for and of no other member's, in the set whose digest the chain holds and this keyper had journaled; the set has at least four members, all granted by the pool's operator and signed by their traders, with distinct participants, nonces and receipts, over balances the pool's operator signed |
| `PackageWire.EncodePackage` | crates/kageb-host/src/lock.rs:472-509 | The buffer holds the package layout exactly when the size limits are kept |
| `PackageWire.PackageRoundTrip` | crates/kageb-host/src/lock.rs:472-631 | A package is received unchanged and is at most 49788 bytes |
| `RequestWire.DecodeEvidences` | crates/kageb-host/src/evidence.rs:2052-2078 | The decoding loop with its moving offset stays inside every byte string and reads what the cursor specification reads |
| `RequestWire.ShareRoundTrip` | crates/kageb-host/src/crypto.rs:567-615 | A released share decodes to itself |
| `RequestWire.EncodeRequest` | crates/kageb-host/src/evidence.rs:1975-2027 | The buffer holds the request layout exactly when the package encodes and no share is too long |
| `RequestWire.RequestRoundTrip` | crates/kageb-host/src/evidence.rs:1975-2133 | A consistent request is received unchanged and fits the frame |
| `RequestWire.BuiltRequestRoundTrip` | crates/kageb-host/src/evidence.rs:1953-2133 | Every request made by `build` that is accepted for encoding is returned unchanged by the decoder and fits 128 KiB |
| `Custody.CommitStored` | crates/kageb-host/src/account.rs:205-231 | A first commit changes the stored total of each asset by the result's vault delta |
| `Custody.StoredIsDepositsPlusDeltas` | crates/kageb-host/src/account.rs:139-232 | Over every run with stops the stored balances are the deposits plus each committed epoch's vault delta, once |
| `Custody.SettleEqualsLedgerDelta` | crates/kageb-program/src/processor.rs:460-526 | The change of the vault by a settle equals the ledger's vault delta |
| `Custody.VaultMinusLedger` | crates/kageb-host/src/ledger.rs:219-251 | Over any chain run and any journal run that finalises only what was settled, vault minus stored balances changes, beyond deposits, only by what is settled and not yet finalised |
| `Finalised.VaultMinusRecomputedLedger` | crates/kageb-host/src/ledger.rs:219-251 | The same with keypers, chain and journals together: it is enough that the host finalises its own recomputations of settled epochs |
| `HostOutcomes.FillIff` | crates/kageb-host/src/ledger.rs:185-216 | One order is filled if and only if its participant is in the book with a full lot of both assets, the price is within the limit and the credit fits; the balance then moves by one lot in the direction ordered |
| `HostOutcomes.FillRefusals` | crates/kageb-host/src/ledger.rs:185-216 | Which of the refusals is reported, in order |
| `HostOutcomes.NetIff` | crates/kageb-host/src/ledger.rs:154-216 | A batch nets if and only if it has an order, no participant twice, and every order can be filled against the opening book |
| `HostOutcomes.NetDoes` | crates/kageb-host/src/ledger.rs:185-251 | Then every orderer moves by exactly one lot and nobody else moves |
| `HostOutcomes.ReserveIff` | crates/kageb-host/src/admission.rs:212-255 | A reservation is recorded if and only if the nonce is new, what the participant has Reserved plus the new amounts is at most the available balance in both assets, equality included, and the file has room; the file then gains exactly that record |
| `HostOutcomes.RegisterIff` | crates/kageb-host/src/account.rs:139-163 | An account is registered if and only if its name is new and not zero, it owns something, and the file has room; nothing else changes |
| `HostOutcomes.FirstFinalizeIff` | crates/kageb-host/src/account.rs:276-292 | The first commit of an epoch succeeds if and only if the epoch is not zero, the nonces are distinct Reserved nonces of it, one per member and none of anyone else, every stored balance is the opening balance of the result, everyone it leaves a balance has a record, and one more marker fits |
| `HostOutcomes.FirstFinalizeDoes` | crates/kageb-host/src/account.rs:276-292 | It then stores exactly the closing balances and the epoch in the records of the members, sets this epoch's marker to the result's digest, makes exactly the named nonces Used, and leaves everything else |
| `HostOutcomes.ApplyIff` | crates/kageb-host/src/account.rs:187-232 | The account part alone: a settlement is applied if and only if its epoch is not zero and it is either the first of that epoch and current, or the very one already committed whose members still stand as it left them |
| `HostOutcomes.ReleaseIff` | crates/kageb-host/src/account.rs:296-312 | A release succeeds if and only if the epoch has no commit marker and the nonces are distinct, of that epoch and none of them Used; exactly they are then Released and nothing else moves |
| `HostOutcomes.AloneCommitsIff` | crates/kageb-host/src/account.rs:276-292 | After any run, the step machine driven by one handle alone commits the epoch if and only if those conditions hold of the two files it finds |
| `ProgramOutcomes.QuorumIff` | crates/kageb-program/src/ed25519.rs:45-85 | The count reaches the threshold if and only if two different configured keypers each signed the digest |
| `ProgramOutcomes.CreateIff` | crates/kageb-program/src/processor.rs:177-278 | In every state: an epoch is created if and only if the pool is in order, the pool's operator asks, the terms are at least four members, a price, a lock deadline still to come and a later abort deadline, at its derived address, where no account exists |
| `ProgramOutcomes.CreateDoes` | crates/kageb-program/src/processor.rs:177-278 | It then holds exactly those terms, Open, with everything else zero, and no other account changes |
| `ProgramOutcomes.LockIff` | crates/kageb-program/src/processor.rs:280-347 | In every reachable state: a lock succeeds if and only if the epoch is Open, the lock deadline is still to come, the payload names this account, its configuration hash and its deadline, has nonzero roots and nonce and at least the minimum of members, and two different keypers signed its digest |
| `ProgramOutcomes.LockDoes` | crates/kageb-program/src/processor.rs:280-347 | It then stores the payload's fields and its digest in that epoch and changes nothing else |
| `ProgramOutcomes.SettleIff` | crates/kageb-program/src/processor.rs:349-527 | In every reachable state: a settle succeeds if and only if the epoch is Locked, not past its abort deadline, the residual is in order, commitment and nonce are not zero and the nonce is not the lock's, two different keypers signed the payload rebuilt from pool and epoch, both products fit u64, and the accounts can pay both legs |
| `ProgramOutcomes.SettleStores` | crates/kageb-program/src/processor.rs:460-527 | It then stores residual, commitment, nonce and digest in that epoch and touches no other; what it moves is `ProgramRuns.SettleMovesResidual` |
| `ProgramOutcomes.EndIff` | crates/kageb-program/src/processor.rs:566-613 | In every reachable state: expiry succeeds if and only if the epoch is Open past its lock deadline, abort if and only if it is Locked past its abort deadline |
| `ProgramOutcomes.EndDoes` | crates/kageb-program/src/processor.rs:566-613 | It is then Expired or Aborted respectively and nothing else changes |
| `LockOutcomes.ValidIff` | crates/kageb-host/src/crypto.rs:161-190 | A submission is admissible if and only if the pool's operator signed its grant for this epoch, these lots and an expiry still to come, and its trader signed the ciphertext under that grant |
| `LockOutcomes.SnapshotIff` | crates/kageb-host/src/lock.rs:201-223 | The snapshot is accepted if and only if the operator signed this root over exactly this many balances of this epoch |
| `LockOutcomes.ValidateIff` | crates/kageb-host/src/lock.rs:330-419 | A package is accepted if and only if its terms are those of the open epoch and still in time, it has enough members and at most 64, all admissible and no two alike under its member root, its balances are signed by the operator under its balance root, and there is one for each member that reserves what the member was granted and holds at least that |
| `LockOutcomes.ValidateLockedIff` | crates/kageb-host/src/lock.rs:421-470 | Against a confirmed lock: if and only if it is in order for the epoch the lock stands for and its digest, both roots and count are those the chain recorded |
| `LockOutcomes.ApproveIff` | crates/kageb-host/src/lock.rs:699-725 | A keyper approves a package if and only if it is in order for the open epoch and the keyper is the configured one at its index with its own secret |
| `LockOutcomes.ApprovedPayload` | crates/kageb-host/src/lock.rs:318-328 | And what it signs is the payload with exactly this package's account, configuration, roots, count, deadline and nonce |
| `LockOutcomes.ReleaseIff` | crates/kageb-host/src/lock.rs:727-767 | A share goes out if and only if the package is accepted against the confirmed lock, the keyper is the configured one with its own secret and has journaled this lock, the member exists, and all ciphertext hashes differ; and it is a share of the ciphertext of the member asked for |
| `LockOutcomes.OpenIff` | crates/kageb-host/src/lock.rs:835-852 | A journal opens if and only if marker and journal are both there or both missing; it then holds what was journaled, or nothing |
| `LockOutcomes.RecordIff` | crates/kageb-host/src/lock.rs:858-876 | A digest is journaled if and only if the journal file is there and holds that digest for the epoch, or none yet and has room |
| `RecomputeOutcomes.RecoverOneIff` | crates/kageb-host/src/crypto.rs:447-499 | A submission is recovered as an intent if and only if two valid shares of different keypers name this account, this lock and this ciphertext and decrypt it to that intent |
| `RecomputeOutcomes.RecomputeIff` | crates/kageb-host/src/evidence.rs:2206-2342 | A batch can be recomputed if and only if its package is accepted against the lock, the nonce is neither zero nor the lock's, there is one pair of shares per member, and every ciphertext opens to an intent signed by a member for this epoch, no two by one, each within its limit and with room for the credit |
| `KeyperApprovals.ApprovedLockSafety` | crates/kageb-host/src/lock.rs:699-725 | In every run each approved lock is over a package with the terms of an epoch the chain holds: at least four members granted by the pool's operator and signed by their traders, no two alike, over balances the pool's operator signed; and the approved payload commits to exactly that package |
| `AdmissionOutcomes.AdmitIff` | crates/kageb-host/src/crypto.rs:930-957 | A batch is admitted if and only if at least the minimum of its submissions are taken, where one is taken if it is valid, unlike every one taken before in participant, nonce and receipt, and its nonce was not wasted by one refused for its receipt alone |
| `AdmissionOutcomes.MemberIff` | crates/kageb-host/src/crypto.rs:934-956 | And its members are exactly the submissions taken |
| `SettledResults.MessageDetermines` | crates/kageb-host/src/evidence.rs:2398-2418 | The 224 bytes under a result commitment determine account, lock digest, recovered root, both balance roots, side, lots and result root |
| `SettledResults.Explained` | crates/kageb-host/src/evidence.rs:2206-2342 | Every field of a recomputation: the netting of its intents against its balances, its closing balances and their root, the root of the results, and the commitment to all of it |
| `SettledResults.CommitmentFixesResult` | crates/kageb-host/src/evidence.rs:2206-2426 | Two recomputations with one result commitment have the same closing balances, the same residual and the same opening and closing balance of every participant, whatever packages and evidence they started from |
| `SettledResults.ResultRootFixes` | crates/kageb-host/src/evidence.rs:2353-2373 | Equal result roots over the same closing balances mean equal opening balances of every participant |
| `SettlesAsApproved.SettledFixesResult` | crates/kageb-program/src/processor.rs:517-526 | The commitment a Settled epoch stores fixes its closing balances: whoever shows a recomputation with that commitment, of whatever package against whatever lock, shows the result two keypers recomputed |
| `SettlesAsApproved.PayloadIsPrograms` | crates/kageb-program/src/processor.rs:435-452 | The payload a keyper recomputes is the one the program rebuilds from its own accounts |
| `SettlesAsApproved.ApprovedRecomputationSettles` | crates/kageb-program/src/processor.rs:349-527 | In every reachable world a recomputation signed by two different keypers settles its epoch while that is Locked, in time and payable, and the epoch then stores its residual and commitment |
| `EndToEnd.ApprovedPackageLocks` | crates/kageb-program/src/processor.rs:280-347 | A package in order that two different keypers signed locks its epoch while that is Open and in time |
| `EndToEnd.LockLeaves` | crates/kageb-program/src/processor.rs:325-347 | The epoch then records this package's roots, count, nonce and digest |
| `EndToEnd.LockedPackageAccepted` | crates/kageb-host/src/lock.rs:421-470 | Whoever confirms that lock at a slot accepts the same package against it if and only if none of its authorizations has expired by then |
| `Signatures.AuthMessageInjective` | crates/kageb-host/src/crypto.rs:266-296 | The operator's signature covers every field of a grant |
| `Signatures.SubmissionMessageInjective` | crates/kageb-host/src/crypto.rs:895-909 | The trader's signature covers grant, ciphertext and receipt |
| `Signatures.OperatorMessagesApart` | crates/kageb-host/src/lock.rs:1299-1306 | A signed grant is never taken for a signed snapshot |
| `Signatures.TraderMessagesApart` | crates/kageb-host/src/crypto.rs:365-371 | A signed submission is never taken for a signed intent |
| `Signatures.WasGranted` | crates/kageb-host/src/crypto.rs:161-190 | If nothing else verifies under the operator's key, every admissible submission rests on a grant the operator made, field by field |
| `Signatures.WasSubmitted` | crates/kageb-host/src/crypto.rs:839-855 | If nothing else verifies under its trader's key, every admissible submission is one the trader made: same grant, ciphertext and receipt |
| `Signatures.NettedWereOrdered` | crates/kageb-host/src/evidence.rs:2242-2273 | Every order a recomputation nets comes from an intent whose body its own member's trading key signed, and, if nothing else verifies under that key, meant |
| `Signatures.ReleasedWereGranted` | crates/kageb-host/src/lock.rs:727-767 | In every run a share is released only in a set whose every member the pool's operator granted, over balances it signed |
| `Signatures.ApprovedWereGranted` | crates/kageb-host/src/lock.rs:699-725 | And a lock is approved only over such a set |
| `Approval.SignIff` | crates/kageb-host/src/evidence.rs:2157-2203 | A keyper approves a request if and only if it recomputes, every claim in it is the recomputed one, and the keyper is the configured one, holds the matching secret and has journaled the lock; what it signs is the recomputed payload |
| `Capabilities.OpenIff` | crates/kageb-host/src/lock.rs:1040-1130 | On any two accounts: the open capability is given if and only if they are, owned by the program, the bytes of an epoch and its pool that satisfy every check and invariant of the program, Open and in time; it carries their terms |
| `Capabilities.LockIff` | crates/kageb-host/src/lock.rs:1169-1266 | On any two accounts: the lock capability is given if and only if they are the bytes of a locked epoch whose digest is that of its lock fields and of the pool at the address it names whose terms it committed to, up to the abort deadline; it carries both |
| `Capabilities.TerminalIff` | crates/kageb-host/src/lock.rs:1132-1167 | On any account: the terminal capability is given if and only if it is the bytes of an expired or aborted epoch at its derived address |
| `Canonical.ConfigIff` | crates/kageb-program/src/wire.rs:27-80 | Bytes decode to a configuration if and only if they are its encoding |
| `Canonical.LockIff` | crates/kageb-program/src/wire.rs:94-126 | Bytes decode to a lock payload if and only if they are its encoding |
| `Canonical.SettlementIff` | crates/kageb-program/src/wire.rs:149-201 | Bytes decode to a settlement payload if and only if they are its encoding |
| `Canonical.EpochIff` | crates/kageb-program/src/state.rs:136-217 | Bytes decode to an epoch if and only if they are its account layout, reserved bytes zero |
| `Canonical.PoolIff` | crates/kageb-program/src/state.rs:52-113 | Bytes decode to a pool if and only if they are its account layout, reserved bytes zero |
| `Canonical.SubmissionIff` | crates/kageb-host/src/crypto.rs:866-893 | Bytes decode to a submission if and only if they are its encoding and its version and keys are usable |
| `Canonical.ApprovesIff` | crates/kageb-program/src/ed25519.rs:16-43 | An instruction is an approval if and only if it is the verifier's, without accounts, and its 144 bytes are the one strict header, the key, a signature and the digest |
| `CanonicalWire.PackageIff` | crates/kageb-host/src/lock.rs:472-631 | Bytes are received as a package if and only if they are what a package that can be sent is written as |
| `CanonicalWire.RequestIff` | crates/kageb-host/src/evidence.rs:1975-2133 | Bytes are received as a settlement request if and only if they are what a consistent request is written as |
| `CanonicalFile.LoadIff` | crates/kageb-host/src/account.rs:354-436 | Bytes load as a state if and only if that can be stored and they are its header, counts, every record and every marker once, in any order, and the checksum |
| `Licenses.LicenseExpression.Parse` | scripts/check-licenses.py:48-54 | The entry point on every token list |
| `Licenses.LicenseExpression.ParseOr` | scripts/check-licenses.py:56-61 | The loop equals its specification and terminates |
| `Licenses.LicenseExpression.ParseAnd` | scripts/check-licenses.py:63-68 | The loop equals its specification and terminates |
| `Licenses.LicenseExpression.ParsePrimary` | scripts/check-licenses.py:70-87 | A group, a license, or a license with an exception |
| `Licenses.LicenseExpression.Take` | scripts/check-licenses.py:89-93 | Advances the cursor exactly over the expected token |
| `Licenses.ParsePrinted` | scripts/check-licenses.py:48-87 | For every well-formed expression tree, parsing its tokens consumes them all and returns its boolean meaning, WITH binding tighter than AND and AND tighter than OR (section D.4 of the SPDX specification 2.3) |
| `Licenses.DanglingOrAccepted` | scripts/check-licenses.py:56-61 | Every allowed expression followed by a dangling OR is accepted although no well-formed expression has those tokens |
| `Licenses.ScanIff` | scripts/check-licenses.py:48-87 | One left-to-right scan with a nesting depth accepts exactly the tokens of well-formed expressions |
| `Licenses.AcceptedIff` | scripts/check-licenses.py:48-87 | On every token list: it is accepted if and only if it has a reading that holds, where a reading may contain a keyword taken as an operand, a cut-off WITH, a missing operand at the end or an unclosed group, each with its condition on the tokens |
| `Licenses.VerdictIff` | scripts/check-licenses.py:48-87 | On every token list: the verdict is wrong if and only if the list has a faulty reading that holds; it then accepts, and it never refuses an allowed expression |
| `Licenses.FaultlessIff` | scripts/check-licenses.py:48-87 | A reading is free of faults exactly when its list is a well-formed expression |
| `Licenses.PolicyExactWithoutOr` | scripts/check-licenses.py:11-30 | Under the policy the script enforces the verdict is exact on every list without OR |
| `Licenses.ExactWithoutOr` | scripts/check-licenses.py:48-87 | On lists without the token OR the verdict is exact: true exactly for the tokens of a well-formed allowed expression |

## Left out

- RPC fetching, process spawning, key files, stdin framing and validator start-up: I/O plumbing; only the 128 KiB request limit is used.
- SHA-256, Ed25519, threshold encryption, bincode and the SPL Token program: libraries, represented by parameters and by the effect of a transfer.
- Account flags, account distinctness, mint and token-account layout checks, rent and PDA creation: reduced to "an epoch account exists exactly after its creation, and only once"; one pool per run.
- `initialize_pool`: the pool is a fixed account that the other instructions validate on every use.
- The bare `mark_used` and `release` of the reservation journal: they do not consult the commit marker, so the run-level claims do not cover them.
- The reservation file's and the lock journal's byte formats: same kind of codec as the account file's; both files are values here.
- `SuspensionRegistry`, `IntentBodyV1` and instruction codecs, public trace rendering, devnet evidence JSON, build checkpoints and loader parsing: flat codecs and comparisons.
- Decoding of the clock account and of recorded token instructions: their decoded values are parameters.
- Sorting: `sort_unstable` is a function on sequences, not an in-place array algorithm.
- The SPDX tokeniser: the evaluator starts from a token list.
- Which error `verify_admission`, `recover_submission` and the wire decoders report: only whether they fail; the modelled callers map all these errors to one.
- Ledger.NetBatch: says nothing about books of 2^63 or more entries or lists of 2^32 or more orders, which no memory holds; the same bound applies to Ledger.Totals and Ledger.Conserves.
- TokenEffects.DeltasAreLegs: takes the sum of pool and venue balances of a mint to fit u64, which a token supply does.
- TokenEffects.ExactInstruction: takes the program and the signature verifier to be different programs.
- PackageWire.PackageRoundTrip: requires that the key set deserialises and that balance records were made by their constructor, which the types of the original guarantee.
- CanonicalWire.PackageIff: a key set is the bytes it deserialises from, and so is a share in CanonicalWire.RequestIff; that the library's own serialisation is canonical is not modelled.
- Custody.VaultMinusLedger: takes as hypothesis that each finalised result is the one the chain settled; Finalised.VaultMinusRecomputedLedger replaces it by the host finalising its own recomputations.
- Privacy and anonymity: not decided by this code as a functional property.
