# FixZone service models

Dafny models of the hard parts of the FixZone / SecureZone backend, with proofs of what they keep. A
table is a map of rows; one Prisma call or one `$transaction` is one atomic step. Services that
update rows are classes whose methods are proved against functions on the rows; the properties are
lemmas about those functions, about runs of them, and about every interleaving where requests overlap.
For the operations some lemma also tells condition and effect without the function: from the run that led
there, from what users may do afterwards, or from the single fields.

| part | files |
|---|---|
| numbers, texts, dates, roles | `arithmetic`, `bits`, `bytes`, `codec`, `int32`, `text`, `wrappers`, `calendar`, `date_keys`, `roles` |
| privileged multi-factor authentication | `base32`, `totp`, `mfa_store`, `mfa_protocol`, `mfa_service`, `mfa_safety`, `mfa_attempts`, `mfa_recovery`, `mfa_sessions`, `mfa_admission`, `mfa_slow`, `mfa_runs` |
| payments | `billing_period`, `plan_catalog`, `payment_store`, `payment_safety`, `receipt_numbers`, `payment_outcome`, `payment_status`, `payment_reconciliation`, `payments_service`, `paystack_adapter` |
| accounts and sessions | `identity_store`, `identity_safety`, `identity_rows`, `identity_protocol`, `auth_service`, `credentials`, `credentials_safety`, `credentials_exact` |
| validators and matchers | `base64_gate`, `location_text`, `location_twice`, `place_match`, `routing_jurisdiction` |
| summaries of logs | `visitor_store`, `visitor_safety`, `visitor_service`, `trend_points`, `analytics_service` |
| administration, invitations, scoring | `internal_admin_store`, `internal_admin_safety`, `internal_admin_effects`, `internal_admin_protocol`, `internal_admin_service`, `invitation_store`, `invitation_safety`, `invitation_effects`, `invitation_protocol`, `users_service`, `provider_score` |

Where a desired property does not hold of the code, the model keeps the code and states exactly when it
holds, but for the last item, which has a one-way bound:

- A matching PAID event is not enough for a payment to end PAID. Receipt numbers are made of the last
  twelve characters of the reference and are unique, so a shared ending rolls the second fulfilment
  back. `PaymentOutcome.PaidExactly` is the exact condition, `CreatedReferencesBlock` a failing run with
  references that the code can create, and `PaidIffConfirmed` the property for references that end
  differently.
- A login can take something away from its user: uid, level, times, status, role. A write does so if and
  only if another write to that user was committed between the login's read and its own and left what the
  login does not know of (`IdentityProtocol.WriteTakesAwayExactly`, for the uid alone
  `BoundUidReplacedExactly`). `OverlapTakesAway` is a failing run; `UndisturbedLoginKeeps` is what a caller
  can ensure.
- Normalizing a location twice is not the same as once. It is if and only if the raw text does not hide
  the capital territory's name behind separators other than single spaces
  (`LocationTwice.NormalizingTwiceExactly`); `TwiceIsNotOnce` is an input.
- An active super administrator does not always stay. One operation at a time, the last one leaves only by
  accepting an invitation (`InternalAdminSafety.LastSuperLeavesOnlyByAccepting`, with a state in
  `LastSuperCanLeave`). Over interleavings, also by a suspension whose count was undone before its write
  (`InternalAdminProtocol.LastSuperLeavesExactly`); two administrators who suspend each other
  (`MutualSuspensionLeavesNone`) reach that.
- Invitations into an organization can make super administrators: the role checks name SUPER_ADMIN and ten
  governance roles, but not PLATFORM_SUPER_ADMIN. `InvitationSafety.SupersGrowExactly` says when,
  `OrgAdminCanMakeSuper` is a run of an organization's administrator, and `ReservedRolesStay` what holds of
  the roles that are named.
- A session of multi-factor authentication is not single use. A success uses a session that was used before
  if and only if its request was already in flight when another request used the session
  (`MfaSessions.UsedAgainExactly`). `SessionIsUsedTwice` is a run from empty tables, `AloneUsesFresh` what
  a caller can ensure, and `UsesAreBounded` the bound by the requests in flight on the session.
- Requests that overlap can leave two open invitations of one organization and role with one address or
  number: a new row is a duplicate if and only if an open invitation of the same target was created since
  its request's check (`InvitationProtocol.DuplicatesExactly`). `OverlapDuplicates` is a failing run,
  `UndisturbedInvitationIsDistinct` what a caller can ensure.
- Counted by the clock at the write, more than hi - lo + 3 TOTP steps can be accepted from clock step lo to
  hi. `MfaSlow.AcceptedByTheClockOfTheWrite` is a bound, not an exact condition: every request that waits
  with an earlier match can add one, and when nobody waits the bound is hi - lo + 3 (`NobodyWaiting`).
  `ManyAtOnce` is a run from empty tables with any number of acceptances in one clock step.

Parameters stand for what the code does not decide: HMAC-SHA1 (`hmac`), `toLowerCase` (`lower`), clocks
and fresh ids (arguments of each step), provider answers, and the plan and role catalogs, which the
lemmas take as arbitrary and the constructors of the classes fix. SHA-256 is a free constructor, so equal
digests come from equal texts.

## Model

| member | source | states |
|---|---|---|
| Codec.DecodeInvertsEncode | src/auth/privileged-mfa.service.ts:628-659 | for both alphabets, decoding inverts encoding for every byte sequence |
| Codec.DataReencodesIff | src/security/upload-security.service.ts:59-67 | for both alphabets, decoding and encoding reproduces a text exactly when less than a symbol is left over, all of it zero bits |
| Base32.Encode | src/auth/privileged-mfa.service.ts:628-642 | the loop with its never-masked signed accumulator writes exactly the symbols that spell the input's bits, padded with zeros to whole symbols |
| Base32.Decode | src/auth/privileged-mfa.service.ts:644-659 | the decoding loop yields exactly the whole bytes of the symbols' bits, or the error for a character outside the alphabet |
| Base32.DecodeSymbols | src/auth/privileged-mfa.service.ts:648-658 | the same for the loop alone, after padding and case are dealt with |
| Base32.AlphabetLiteral | src/auth/privileged-mfa.service.ts:63 | symbol x is the x-th character of the code's alphabet text |
| Base32.RoundTrip | src/auth/privileged-mfa.service.ts:628-659 | decoding inverts encoding for every byte sequence |
| Base32.EncodedInjective | src/auth/privileged-mfa.service.ts:628-642 | different byte sequences have different encodings |
| Base32.ReencodesIff | src/auth/privileged-mfa.service.ts:628-659 | exactly which alphabet texts decoding and encoding reproduces |
| Totp.BinaryIsBigEndian | src/auth/privileged-mfa.service.ts:613-624 | the signed 32-bit shifts and ors of dynamic truncation read four bytes big-endian without the sign bit |
| Totp.CodeFitsIff | src/auth/privileged-mfa.service.ts:605-626 | a six-digit text is the code of a step exactly when it denotes the truncated value modulo a million |
| Totp.EarliestInWindow | src/auth/privileged-mfa.service.ts:456-463 | the result is the least step of the three around the clock that fits, or none fits; negative steps are skipped |
| Totp.StepIsThirtySeconds | src/auth/privileged-mfa.service.ts:467-469 | steps are thirty seconds long |
| Totp.MatchTotpStep | src/auth/privileged-mfa.service.ts:452-465 | the method returns that step for the decoded secret, nothing for a malformed code, and an error for a bad secret |
| Totp.MatchWindow | src/auth/privileged-mfa.service.ts:455-464 | the loop over the offsets finds the earliest fitting step |
| MfaStore.FormattingKeepsCode | src/auth/privileged-mfa.service.ts:471-493 | the dashes put in for display do not change which recovery code is named |
| MfaStore.CaseIsIgnored | src/auth/privileged-mfa.service.ts:491-493 | codes that differ in letter case only have the same digest |
| MfaStore.SameCodeIff | src/auth/privileged-mfa.service.ts:491-493 | codes of letters and digits have the same digest exactly when they differ in letter case only |
| MfaStore.SeparatorsAreIgnored | src/auth/privileged-mfa.service.ts:491-493 | any other character may stand anywhere in a code |
| MfaService.PrivilegedMfaService.RecordFailure | src/auth/privileged-mfa.service.ts:437-446 | one more failure in the row and none elsewhere, and a session that has reached five failures is ended: it validates for no later request |
| MfaService.PrivilegedMfaService.FindEnrollment | src/auth/privileged-mfa.service.ts:415-435 | the row found is an eligible one that precedes all others, or there is none |
| MfaService.PrivilegedMfaService.Start | src/auth/privileged-mfa.service.ts:107-149 | exactly the user's pending enrollments are disabled and one pending row is added |
| MfaService.PrivilegedMfaService.Confirm | src/auth/privileged-mfa.service.ts:177-214 | all of activation, replacement of the user's codes and consumption of the session, or nothing when a digest clashes |
| MfaService.PrivilegedMfaService.TryStep | src/auth/privileged-mfa.service.ts:276-301 | success spends the step for the enrollment: the stored step is strictly larger than before, no step up to it is accepted again, on any session, and the session is ended |
| MfaService.PrivilegedMfaService.TryCode | src/auth/privileged-mfa.service.ts:338-359 | success spends the code: it is accepted on no session again, other codes stay, and the session is ended |
| MfaSafety.EveryStepHasEffect | src/auth/privileged-mfa.service.ts:107-380 | every atomic step of every request is quiet, one accepted step, one accepted code, one confirmation or one failure |
| MfaSafety.AcceptedStepsIncrease | src/auth/privileged-mfa.service.ts:253-314 | in every interleaving the accepted steps of an enrollment strictly increase since its confirmation, and at most T - S + 3 are matched from clock step S to T |
| MfaSlow.AcceptedByTheClockOfTheWrite | src/auth/privileged-mfa.service.ts:253-314 | by the clock at the write, from clock step lo to hi at most hi - lo + 3 steps of an enrollment are accepted, and one more for each request that was waiting with an earlier match |
| MfaSlow.NobodyWaiting | src/auth/privileged-mfa.service.ts:253-314 | when no request was waiting at lo, at most hi - lo + 3 steps are accepted |
| MfaSlow.ManyAtOnce | src/auth/privileged-mfa.service.ts:253-314 | with any HMAC and key, a run from empty tables in which enrollment, logins and matches lead to any number of acceptances in one clock step, as far as the range of dates goes |
| MfaSlow.FourAtOnce | src/auth/privileged-mfa.service.ts:253-314 | four of them exceed hi - lo + 3, from a reachable state |
| MfaAttempts.CounterIsFailures | src/auth/privileged-mfa.service.ts:437-446 | in every interleaving the counter equals the recorded failures, and a lock means at least five |
| MfaAttempts.FiveFailuresEndASession | src/auth/privileged-mfa.service.ts:380-413 | a session with five failures never validates again, in any continuation; `MfaAdmission.BeginsExactly` has all conditions |
| MfaAttempts.FailuresAreBounded | src/auth/privileged-mfa.service.ts:380-446 | with at most k requests on the session in flight it records at most 4 + k failures, whatever other sessions do |
| MfaAdmission.BeginsExactly | src/auth/privileged-mfa.service.ts:380-413 | in every interleaving, a request on a session can begin if and only if a login of an account that is active and privileged now opened it for the purpose of the request less than ten minutes ago, nobody has used it, and it has fewer than five failures |
| MfaAdmission.LockedAtFive | src/auth/privileged-mfa.service.ts:437-446 | when its requests follow each other, a session is locked exactly from its fifth failure on |
| MfaAdmission.AtMostOnePending | src/auth/privileged-mfa.service.ts:107-149 | in every interleaving a user has at most one pending enrollment |
| MfaAdmission.LatestIsRead | src/auth/privileged-mfa.service.ts:415-435 | a challenge reads the active enrollment enabled last, a confirmation the pending one created last |
| MfaAdmission.ConfirmationWrites | src/auth/privileged-mfa.service.ts:177-214 | a confirmation activates its enrollment with no step accepted, makes the ten codes the only ones of the user, and consumes the session, exactly when the digests are new |
| MfaSessions.ConsumedNeverValidates | src/auth/privileged-mfa.service.ts:380-413 | a consumed session never validates again, in any continuation; `MfaAdmission.BeginsExactly` has all conditions |
| MfaSessions.UsesAreBounded | src/auth/privileged-mfa.service.ts:276-371 | with at most k requests on the session in flight it is used for at most k successes, whatever other sessions do |
| MfaSessions.UsedAgainExactly | src/auth/privileged-mfa.service.ts:276-371 | a success uses a session again if and only if its request was in flight on it already when another request used it |
| MfaSessions.AloneUsesFresh | src/auth/privileged-mfa.service.ts:276-371 | a request that was alone on its session whenever it was in flight has a session that was not used before |
| MfaSessions.TwoRequestsFind | src/auth/privileged-mfa.service.ts:323-342 | two requests with different unused codes on one session both get as far as their writes |
| MfaSessions.UsedTwice | src/auth/privileged-mfa.service.ts:344-371 | from there both writes succeed, so the session is used twice |
| MfaSessions.SessionIsUsedTwice | src/auth/privileged-mfa.service.ts:107-371 | with any HMAC, key and starting time, a run from empty tables, through enrollment and login, that uses one session twice |
| MfaRuns.Enrolls | src/auth/privileged-mfa.service.ts:107-214 | from empty tables, login, start and confirmation go through and leave one active enrollment and the ten codes |
| MfaRecovery.EachCodeOnce | src/auth/privileged-mfa.service.ts:323-371 | in every interleaving each recovery code is accepted at most once |
| MfaRecovery.AtMostTenCodes | src/auth/privileged-mfa.service.ts:177-204 | between two confirmations at most ten codes of a user are accepted |
| Calendar.FirstDayFormula | src/payments/payments.service.ts:788-793 | the day numbers of section 21.4.1.3 of ECMA-262 agree with laying the months end to end |
| Calendar.CivilIsUnique | src/payments/payments.service.ts:788-793 | each day has one civil date and each civil date one day |
| Calendar.MakeDateKeepsTime | src/payments/payments.service.ts:788-793 | a made date lies on its day, at the same time of day, whole days away |
| Calendar.ShiftDate | src/public/public-metrics.service.ts:378-379 | adding to the date setter moves by exactly that many days across month ends |
| BillingPeriod.AddBillingPeriod | src/payments/payments.service.ts:788-793 | for every start the setters, with their overflow, land the days of the start month later, or 365 or 366 days later, at the same time of day |
| BillingPeriod.MonthEnd | src/payments/payments.service.ts:791 | a monthly period ends on the same date if the next month has it, else the missing days run over |
| BillingPeriod.YearEnd | src/payments/payments.service.ts:790 | a yearly period ends on the same date, or on 1 March for a leap day |
| PlanCatalog.Find | src/payments/plan-catalog.ts:91-94 | a plan is found exactly when the list has the code, and has it |
| PaymentsService.PaymentsService.FindRow | src/payments/payments.service.ts:358-365 | the row found is named by either reference, or no row is |
| PaymentsService.PaymentsService.FulfillPayment | src/payments/payments.service.ts:431-543 | all writes of a fulfilment, or none with the reason: no active plan, no valid end, no organization, number taken |
| PaymentsService.PaymentsService.ProcessTrusted | src/payments/payments.service.ts:354-429 | settled rows stay, mismatches go to review, PAID fulfils, other statuses are recorded |
| PaymentsService.PaymentsService.ReconcilePending | src/payments/payments.service.ts:317-352 | the loop over the candidates is a pass of one turn each, in which the provider was asked about the candidate; rows and counters are those of the pass |
| PaymentSafety.NeverReferenceMismatch | src/payments/payments.service.ts:545-564 | a looked-up row never fails by its reference; it matches exactly when amount and currency agree |
| PaymentSafety.StepEffect | src/payments/payments.service.ts:354-543 | every step either fulfils one open row or keeps terms and settled rows and settles nothing |
| PaymentSafety.EveryRunAgrees | src/payments/payments.service.ts:354-543 | after every run rows, receipts, subscriptions, organizations and upgrade requests agree with the log of fulfilments |
| PaymentOutcome.PaidIsFinal | src/payments/payments.service.ts:376-381 | a paid transaction and its receipt never change again |
| PaymentOutcome.PaidExactly | src/payments/payments.service.ts:354-543 | a transaction ends PAID if and only if some matching PAID event arrives while its receipt number is free |
| PaymentOutcome.PaidIffConfirmed | src/payments/payments.service.ts:354-543 | with distinct receipt numbers it ends PAID if and only if the run contains a matching PAID event |
| PaymentOutcome.OrderDoesNotMatter | src/payments/payments.service.ts:354-543 | two orders of the same events pay the same transactions |
| PaymentOutcome.SharedNumberBlocks | src/payments/payments.service.ts:481-499 | a run where the matching event is there and the second fulfilment still rolls back |
| ReceiptNumbers.LastTwelveDigitsCount | src/payments/payments.service.ts:770-797 | two created references have one receipt number if and only if their last twelve random digits agree |
| ReceiptNumbers.NumberText | src/payments/payments.service.ts:795-797 | the number is the prefix and the last twelve characters of the reference in upper case |
| ReceiptNumbers.SameNumberIff | src/payments/payments.service.ts:795-797 | any two references have one number if and only if their last twelve characters agree, letter case aside |
| PaymentOutcome.CreatedPaidIffConfirmed | src/payments/payments.service.ts:354-543 | with created references whose last twelve digits differ, a transaction ends PAID if and only if the run contains a matching PAID event |
| PaymentOutcome.CreatedReferencesBlock | src/payments/payments.service.ts:481-499 | with references that the code can create there is such a run |
| PaymentOutcome.FulfilledExactlyOnce | src/payments/payments.service.ts:376-381 | fulfilment ran exactly once per paid transaction, with one receipt and one subscription, and never for others |
| PaymentOutcome.AmountsAgree | src/payments/payments.service.ts:431-499 | plan, transaction, event and receipt of a fulfilment agree on amount and currency |
| PaymentOutcome.LastPaymentRules | src/payments/payments.service.ts:438-458 | an organization has the plan, quotas and period of its last fulfilled transaction |
| PaymentStatus.LastEventDecides | src/payments/payments.service.ts:376-429 | the row of an unpaid transaction is as initialization left it, or as the last event about it did: in review with the field that disagrees, refunded, failed or processing |
| PaymentStatus.SettledStays | src/payments/payments.service.ts:376-381 | a PAID or VERIFIED row never changes again |
| PaymentStatus.PlansOnSale | src/payments/plan-catalog.ts:91-94 | exactly three plans of the catalog are on sale |
| PaymentReconciliation.CountsAddUp | src/payments/payments.service.ts:317-352 | every candidate is counted once |
| PaymentReconciliation.PassIsARun | src/payments/payments.service.ts:320-337 | a pass, with the events that arrive between its turns, is a run of provider events, so all run properties hold after it |
| PaymentReconciliation.RecoveredExactly | src/payments/payments.service.ts:325-334 | with answers about their own candidates, and whatever events arrive between the turns, the recovered counter is the number of payments that the pass fulfilled plus the candidates paid before their turn |
| PaymentStatus.ReviewsExactly | src/payments/payments.service.ts:325-334 | the review counter is the number of answers that disagree with an unpaid row |
| PaymentReconciliation.RecoveredAreFulfilled | src/payments/payments.service.ts:325-334 | when nothing else arrives, the recovered counter is the number of payments fulfilled meanwhile |
| PaystackAdapter.WebhookConfirms | src/payments/paystack.adapter.ts:116-211 | exactly which webhooks pay for a row they name |
| PaystackAdapter.WebhookSettles | src/payments/paystack.adapter.ts:184-211 | which status the other recognized webhooks set |
| IdentitySafety.UpdatesExactly | src/auth/auth.service.ts:503-640 | a login updates a user if and only if that is the only user any claim matches and the account may take the identity |
| IdentitySafety.CreatesExactly | src/auth/auth.service.ts:503-660 | a login creates a user if and only if no claim matches anybody |
| IdentitySafety.NoOwnerRejection | src/auth/auth.service.ts:561-586 | the phone_owner and email_owner guards never fire |
| IdentitySafety.WriteNeverFails | src/auth/auth.service.ts:598-660 | no write of a login breaks a unique key |
| IdentitySafety.EveryRunKeeps | src/auth/auth.service.ts:471-667 | one login at a time, over every run keys stay unique, levels never drop, set times and the bound uid stay, non-citizens and inactive accounts are unchanged |
| IdentitySafety.BoundUidIsStable | src/auth/auth.service.ts:503-545 | one login at a time, a bound uid logs in only its user from then on |
| IdentitySafety.LoginAgain | src/auth/auth.service.ts:598-660 | after a login the user has every claimed key, and the same claims log in the same user and change nothing |
| IdentityRows.LoginWrites | src/auth/auth.service.ts:598-660 | a login writes one row: an unverified user becomes PHONE_VERIFIED exactly when a phone number is claimed and EMAIL_VERIFIED exactly when only an address is; level, times, keys, organization and name follow the claims |
| IdentityRows.VouchedOverRuns | src/auth/auth.service.ts:706-714 | over every run a verified status has the time of its key, and a verified key its level |
| IdentityRows.ConflictsExactly | src/auth/auth.service.ts:683-699 | a login is a conflict if and only if its claims match two users, and the keys it names belong to different ones |
| IdentityRows.RefusalsExactly | src/auth/auth.service.ts:523-596 | why the only user that the claims match is refused: role, account, bound uid, or a registration with a known address |
| IdentitySafety.OverlappingLoginsRebind | src/auth/auth.service.ts:503-640 | two logins that both read before either writes replace the bound uid |
| IdentityProtocol.KeysStayUnique | src/auth/auth.service.ts:503-660 | in every interleaving of the lookups, guards and writes of logins no two users share a uid, a phone number or an address |
| IdentityProtocol.WriteTakesAwayExactly | src/auth/auth.service.ts:503-640 | a login's write takes uid, level, time, status, organization, role or account away from its user if and only if another write to that user came between its read and its write and left a row it does not know of |
| IdentityProtocol.BoundUidReplacedExactly | src/auth/auth.service.ts:598-640 | a bound uid is replaced if and only if the last write in between had bound another uid than this login writes |
| IdentityProtocol.UndisturbedLoginKeeps | src/auth/auth.service.ts:503-640 | when no other write to the user comes in between, the login takes nothing away |
| IdentityProtocol.OthersAreUntouched | src/auth/auth.service.ts:598-660 | a login writes no user but its own and never the account status |
| IdentityProtocol.OverlapTakesAway | src/auth/auth.service.ts:503-640 | two overlapping logins with one uid put the level back from 2 to 1 and clear the time the phone number was verified |
| AuthService.AuthService.AssertSameFirebaseCitizen | src/auth/auth.service.ts:683-699 | the loop reports the first match that is another user than the first one found |
| AuthService.AuthService.FirebaseLogin | src/auth/auth.service.ts:471-667 | the branches reject, ask for recovery, link or create as decided by the three reads, and keep the keys unique; `IdentityRows.LoginWrites` says what the written row holds |
| Credentials.AuthService.PasswordResetRateLimited | src/auth/auth.service.ts:1100-1125 | cooldown and daily limit from the two counts, the cooldown first |
| Credentials.AuthService.CreatePasswordResetToken | src/auth/auth.service.ts:932-1045 | ends the user's live tokens and adds one, superseded again when delivery fails, or changes nothing |
| Credentials.AuthService.CompletePasswordReset | src/auth/auth.service.ts:771-830 | succeeds exactly for a live token of an eligible account, uses it and advances the version; in plain terms, only before its expiry, unused, not superseded, for an active account without Firebase |
| CredentialsSafety.TokensStaySafe | src/auth/auth.service.ts:985-1045 | in every run, in which the requests of different users overlap freely, each 24-hour window holds at most the daily limit of a user's tokens, they are more than the cooldown apart, and only the newest can be live |
| CredentialsSafety.ResetOnce | src/auth/auth.service.ts:771-824 | a used or superseded token stays so |
| CredentialsSafety.ClaimsNeverAhead | src/auth/auth.service.ts:879-903 | every version read or issued is at most the stored one, wherever logins pause |
| CredentialsSafety.RevokedForGood | src/internal-admin/internal-admin.service.ts:502-517 | after a reset or revocation no token whose version was read before is accepted again |
| CredentialsExact.RequestsExactly | src/auth/auth.service.ts:932-1045 | a request creates a token if and only if the account can be sent one, it has no token in the cooldown and fewer than the daily limit in 24 hours; it ends the live tokens of the user and no others |
| CredentialsExact.LimitsExactly | src/auth/auth.service.ts:1100-1125 | when each of the two limits is reported |
| CredentialsExact.ResetsExactly | src/auth/auth.service.ts:771-824 | over every run, a completion changes rows if and only if an earlier request created its token, its message was delivered, its life is not over, it was neither used nor replaced, and the account is open |
| CredentialsExact.ResetWrites | src/auth/auth.service.ts:800-824 | a completion marks the token and advances the version by one, and that is all |
| CredentialsExact.AcceptedExactly | src/auth/auth.service.ts:879-903 | an access token is accepted if and only if the account is active and no reset or revocation came since its version was read |
| Base64Gate.HasOnlyStrictBase64Characters | src/security/upload-security.service.ts:101-138 | the loops hold exactly for alphabet characters followed by at most two padding signs |
| Base64Gate.DecodeAndValidateBase64Image | src/security/upload-security.service.ts:51-80 | succeeds exactly on the encoding of 1 byte to 5 MiB with the declared and detected type, else with the matching error |
| Base64Gate.GateAcceptsEncodings | src/security/upload-security.service.ts:56-99 | a text passes exactly when it is the RFC 4648 encoding of such a sequence, which is then the result |
| Base64Gate.EncodedInjective | src/security/upload-security.service.ts:59-67 | that sequence is unique |
| Base64Gate.ReencodesIff | src/security/upload-security.service.ts:61-67 | the re-encoding check rejects exactly the texts with non-zero left-over bits |
| Base64Gate.GateErrors | src/security/upload-security.service.ts:56-70 | which of the two errors the gate raises, and when |
| Base64Gate.ImageMarks | src/security/upload-security.service.ts:140-175 | exactly which marks the three formats are detected by; the highest bits of a WEBP mark do not count |
| LocationText.NormalForm | src/organization/routing-jurisdiction.ts:256-267 | the result is exactly the words of the replaced text joined by single spaces |
| LocationText.FieldsInOrder | src/organization/routing-jurisdiction.ts:256-267 | every field counts, one after the other |
| LocationText.NormalizingTwice | src/organization/routing-jurisdiction.ts:256-267 | a second pass changes a normalized text exactly when it contains the capital territory's full name |
| LocationTwice.OccursIffHidden | src/organization/routing-jurisdiction.ts:256-267 | the name occurs in the normalized text exactly when the raw text has its three words as neighbours, the first one's end and the last one's start, with other separators than two single spaces |
| LocationTwice.NormalizingTwiceExactly | src/organization/routing-jurisdiction.ts:256-267 | normalizing again changes nothing if and only if the raw text hides no such name |
| LocationTwice.TwiceIsNotOnce | src/organization/routing-jurisdiction.ts:256-267 | "federal, capital territory" becomes "federal capital territory" and then "fct" |
| PlaceMatch.MatchIffWithin | src/organization/routing-jurisdiction.ts:246-254 | on normalized texts the pattern matches exactly when the place's words are neighbours in the location |
| PlaceMatch.ContainsIffWithin | src/organization/routing-jurisdiction.ts:246-267 | the same from raw fields |
| PlaceMatch.ContainmentIsTransitive | src/organization/routing-jurisdiction.ts:246-254 | containment of places is transitive |
| RoutingJurisdiction.FirstMatchedZone | src/organization/routing-jurisdiction.ts:170-179 | the loop returns the first zone's match |
| RoutingJurisdiction.MatchedIffCovered | src/organization/routing-jurisdiction.ts:72-148 | a location is matched if and only if some zone that counts has its narrowest place in it, with the level of the first such zone |
| RoutingJurisdiction.ActiveZonesDecide | src/organization/routing-jurisdiction.ts:67-111 | when some zone is not switched off, only such zones count: a location is matched if and only if one of them covers it, with the level of the first |
| RoutingJurisdiction.LocalityDecides | src/organization/routing-jurisdiction.ts:113-148 | otherwise the own locality decides, when it names a state or a local government area |
| RoutingJurisdiction.UnmatchedLevel | src/organization/routing-jurisdiction.ts:220-225 | without a match the level is the narrowest that any such zone names |
| RoutingJurisdiction.ReasonsExactly | src/organization/routing-jurisdiction.ts:105-109 | the reason tells the level, or whether there was any text |
| DateKeys.DayKeysAreOrdered | src/public/public-metrics.service.ts:377-389 | day keys from 1970 to 9999 match the stored pattern and order as the days do, which is all the visitor lemmas ask of keys |
| DateKeys.KeyOrder | src/public/public-metrics.service.ts:377-389 | comparing day keys as strings compares the days |
| VisitorSafety.StoreIsSummary | src/public/public-metrics.service.ts:250-290 | after every orderly log the store has the total of all events and exact rows for exactly the days still kept |
| VisitorSafety.KeptDays | src/public/public-metrics.service.ts:377-384 | exactly the days with events are kept that are at most thirty days before the last pruning |
| VisitorSafety.SessionIdsKept | src/public/public-metrics.service.ts:391-396 | which session ids are kept as sent |
| VisitorSafety.SessionsInFirstSeenOrder | src/public/public-metrics.service.ts:270-274 | the session ids of a day are distinct and in first-seen order |
| VisitorSafety.SessionsAreTheDaysIds | src/public/public-metrics.service.ts:270-274 | they are exactly the ids of that day |
| VisitorSafety.NormalizingKeepsSummaries | src/public/public-metrics.service.ts:346-375 | normalizing leaves every stored summary as it is |
| VisitorSafety.TodayIsReported | src/public/public-metrics.service.ts:233-248 | a summary reports all events and exactly those of the current day |
| PublicMetricsService.PublicMetricsService.NormalizeVisitorStore | src/public/public-metrics.service.ts:346-375 | the loop keeps exactly the well-formed days with cleaned ids |
| PublicMetricsService.PublicMetricsService.RecordVisitorEvent | src/public/public-metrics.service.ts:250-290 | the stored value after one event |
| PublicMetricsService.PublicMetricsService.GetVisitorSummary | src/public/public-metrics.service.ts:233-248 | total, views and sessions equal those of the log |
| AnalyticsService.GetTrendAnalytics | src/analytics/analytics.service.ts:125-170 | periods are strictly sorted and exactly those that occur, each with the point of its items |
| AnalyticsService.TotalsAreInputs | src/analytics/analytics.service.ts:145-162 | submitted and rework totals are the input lengths |
| TrendPoints.WeekIsInRange | src/analytics/analytics.service.ts:464-476 | week numbers are 1 to 53 |
| TrendPoints.DaysAreCounted | src/analytics/analytics.service.ts:464-476 | outside of the years 0 to 99, which `Date.UTC` reads as 1900 to 1999, the week counts the days since 1 January |
| TrendPoints.PartsOfSubmitted | src/analytics/analytics.service.ts:149-156 | resolved and active never exceed submitted |
| TrendPoints.PointCounts | src/analytics/analytics.service.ts:145-162 | a point has the numbers of reports, closed reports, open reports and rework events of its period |
| TrendPoints.WeekKeyText | src/analytics/analytics.service.ts:464-476 | a weekly key is the year, -W and the two digits of the week |
| TrendPoints.NothingIsLost | src/analytics/analytics.service.ts:145-162 | all points together are the total of all items |
| TrendPoints.RegroupingIsExact | src/analytics/analytics.service.ts:446-479 | regrouping points by a coarser key gives exactly the coarser points |
| TrendPoints.DailyRegroupsToMonthly | src/analytics/analytics.service.ts:460-479 | daily points regroup exactly to the monthly ones |
| TrendPoints.DailyRegroupsToWeekly | src/analytics/analytics.service.ts:460-479 | daily points regroup exactly to the weekly ones |
| InternalAdminSafety.CatalogIsSound | src/internal-admin/internal-role-catalog.ts:40-168 | only the high-risk role holds the granting permissions |
| InternalAdminSafety.SupersNeverGrow | src/internal-admin/internal-admin.service.ts:180-401 | the set of super administrators never grows in any run |
| InternalAdminSafety.EveryAssignmentIsBacked | src/internal-admin/internal-admin.service.ts:180-401 | from any start, every new assignment goes back to a logged grant within the grantor's role and organization, or to an invitation pending at the start |
| InternalAdminSafety.NewAssignmentsGrantNothing | src/internal-admin/internal-admin.service.ts:180-401 | from a start without a pending high-risk invitation, no new assignment carries the permission to assign roles, invite or suspend |
| InternalAdminSafety.OnlyFirstSupersGrant | src/internal-admin/internal-admin.service.ts:757-868 | without such assignments at the start only the first super administrators ever grant |
| InternalAdminSafety.ApprovalsStayBlocked | src/internal-admin/internal-admin.service.ts:650-755 | every approval request stays blocked and nobody approves an own one |
| InternalAdminSafety.LastSuperLeavesOnlyByAccepting | src/internal-admin/internal-admin.service.ts:255-338 | one operation at a time, none is left exactly when the only active super administrator passes the checks of acceptance: the invitation is pending, unexpired, addressed to it and of an enabled role |
| InternalAdminSafety.LastSuperCanLeave | src/internal-admin/internal-admin.service.ts:255-338 | a state in which that happens |
| InternalAdminEffects.MayDoExactly | src/internal-admin/internal-admin.service.ts:757-860 | a user may do something if and only if not suspended and the role or an assignment in its period carries the permission |
| InternalAdminEffects.RemovalTakes | src/internal-admin/internal-admin.service.ts:403-439 | after a removal everybody may do exactly what they might without the assignment; it happens exactly when permitted and not the last super administrator |
| InternalAdminEffects.RemovedForGood | src/internal-admin/internal-admin.service.ts:403-439 | no continuation brings a removed assignment back into force |
| InternalAdminEffects.SuspensionTakes | src/internal-admin/internal-admin.service.ts:441-463 | a suspension takes every permission from its target and nothing from others, exactly when permitted |
| InternalAdminEffects.SuspensionLasts | src/internal-admin/internal-admin.service.ts:441-483 | without a reactivation or an accepted invitation a suspended user may do nothing in any run |
| InternalAdminEffects.ReactivationRestores | src/internal-admin/internal-admin.service.ts:465-483 | a reactivated user may do what role and assignments say |
| InternalAdminEffects.AssignmentGives | src/internal-admin/internal-admin.service.ts:340-401 | an assignment gives its target the permissions of the role from start to end and nobody anything else, exactly under its conditions |
| InternalAdminEffects.HighRiskWaits | src/internal-admin/internal-admin.service.ts:340-401 | a high-risk grant becomes a blocked request instead |
| InternalAdminEffects.InvitationIsSent | src/internal-admin/internal-admin.service.ts:180-253 | an invitation is sent exactly under its conditions, with role, organization and expiry as asked for |
| InternalAdminEffects.AcceptanceGives | src/internal-admin/internal-admin.service.ts:255-338 | an invitation takes effect exactly when pending, not run out, addressed to the user and of an enabled role, and gives its permissions until its expiry |
| InternalAdminEffects.DecisionIsRecorded | src/internal-admin/internal-admin.service.ts:696-755 | a decision is recorded exactly when another permitted user decides |
| InternalAdminEffects.ApproversByRole | src/internal-admin/internal-admin.service.ts:650-755 | which roles of the catalog may request and decide which operations |
| InternalAdminProtocol.LastSuperLeavesExactly | src/internal-admin/internal-admin.service.ts:441-463 | over all interleavings of checks, counts and writes, none is left if and only if a suspension is written whose count was undone since, or the only active super administrator accepts |
| InternalAdminProtocol.UndisturbedSuspensionIsSafe | src/internal-admin/internal-admin.service.ts:441-463 | a suspension leaves an active super administrator when no write since its count made anybody none |
| InternalAdminProtocol.MutualSuspensionLeavesNone | src/internal-admin/internal-admin.service.ts:868-880 | the only two super administrators suspend each other: both counts pass and none is left |
| InternalAdminProtocol.SupersNeverGrowInterleaved | src/internal-admin/internal-admin.service.ts:180-463 | in every interleaving nobody becomes a super administrator |
| InternalAdminService.InternalAdminService.HasPermission | src/internal-admin/internal-admin.service.ts:757-860 | permission by role or by an assignment in force, never for a suspended user |
| InternalAdminService.InternalAdminService.InviteAdministrator | src/internal-admin/internal-admin.service.ts:180-253 | a new invitation comes from a permitted actor and offers an enabled role that is no super administrator, passes on no granting permission and stays within the actor's role and organization |
| InternalAdminService.InternalAdminService.AcceptInvitation | src/internal-admin/internal-admin.service.ts:255-338 | only the actor changes, only with a pending unexpired invitation addressed to it, and nobody becomes a super administrator |
| InternalAdminService.InternalAdminService.AssignRole | src/internal-admin/internal-admin.service.ts:340-401 | a new assignment comes from a permitted actor other than its user and carries what a role gives that passes on no granting permission and stays within the actor's role and organization |
| InternalAdminService.InternalAdminService.RemoveRoleAssignment | src/internal-admin/internal-admin.service.ts:403-439 | the assignment is out of force at all times, unless it is a super administrator's; nobody gains a permission, and no user changes |
| InternalAdminService.InternalAdminService.SuspendAdministrator | src/internal-admin/internal-admin.service.ts:441-463 | nobody gains a permission, the suspended user has none at any time, and an active super administrator is left |
| InternalAdminService.InternalAdminService.DecideApprovalRequest | src/internal-admin/internal-admin.service.ts:696-755 | a decided request is blocked from execution, and its approver is not its requester |
| InternalAdminService.InternalAdminService.constructor | src/internal-admin/internal-role-catalog.ts:40-168 | the service works on the role catalog of the code, which is sound |
| InvitationSafety.ResolvedIsFinal | src/users/users.service.ts:747-1057 | over every run no invitation disappears, and one that left PENDING never changes again |
| InvitationSafety.NeverTwice | src/users/users.service.ts:631-647 | no two unexpired pending invitations of an organization and role share an address or number, in any run |
| InvitationProtocol.DuplicatesExactly | src/users/users.service.ts:631-690 | over all interleavings, a database call leaves a duplicate where there was none if and only if it creates a row whose target an open invitation created since the check has |
| InvitationProtocol.UndisturbedInvitationIsDistinct | src/users/users.service.ts:631-690 | no duplicate comes about when no invitation of the organization and role is created between check and row |
| InvitationProtocol.OverlapDuplicates | src/users/users.service.ts:631-690 | two requests for one address both pass the check, and both rows are created |
| InvitationSafety.AcceptanceIsBounded | src/users/users.service.ts:865-1007 | whose user, and what of it, one acceptance changes: suspensions stay, a SUPER_ADMIN keeps the role, the membership is active |
| InvitationSafety.AcceptedProvidersAreMembers | src/users/users.service.ts:865-1007 | over every run, an accepted provider invitation of an organization has an active membership of its acceptor in every later state |
| InvitationSafety.SupersGrowExactly | src/users/users.service.ts:524-537 | a step makes a super administrator if and only if a user who is none accepts an open invitation of such a role |
| InvitationSafety.NewSupersWereInvited | src/users/users.service.ts:865-1007 | every super administrator that a run made has accepted an invitation of such a role |
| InvitationSafety.OrgAdminCanMakeSuper | src/users/users.service.ts:1155-1179 | an organization's administrator invites a citizen as PLATFORM_SUPER_ADMIN, who accepts |
| InvitationSafety.ReservedRolesStay | src/users/users.service.ts:524-537 | no run makes a SUPER_ADMIN or one of the ten governance roles, or lifts a suspension |
| InvitationEffects.InvitesExactly | src/users/users.service.ts:518-712 | an invitation is created exactly when the actor may offer the role, a contact is given, the checks pass and no live one has its target, and runs for seven days |
| InvitationEffects.AcceptsExactly | src/users/users.service.ts:865-1007 | over every run, an invitation becomes accepted if and only if a step invited the user less than seven days ago and it is still pending |
| InvitationEffects.AcceptanceWrites | src/users/users.service.ts:865-1007 | role, account, organization and membership that an acceptance leaves |
| InvitationEffects.CancelsExactly | src/users/users.service.ts:743-784 | a pending invitation is closed exactly when the actor administers it |
| InvitationEffects.DeclinesExactly | src/users/users.service.ts:1009-1057 | over every run, the invitee declines a live invitation and closes one that ran out |
| InvitationEffects.ResendsExactly | src/users/users.service.ts:786-835 | only an invitation of the actor that ran out is closed |
| InvitationEffects.SweepsExactly | src/users/users.service.ts:837-863 | exactly the pending invitations to the contacts that ran out are closed |
| UsersService.UsersService.InviteUser | src/users/users.service.ts:518-712 | one new pending row unless the role, the contact or a live duplicate forbids it |
| UsersService.UsersService.CancelInvitation | src/users/users.service.ts:743-784 | a cancelled invitation can never be accepted or declined, by anybody at any time, and resolved ones do not change |
| UsersService.UsersService.ResendInvitation | src/users/users.service.ts:786-835 | no expiry changes; only an expired invitation is closed, for good, and resolved ones do not change |
| UsersService.UsersService.GetMyInvitations | src/users/users.service.ts:837-863 | returns the user's live pending invitations, which stay as they were; no expiry changes, and exactly the expired ones are closed |
| UsersService.UsersService.AcceptInvitation | src/users/users.service.ts:865-1007 | only the invitee changes, suspensions and memberships stay, no reserved role is gained, the provider's membership is active, and the invitation can never be answered again |
| UsersService.UsersService.DeclineInvitation | src/users/users.service.ts:1009-1057 | only the invitee answers, the invitation can never be answered again, and resolved ones do not change |
| ProviderScore.Recommend | src/users/users.service.ts:1253-1399 | the accumulation yields the specified score, confidence and Bayesian average |
| ProviderScore.ScoreIsInRange | src/users/users.service.ts:1294-1399 | the score is an integer in 0..100 and at most 74 at low confidence |
| ProviderScore.ProfilePoints | src/users/users.service.ts:1294-1380 | 25 points for the category, 20 for the area, 5 each for verification and type |
| ProviderScore.AveragePoints | src/users/users.service.ts:1330-1337 | 12.5 for each rating point above three, up to 25 |
| ProviderScore.JobPoints | src/users/users.service.ts:1339-1353 | 2 for each closed job, up to 10; 10 without work at hand and 5 with one or two jobs |
| ProviderScore.ScoreIsNearest | src/users/users.service.ts:1381-1399 | the score is the nearest whole number to the points, at most 74 of them at low confidence |
| ProviderScore.FiveImaginedRatings | src/users/users.service.ts:1265-1270 | the average counts as five more ratings of 3.8 |
| ProviderScore.CountsAreSizes | src/users/users.service.ts:1253-1280 | the counts are those of the jobs with the status |
| ProviderScore.BayesianIsBetween | src/users/users.service.ts:1253-1270 | the Bayesian average lies between 3.8 and the raw average |
| ProviderScore.GoodJobNeverHurts | src/users/users.service.ts:1294-1399 | one more closed job rated no lower than the Bayesian average never lowers the score |
| ProviderScore.FinishingNeverHurts | src/users/users.service.ts:1294-1399 | neither does closing a job in progress with such a rating |

## Left out

- Cryptography: HMAC-SHA1 is an arbitrary function to 20 bytes, SHA-256 a free constructor; random bytes, AES-GCM, bcrypt and token signing are not modelled. Enrollments hold the decoded key; that encoding, encryption and decoding return it rests on `Base32.RoundTrip` for the text part.
- Audit logs, notifications, response shaping, HTTP, mail, Firebase verification and uploads to disk have no row that the properties mention.
- Base32.Decode: letter case of non-ASCII characters. `Text.Upper` and `Text.Lower` change ASCII letters only, which differs from ECMAScript for secrets, receipt numbers or currencies with other letters. Strings are sequences of characters, not UTF-16 code units.
- Payments: initialization is one step that leaves PENDING or FAILED, with the reuse of a recent checkout left out; event amounts are integers, so a payload without a numeric amount counts as some other amount; sanitized metadata and provider access codes are not rows of the model.
- ReconcilePending: the listing of candidates is specified, not computed, and its batch size and age limits are parameters.
- Identity: claims come trimmed, with empty texts absent and the verified address in lower case; other ways to create or edit users, and the trust service that runs after a login, are not modelled.
- CredentialsSafety.TokensStaySafe: the reset requests and resets of one user run one at a time, as the rate check and the completion are not conditional updates. The password rule and the token's digest lookup are left out.
- IdentitySafety.EveryRunKeeps: logins are one at a time; what overlapping ones keep is in `IdentityProtocol`.
- IdentitySafety.BoundUidIsStable: logins are one at a time; `IdentityProtocol.BoundUidReplacedExactly` is the condition for overlapping ones.
- InternalAdminSafety.LastSuperLeavesOnlyByAccepting: operations are one at a time; `InternalAdminProtocol.LastSuperLeavesExactly` is the condition for overlapping ones.
- InvitationSafety.NeverTwice: requests are one at a time; `InvitationProtocol.DuplicatesExactly` is the condition for overlapping ones. The other invitation properties are about steps that do not overlap.
- InvitationSafety.AcceptanceIsBounded: one step; `AcceptedProvidersAreMembers` and `ReservedRolesStay` are its parts over runs.
- PaymentReconciliation.RecoveredAreFulfilled: nothing else arrives during the pass; `RecoveredExactly` is the general statement.
- VisitorSafety.StoreIsSummary: the clock never runs back and session ids have the expected form; an anonymous id can come out too short, and then normalizing replaces it later. Stored values of the wrong JSON type are not modelled.
- AnalyticsService.GetTrendAnalytics: `localeCompare` is the order of characters, which agrees with it on keys of one interval.
- Invitations: the quota, membership and confirmation checks of `inviteUser` are one yes-or-no argument, and the organization is resolved by the caller.
- Internal administration: change of scope, readers and queues are left out; roles beyond the catalog are names; the actor's row is read when the operation starts.
- Routing: diagnostic texts and zone summaries of the result are left out, they decide nothing.
- ProviderScore.Recommend: sums are exact reals; reasons, cautions and the membership status are left out, and whether a category, an area or a type matches is a given.
- `src/report/report-workflow.ts`, platform modules, seeds and catalogues of constants would add only small case checks.
