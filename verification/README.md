# A verified model of the shard scheduler and the account security core

This project models four parts of the repository in Dafny and proves what they promise.

* **The test-suite scheduler.** How `ci_sharding.py` weighs test files and shares them over shards (`Schedule`,
  `Tightness`, `Sharding`, `WeightLaws`, `GreedySplit`, `PartitionLaws`), how `conftest.py` and `ci_slices.py` compose
  with it (`Collection`, `CollectionLaws`), and which files `ci_focused_selection.py` runs inside a time budget
  (`FocusedSelection`, `SelectionLaws`).
* **Account administration and one-time links.** The account rows, link rows and second-factor trail as one
  register (`Accounts`), the services that change it in place (`Services`), when each goes through and what it leaves
  (`Decisions`) or says (`Reasons`), the capability policy (`Capabilities`, `CapabilityLaws`), and the whole-run laws:
  `Links`, `AdministratorContinuity`, `Authority`.
* **The shared gate and the verified administrator session.** One browser's session against that register
  (`GateSession`, `AdminSession`), the in-place services (`BrowserSession`), what each request does
  (`AdminSessionConduct`), where every proof came from (`AdminSessionHistory`), and what holds over every run of
  requests, persona changes, password rotations and account changes by others (`AdminSessionSafety`).
* **Throttling and second factors.** The gate's lockout (`GateThrottle`), the sign-in counters (`AuthThrottle`,
  `AuthThrottleLaws`), one-time codes and recovery codes (`SecondFactor`, `SecondFactorLaws`), and the password checks
  (`Passwords`).

`Ordering` holds sorting and sums, `Outcomes` two result types.

Where the source changes things step by step there is a method or a class that does the same, proved equal to
a function of the old state; the theorems are about that function and about runs of it. A run is any sequence of
service calls by anybody in any order. Concurrency is the order of the steps: a service under its lock is one
step, and anything read without a lock is a step of its own - a link's preview and its submission, a mail
job queued under some credentials and run later, a message's outcome, the two reads of a session request.

Where the code and what is said of it differ, the model follows the code and proves where the line runs:

* The comment on the schedule says "a small constant of optimal"; for m shards it is proved to be
  4/3 - 1/(3m), and for every m files are given on which it is met exactly (`Tightness.BoundIsTight`).
* Time steps of one authenticator strictly increase within an enrolment. Over a secret's whole life they do
  exactly when no enrolment is accepted for a step the secret had already reached (`SecondFactor.SecretsClimbIff`).
  Enrolment itself compares with step 0 only, so confirming one sealed secret twice with one code breaks it
  (`SecondFactor.SameSecretTwice`); confirming it again at a later step does not, and with a fresh secret for
  every enrolment it always holds (`SecondFactor.NoStepTwiceForASecret`).
* Saving a page twice stores the same overrides exactly when the first save granted nothing its role may not hold
  (`Capabilities.SavingAgainIff`); `update_account` refuses the others.
* A factor reset leaves a full administrator standing exactly when they did not enrol at the very microsecond of
  the reset (`AdministratorContinuity.ResetKeepsStandingIff`); such a tie costs exactly that one. Two full
  administrators therefore stay two throughout a run exactly when no tie takes one of just two
  (`AdministratorContinuity.TwoAdministratorsStay`); that somebody can always delegate holds over every run.
* A stored password hash may be made again when its owner's password is checked. That moves the credential stamp
  and not the epoch: links and pending sign-ins bound to the old hash die of it, an administrator session
  survives it exactly through the re-binding (`AdminSessionSafety.ReproofOutlivesAnUpgrade`).
* Carrying a pass that has no time would date it now. Every persona change first asks whether the session is
  behind the gate, so over a run this never happens (`AdminSessionSafety.GateClosesOnTime`).

## Model

| member | source | states |
|---|---|---|
| Schedule.GreedyIsNearOptimal | ci_sharding.py:155-187 | Against any assignment of the same jobs whatever, no machine of the greedy schedule carries more than 4/3 - 1/(3m) times the other's heaviest load |
| Tightness.BoundIsTight | ci_sharding.py:163-166 | For every number m of shards, files on which the greedy schedule loads a shard with exactly 4/3 - 1/(3m) times a limit another assignment keeps |
| Schedule.GreedyIsUnique | ci_sharding.py:182-187 | Two schedules in which every job went to the lightest, first on ties, are the same schedule |
| Schedule.LoadsAddUp | ci_sharding.py:182-187 | Conservation: the loads together are the weights together |
| Sharding.WeightIgnoresTableOrder | ci_sharding.py:109-152 | A file's weight depends on what was measured, not on the order of the timing table |
| WeightLaws.MeasuredWeight | ci_sharding.py:138-152 | A measured file weighs its row's seconds in proportion to the tests it holds now - weight times the row's tests is seconds times the count - or just its seconds where there is nothing to scale by; never less than the floor |
| WeightLaws.UnmeasuredWeight | ci_sharding.py:109-152 | A file without a row weighs its count times the middle rate of its directory's rows, of all rows if it has none, or the middle row's seconds without a count: middle as counted in the table, half the rows on either side |
| Sharding.Partition | ci_sharding.py:155-195 | The method refuses fewer than one shard and otherwise returns the shards of the priced, sorted, distinct files; which those are, `GreedySplit.PartitionIsTheGreedySplit` says exactly |
| Sharding.HandOut | ci_sharding.py:182-187 | The loop over shards and loads puts each file on the shard the schedule assigns it to |
| PartitionLaws.PartitionIsComplete | ci_sharding.py:155-195 | The shards are a partition of the files given: each file in exactly one, none twice, none else |
| GreedySplit.PartitionIsTheGreedySplit | ci_sharding.py:176-195 | A split is the one returned if and only if it places the files heaviest first, by name among equals, each on the first lightest shard so far, and lists each shard by name: files, weights and shard count leave no choice |
| GreedySplit.PriceIsWeight | ci_sharding.py:178-179 | What a file is split by is its weight under the live count it is given, or under none |
| PartitionLaws.PartitionIsReproducible | ci_sharding.py:176-195 | Only which files there are and what each weighs matters: not their order, not repeats |
| PartitionLaws.PartitionIsNearOptimal | ci_sharding.py:155-187 | For every other split into as many shards, no shard here is heavier than 4/3 - 1/(3m) times the heaviest there |
| PartitionLaws.ShardsAreBalanced | ci_sharding.py:182-187 | Any two shards differ by at most the heaviest single file |
| PartitionLaws.ShardIsEmptyIff | ci_sharding.py:182-187 | Shard j is empty exactly when there are at most j distinct files |
| PartitionLaws.ShardsAreAlphabetical | ci_sharding.py:188-195 | Inside a shard files stand in the serial run's order |
| PartitionLaws.PriceIsPositive | ci_sharding.py:138-152 | Every file's weight is positive, measured, counted or neither |
| Collection.Session.ModifyItems | conftest.py:56-116 | The hook refuses, leaves alone or replaces the items in place by exactly this shard's, and reports the rest as deselected |
| Collection.Tally | conftest.py:80-91 | The counting loop gives every collected path the number of items collected from it, and lists each path once |
| Collection.Divide | conftest.py:101-113 | The loop splits the items into this shard's and the others', both in order |
| Collection.KeptInSerialOrder | conftest.py:101-113 | What a shard keeps, and what it reports as deselected, are order-preserving subsequences of the serial run: exactly the items whose file is in the shard, and exactly the others |
| Collection.EmptyShardIff | conftest.py:92-99 | A valid shard is refused as empty exactly when there are some files and fewer than its number |
| CollectionLaws.ShardIsLive | conftest.py:80-91 | A shard's files are what the greedy split of the collected files gives it, each weighed by the number of items collected from it now |
| CollectionLaws.SomeGreedySplit | conftest.py:80-91 | Such files, weights and split exist for every collection |
| CollectionLaws.RefusedIff | conftest.py:66-99 | Each refusal exactly when its cause is there: no shards, no such shard, or some files and fewer than the shard's number |
| CollectionLaws.KeepsIff | conftest.py:101-116 | An accepted run keeps an item exactly when there is one shard or the item is among those the hook keeps |
| CollectionLaws.SlicesAre | ci_slices.py:80-99 | A runner's shards are consecutive and ascending from where the last runner's end, equally many on each; each refusal exactly when its cause is there |
| Collection.HostsIff | ci_slices.py:80-99 | A runner hosts a shard exactly when the runners share the shards equally and the shard falls to it; no other layout hosts anything |
| Collection.EveryItemRunsOnce | conftest.py:56-116 | Under no layout does an item run twice, and it runs exactly when the runners share the shards equally and it has a path or there is but one shard |
| FocusedSelection.Pack | ci_focused_selection.py:284-297 | The loop keeps a prefix of the cheapest-first order: it fits, and the first file deferred would not have |
| FocusedSelection.CheapestCostLeast | ci_focused_selection.py:286-297 | No n distinct files cost less together than the n cheapest |
| FocusedSelection.GreedyKeepsMost | ci_focused_selection.py:286-297 | No choice of distinct files that fits the budget has more files than cheapest-first keeps |
| FocusedSelection.Select | ci_focused_selection.py:245-302 | Kept and deferred split the touched files; kept is of maximum size among all that fit, nothing kept costs more than anything deferred, nor comes later by name at the same cost; deferred is heaviest first; predicted seconds is the exact cost of what runs |
| SelectionLaws.FixedIs | ci_focused_selection.py:262-266 | What always runs: the contract tests that exist, and, exactly when a changed path is one of CI's, the CI tests and the two gates' tests that exist |
| SelectionLaws.FixedInOrder | ci_focused_selection.py:262-266 | The contract tests come first in their listed order, the tests of CI after them by name and none twice |
| SelectionLaws.TouchedIs | ci_focused_selection.py:158-160 | What competes for the budget: each changed path once that lies under tests/, is named test_*.py, still exists and does not run anyway |
| SelectionLaws.CostIs | ci_focused_selection.py:271-283 | A file with a row costs its weight without a count, one without a row its weight under the tests counted in it, if they could be counted |
| FocusedSelection.CountUnmeasured | ci_focused_selection.py:269-281 | Counted are exactly the files without a measurement that could be read, each as read; reported are all without one, in their order, with their count or that it is missing |
| Passwords.LongestCommonRun | app/accounts/passwords.py:215-228 | The result is exactly the greatest length of a stretch of the text that occurs in the source, though no shorter stretch is retried |
| Passwords.RepeatsIffPeriod | app/accounts/passwords.py:191-209 | Repeating a first unit gives the text back exactly when every character equals the one a unit later |
| Passwords.Validate | app/accounts/passwords.py:191-209 | Refused are exactly the texts of period 1 to 4, and of the rest exactly those of eight or more characters, spaces aside, all but two of which read along a known sequence, forwards or backwards and cyclically |
| Passwords.SpacesDoNotMatter | app/accounts/passwords.py:202 | A space may stand anywhere in a password without changing what is checked, and no other character is dropped |
| GateThrottle.SharedGateThrottle.RegisterFailure | app/accounts/models.py:416-459 | The row after one more wrong password, and the wait it earned |
| GateThrottle.ThrottleTable.Try | app/accounts/shared_gate.py:280-322 | Check, verify and count as one step: a locked-out client's password is not looked at, and a right one clears only that client |
| GateThrottle.FailuresAreConserved | app/accounts/models.py:416-459 | Over any run, wrong passwords verified are the limit times the lockouts plus the failures since, which stay below the limit |
| GateThrottle.NothingVerifiedWhileLocked | app/accounts/shared_gate.py:306-322 | Once a lockout is armed, no later attempt of that client is verified before it ends, whatever comes between |
| GateThrottle.LetThroughIff | app/accounts/models.py:410-414 | A password is looked at exactly when the client has no lockout or one that is over |
| GateThrottle.OnlyItsOwnMoves | app/accounts/shared_gate.py:306-322 | One attempt moves its own client's row and no other: blank after a right password, one more failure after a wrong one, untouched while locked out |
| GateThrottle.RemainingOutlasts | app/accounts/models.py:410-414 | The seconds told are the least whole number that outlasts the lockout |
| GateThrottle.WaitsNeverShrink | app/accounts/models.py:416-459 | Waits grow with the lockouts and never pass the ceiling |
| GateThrottle.WaitsDouble | app/accounts/models.py:416-459 | The first wait is the base, each later one twice the one before, none longer than the ceiling |
| GateThrottle.GuessesAreBounded | app/accounts/models.py:410-459 | Wrong passwords verified within a time of the first number at most the limit times one more than the lockouts that fit into it |
| GateThrottle.BoundIsReached | app/accounts/models.py:410-459 | For every number of lockouts a run reaches that bound exactly |
| GateThrottle.RelentlessIsInTime | app/accounts/models.py:410-459 | The run that reaches it stays within the lockouts' time |
| AuthThrottle.AuthenticationThrottle.RegisterFailure | app/accounts/throttle.py:238-266 | The row after one more failure, with an hour's and a day's decay first |
| AuthThrottle.Counters.Wait | app/accounts/throttle.py:175-185 | The longest lockout among the rows not exempt, and zero exactly when none is locked |
| AuthThrottle.Counters.Fail | app/accounts/throttle.py:187-190 | One failure on every held row, and on no other |
| AuthThrottle.Counters.Try | app/accounts/throttle.py:211-291 | Hold, check, then count or clear: the whole table afterwards, with the rows that holding makes |
| AuthThrottle.AnyWindowHoldsFew | app/accounts/throttle.py:238-266 | No stretch shorter than the first lockout, or an hour, sees more failures verified on a counter than its limit, through decay and escalation |
| AuthThrottle.FailuresAreRateLimited | app/accounts/throttle.py:238-266 | Over any length of time: at most the limit for each such stretch begun, however the attempts are spread |
| AuthThrottleLaws.RateIsReached | app/accounts/throttle.py:238-266 | The rate limit is no stricter than it says: a run reaches it for every number of paces where waits do not grow, and for the first pace under every policy |
| AuthThrottleLaws.RelentlessIsInTime | app/accounts/throttle.py:238-266 | That run is made of wrong attempts of the one counter inside its paces |
| AuthThrottleLaws.FarApartNeverLocks | app/accounts/throttle.py:241-247 | Over any run, a counter of limit above 1 whose failures lie more than an hour apart is never locked |
| AuthThrottleLaws.AnHourForgets | app/accounts/throttle.py:246-247 | A failure more than an hour after every other counts as the first and arms nothing |
| AuthThrottleLaws.FailuresAddUp | app/accounts/throttle.py:249-262 | Within the hour failures add up by one until the limit, and there they lock and start over |
| AuthThrottleLaws.FirstLockoutAfterADay | app/accounts/throttle.py:243-245 | Over any run, the first lockout after more than 24 quiet hours, or at the start, lasts exactly the base wait or the ceiling |
| AuthThrottleLaws.LockoutsDouble | app/accounts/throttle.py:253-262 | Without such a day between them, through hourly decay or not, a lockout is twice the one before, up to the ceiling |
| AuthThrottleLaws.LetThroughIff | app/accounts/throttle.py:175-185 | A password is looked at exactly when every counter charged, but for exempt scopes, has no lockout or one that is over |
| AuthThrottleLaws.OnlyItsOwnMove | app/accounts/throttle.py:187-208 | What one attempt leaves of every row: a failure moves exactly the rows charged, a success blanks exactly those of the clearable scopes, a refused attempt moves none |
| AuthThrottle.SomebodyMovesOn | app/accounts/throttle.py:211-235 | However many attempts overlap, each taking its rows in the one order, some attempt has all it needs or can take its next row |
| AuthThrottle.OrderedIs | app/accounts/throttle.py:223-226 | The rows taken are those charged, once each, in strictly ascending order |
| SecondFactor.FindStep | app/accounts/mfa.py:221-240 | The loop finds the earliest step within the window whose code matches and that is past the last one used, or none |
| SecondFactor.Authenticator.VerifyTotp | app/accounts/mfa.py:272-292 | Accepted exactly when such a step exists, which is then spent |
| SecondFactor.Authenticator.ConfirmEnrolment | app/accounts/mfa.py:243-268 | A device is stored exactly when the code proves the sealed secret, with that step spent |
| SecondFactor.NoStepTwice | app/accounts/mfa.py:272-292 | Over every run the accepted steps of one enrolment strictly increase (section 5.2 of RFC 6238) |
| SecondFactor.SecretsClimbIff | app/accounts/mfa.py:243-292 | Over every run: the steps accepted for each secret strictly increase if and only if no enrolment was accepted for a step its secret had already reached |
| SecondFactor.SameSecretTwice | app/accounts/mfa.py:243-268 | A secret confirmed twice with one code has its step accepted twice, and fails that condition |
| SecondFactor.NoStepTwiceForASecret | app/accounts/mfa.py:178-187 | With a fresh secret for every enrolment the condition holds and no secret's step is accepted twice |
| SecondFactor.AcceptedRateIsBounded | app/accounts/mfa.py:221-292 | Between two times an enrolment accepts at most one code for each 30-second step begun, and two more |
| SecondFactorLaws.SignInAcceptsIff | app/accounts/mfa.py:272-292 | After any history a code is accepted exactly when the secret can be read and the code is its six digits for this, the last or the next 30 seconds, at a step later than every one this enrolment was accepted for; the earliest such step is spent, otherwise nothing changes |
| SecondFactorLaws.EnrolmentAcceptsIff | app/accounts/mfa.py:243-268 | After any history an enrolment is accepted exactly when the sealed secret can be read and the code is its own for a neighbouring step |
| SecondFactorLaws.EnrolledIff | app/accounts/mfa.py:295-300 | Over any run the account has a device exactly when it enrolled since the factor was last removed |
| SecondFactorLaws.OtherCharactersDoNotMatter | app/accounts/mfa.py:223-227 | Anything that is no ASCII digit may stand anywhere in a typed code |
| SecondFactorLaws.DigitsStand | app/accounts/mfa.py:223-227 | A code of digits is read as it stands |
| SecondFactorLaws.RecoveryCodeReadsBack | app/accounts/mfa.py:305-311 | Round trip: a generated recovery code reads back as drawn, with its dashes or without |
| SecondFactor.UseRecoveryCode | app/accounts/mfa.py:337-353 | A recovery code opens exactly when its twelve characters match an unspent row's salted digest; the first such row is spent, no other row changes, and one fewer is left |
| Capabilities.ComputeOverridesAfter | app/accounts/administration.py:787-837 | The loops return the settled toggles without those that have lost their prerequisite |
| Capabilities.SaveStoresNormalForm | app/accounts/administration.py:787-837 | No stored override repeats the role's default, and no allow lacks its prerequisite |
| Capabilities.MovedTogglesObey | app/accounts/administration.py:787-837 | A toggle moved ends on exactly when it was wished on, the role may hold it and its prerequisite is held |
| Capabilities.UntouchedFollowsRole | app/accounts/administration.py:787-837 | A toggle left alone and without an override follows the new role |
| Capabilities.UntouchedOverrideStands | app/accounts/administration.py:787-837 | A toggle left alone with an override keeps it: a denial denies on and is stored while the role would hold it, a grant grants on under every role that may hold it |
| Capabilities.StoredIsTheDifference | app/accounts/administration.py:787-837 | Where nothing ungrantable was wished, stored overrides are exactly the difference between what the account then holds and what its role holds |
| Capabilities.SavingAgainIff | app/accounts/administration.py:787-837 | Saving again what the page shows changes nothing exactly when the first save granted only what the role may hold |
| Capabilities.AdministrationNeedsAllow | app/core/authorization.py:232-256 | An administrative capability is held only through an explicit allow and never under a role that may not be given it |
| CapabilityLaws.DefaultsAre | app/accounts/capabilities.py:80-92 | Without overrides the department head holds every business capability, a specialist may assign work, and nobody holds anything else |
| CapabilityLaws.GrantsReach | app/accounts/capabilities.py:124-153 | Granted everything, each role holds exactly what it may be given |
| CapabilityLaws.OverrideDecides | app/core/authorization.py:232-256 | A denial always denies, a grant grants exactly what the role may be given, and delegation only together with administration |
| CapabilityLaws.OnlyLawyersWrite | app/core/authorization.py:240-243 | No override makes a reader or a technical administrator an author |
| CapabilityLaws.FamiliesAreApart | app/accounts/capabilities.py:26-28 | Business power never depends on an administrative override, administrative power never on the role |
| CapabilityLaws.OverridesAreMonotone | app/core/authorization.py:245-256 | A grant more takes nothing away, a denial more gives nothing |
| Services.Register.UpdateAccount | app/accounts/administration.py:841-955 | The whole new register or the refusal: the save, judged as written and rolled back if a rule breaks |
| Decisions.Saving | app/accounts/administration.py:841-955 | A save of unchanged power writes the name and nothing else, whoever it is of; one that changes power goes through exactly when it is somebody else's, a delegate's if administration is concerned, grants what the role may hold and leaves enough administrators; then it writes name, role and overrides and moves the epoch |
| Reasons.SaveRefusalIsSo | app/accounts/administration.py:841-955 | Whatever a save is refused for is the case of the register, the actor and the wish |
| Decisions.GuardsIff | app/accounts/administration.py:479-531 | A change passes exactly when a delegate is left, and of usable and of standing administrators not fewer than before unless two |
| Decisions.BeginIff | app/accounts/administration.py:202-274 | A change is begun exactly by an actor with a proof this deployment accepts, whose row has not moved since and still gives the power |
| Decisions.TouchingIff | app/accounts/administration.py:508-523 | A delegate is needed exactly for the technical administrator's role, for held administration and for any override of it on record |
| Services.Register.DeactivateAccount | app/accounts/administration.py:959-994 | Switch off, judged as written and rolled back if a rule breaks; otherwise links ended, sessions ended |
| Decisions.Deactivating | app/accounts/administration.py:959-994 | Goes through exactly for a proven manager, on another activated active account - a delegate, if it is an administrator's - that leaves enough; then the account is off, its epoch moved, its links ended, and nothing else changed |
| Reasons.DeactivateRefusalIsSo | app/accounts/administration.py:959-994 | Whatever it is refused for is the case, or would be after it |
| Services.Register.ReactivateAccount | app/accounts/administration.py:998-1018 | The whole new register or the refusal |
| Decisions.Reactivating | app/accounts/administration.py:998-1018 | Goes through exactly on another activated, switched-off account; then it is on and its epoch moved |
| Reasons.ServiceRefusalsAreSo | app/accounts/administration.py:706-1050 | Whatever switching on, resetting, cancelling or inviting is refused for is the case |
| Services.Register.ResetSecondFactor | app/accounts/administration.py:1022-1050 | The factor gone, the epoch moved, the trail saying who took it, or the refusal |
| Decisions.Resetting | app/accounts/administration.py:1022-1050 | Goes through exactly on another account; then the authenticator is gone, the epoch moved and the trail says an administrator took it |
| Decisions.FactorsChange | app/accounts/credentials.py:336-377 | Enrolling, removing one's own while not administering, and the operator's reset: row, epoch and trail afterwards |
| Services.Register.ChangeLoginEmail | app/accounts/administration.py:1054-1119 | A new address with links and sessions ended, nothing for the same address, or the refusal |
| Decisions.ChangingAddress | app/accounts/administration.py:1054-1119 | Goes through exactly for a delegate, on another account without password or authenticator, to a well-formed address nobody else has, an outside one with a reason; a different address then moves the epoch and ends the links |
| Reasons.AddressRefusalIsSo | app/accounts/administration.py:534-564 | Whatever a change of address is refused for is the case |
| Services.Register.IssueSetupLink | app/accounts/administration.py:706-735 | The first transaction: approval and a link for what the account still needs, superseding the last, or the refusal |
| Decisions.SendingSetup | app/accounts/administration.py:706-735 | Goes through exactly on an account that is not switched off; an invitation is approved and a link issued |
| Decisions.Delivering | app/accounts/administration.py:737-756 | A pending account becomes invited exactly when its link left and still lives; a message that did not leave ends exactly its link |
| Services.Register.SendSetupLink | app/accounts/administration.py:680-756 | The whole service, with whatever others do while the message is out: the outcome is written on the register as it then is, and nothing newer is overwritten |
| Decisions.SendingWhole | app/accounts/administration.py:680-756 | Sending is exactly three steps of a run - the link, whatever others do, and the outcome judged on the register as it then is - or, refused, none |
| Services.Register.CancelInvitation | app/accounts/administration.py:759-778 | Links ended and the account pending again, or the refusal |
| Decisions.Cancelling | app/accounts/administration.py:759-778 | Goes through exactly on an invited account; then it is pending, without live links |
| Services.Register.CreateNew | app/accounts/administration.py:579-626 | A switched-off, pending account, or the refusal |
| Decisions.Creating | app/accounts/administration.py:579-626 | Goes through exactly for a proven manager with a name and an allowed address - a delegate, for a technical administrator; the account is off and pending, holds the role it was given and no override, password, authenticator or approval, and is a rehearsal account wherever data is not real |
| Reasons.CreateRefusalIsSo | app/accounts/administration.py:579-626 | Whatever a creation is refused for is the case |
| Services.Register.Consume | app/accounts/tokens.py:196-233 | The link is spent exactly when purpose, digest, time, single use and credentials all hold |
| Services.Register.Preview | app/accounts/tokens.py:173-193 | The form is shown exactly when the link still opens and its holder may set a password with it |
| Services.Register.SetPasswordWithLink | app/accounts/credentials.py:77-136 | The register after a submitted form, and that a password was set exactly when the method says so |
| Services.Register.SetOwnPassword | app/accounts/credentials.py:147-182 | A fresh hash, every link and every session ended |
| Decisions.ChangingPassword | app/accounts/credentials.py:147-182 | The new text under a salt never drawn, the epoch moved, every link ended, and nothing else changed |
| Services.Register.UpgradeHash | app/accounts/admin_session.py:867-874 | The same password hashed afresh: the stamp moves, the epoch and everything else stand |
| Decisions.Rehashing | app/accounts/admin_session.py:867-874 | A hash made again keeps its text and takes a salt never drawn; epoch, links and every other row stand |
| Services.Register.SendResetLink | app/accounts/credentials.py:257-304 | A link exactly when the account is still eligible and its credentials are those the request saw |
| Services.Register.InvalidateOutstanding | app/accounts/tokens.py:236-245 | Exactly the person's unused links of the purpose end |
| Services.Register.IssueLink | app/accounts/tokens.py:125-165 | The older links of the purpose end and one bound to the credentials of now begins |
| Links.RunsStayWellFormed | app/accounts/tokens.py:125-165 | Over every run: one live link a person and purpose, every live link bound to its account's present credentials or to a hash that never returns, lifecycle rules kept |
| Links.StartsWellFormed | app/accounts/models.py:467-549 | A register with rows that keep the lifecycle rules and no links satisfies the invariant |
| Links.EarlyReturnUnreachable | app/accounts/credentials.py:108-136 | In every reachable register, a previewed link that still opens still has a holder who may set a password: the return between spending and setting is dead |
| Links.ShownIff | app/accounts/tokens.py:173-193 | The form is shown exactly to whoever presents the link's own digest and purpose, before it expires, while it is live and bound to its holder's present credentials, for a holder it may set a password of |
| Links.ShownByHolder | app/accounts/tokens.py:173-193 | Only a preview that held the link shows a form, whatever the step |
| Links.SpendsIff | app/accounts/credentials.py:77-136 | A link is spent exactly by such a proof of a link whose form was shown - and, where that is asked, for a holder who may administer |
| Links.SpendingIsAll | app/accounts/credentials.py:77-136 | A submitted form that spends nothing changes nothing, and one that spends changes only rows, links and the next salt |
| Links.RunsOnlyEndLinks | app/accounts/tokens.py:236-264 | Over every run a link keeps what it is and only ever goes from live to ended |
| Links.MovedCredentialsEndLinks | app/accounts/tokens.py:112-122 | When an account's password, address, active flag or stored hash differs from before, no link it had can be spent any more, and its rows say so unless only the hash moved |
| Links.NoLinkOutlivesItsCredentials | app/accounts/tokens.py:196-233 | In every interleaving, a link older than such a change is never spent after it, even if the credentials return to what they were |
| Links.SpentIsPasswordSet | app/accounts/credentials.py:77-136 | The step that spends a link presented its own digest and purpose, after its form was shown, before it expired, live and bound to the holder's present credentials; it sets its holder the typed password under a salt nobody had, activates them if invited, moves the epoch and ends their links |
| Links.SpentOnce | app/accounts/tokens.py:196-233 | A spent link does nothing at any later time |
| Links.LinksAreAskedFor | app/accounts/tokens.py:125-165 | A link appears only when administration, the operator or an eligible owner's request asked for it, for what the account still needs, bound to its credentials of that moment and with its whole lifetime |
| Links.NewLinkEndsItsKind | app/accounts/tokens.py:125-165 | A new link ends the live links of its holder and its purpose, and changes no other link |
| Links.MailJobIssuesIff | app/accounts/credentials.py:246-304 | A queued request yields a link exactly when the account is activated, on, with a password of its own, real where the data is, and its credentials are those the request saw |
| Links.OperatorLinkIff | app/accounts/administration.py:1315-1370 | An operator's link goes out exactly to somebody who may administer, approved if still pending, who is then invited; refused, it changes nothing |
| AdministratorContinuity.TwoAdministratorsStay | app/accounts/administration.py:430-495 | Over every run that starts with two standing full administrators: at least two stand at every moment if and only if no reset takes one of just two at their own enrolment moment |
| AdministratorContinuity.TwoUsableStay | app/accounts/administration.py:479-495 | Over every run that starts with two administrators who can sign in and administer: two can at every moment if and only if no reset takes the authenticator of one of just two |
| AdministratorContinuity.GuardedStepsCostLittle | app/accounts/administration.py:479-531 | No switch-off and no save lets the usable or the standing administrators fall, but to two or more, or the delegates to none |
| AdministratorContinuity.StepKeepsTwoUsableIff | app/accounts/administration.py:479-495 | Whatever the step, two usable stay two exactly unless it is a reset that takes one of just two |
| AdministratorContinuity.UsableMeans | app/accounts/administration.py:314-337 | Who is usable, of the row alone: on, activated, own password, not a rehearsal account among real data, both capabilities, a working authenticator |
| AdministratorContinuity.StandingMeans | app/accounts/administration.py:399-451 | Who stands: the usable, and those complete but for an authenticator somebody else took and they have not replaced |
| AdministratorContinuity.DelegatesMean | app/accounts/administration.py:283-296 | Who delegates: the active accounts that hold delegation |
| AdministratorContinuity.SomebodyDelegates | app/accounts/administration.py:526-531 | Over every run whatever, one delegating administrator stays at least one |
| AdministratorContinuity.TieCostsOne | app/accounts/administration.py:399-451 | A reset at the moment of an enrolment takes exactly its subject out of the standing set |
| AdministratorContinuity.ResetKeepsStandingIff | app/accounts/administration.py:399-451 | A reset leaves a full administrator standing exactly when they did not enrol at that very moment |
| AdministratorContinuity.ResetThenDeactivateIsRefused | app/accounts/administration.py:479-495 | Of exactly two, the one whose factor was reset cannot then be switched off |
| Authority.PowerChangesAreAuthorised | app/accounts/administration.py:250-274 | Every change of role, overrides or active flag is by somebody else with a standing proof and the power it takes, or the owner activating |
| Authority.RunsAreWitnessed | app/accounts/administration.py:498-501 | Over every run the epoch never falls, and while it stands still password, address, factor and power are the same, however the password is hashed |
| Authority.CommitNeedsCurrentProof | app/accounts/administration.py:202-274 | Administration changes nothing unless the actor's proof is accepted, current and they manage accounts |
| Authority.NothingCommittedOnStaleProof | app/accounts/administration.py:250-274 | A verified actor commits only if their own credentials and power were the same at the proof, at every moment since, and now |
| GateSession.CarriedPassOpensExactly | app/accounts/shared_gate.py:436-543 | A carried pass is good exactly under its own password, within the absolute limit since it was typed and the idle limit since it was carried |
| BrowserSession.Browser.Passed | app/accounts/shared_gate.py:436-468 | Whether the session is behind the gate |
| BrowserSession.Browser.OpenGate | app/accounts/shared_gate.py:506-543 | The pass afterwards, fresh or carried with its own time and password |
| BrowserSession.Browser.ActAs | app/accounts/views.py:416-470 | The session after a persona is chosen or dropped: login and logout lose entries, and what is carried comes back unchanged |
| BrowserSession.Browser.Enter | app/accounts/middleware.py:180-207 | The session after the middleware: noted, a stale persona dropped, or a closed gate's contents ended |
| BrowserSession.Browser.VerifiedAdministrator | app/accounts/admin_session.py:307-359 | Who is verified now, and a session that no longer holds ended |
| BrowserSession.Browser.NoteActivity | app/accounts/admin_session.py:362-379 | The idle clock restarted for a verified administrator only |
| BrowserSession.Browser.PostGate | app/accounts/shared_gate.py:280-322 | Behind the gate afterwards exactly under the configured password, with a fresh pass |
| BrowserSession.Browser.AttemptPassword | app/accounts/admin_session.py:512-574 | A pending marker bound to the account as the check left it, or nothing but an upgraded hash |
| BrowserSession.Browser.PendingUser | app/accounts/admin_session.py:577-616 | Who is waited for, and a marker that no longer stands dropped |
| BrowserSession.Browser.VerifyCode | app/accounts/admin_session.py:619-664 | The session after a code, whatever others did to the account while it was checked |
| BrowserSession.Browser.BeginEnrolment | app/accounts/admin_session.py:667-681 | A sealed secret is kept exactly for a standing marker of an account without an authenticator |
| BrowserSession.Browser.ConfirmEnrolment | app/accounts/admin_session.py:690-743 | Account and session after an enrolment: the authenticator stays even if the session does not open |
| BrowserSession.Browser.Establish | app/accounts/admin_session.py:761-797 | The session opens only on the account as read once more |
| BrowserSession.Browser.Reauthenticate | app/accounts/admin_session.py:843-897 | The session re-bound to the account with its hash upgraded or not, left alone, or ended because the account moved meanwhile |
| AdminSessionSafety.VerifiedMeansProved | app/accounts/admin_session.py:307-359 | In every reachable session of a browser that began unused, whoever is verified is an administrator whose password and then code, behind the pass in force, were typed rightly and with no lockout in force at moments of the run, as was the gate's password; nothing has moved since the last binding and both clocks hold |
| AdminSessionSafety.ProofsWereTyped | app/accounts/admin_session.py:619-897 | In every run, an administrator session that stands was opened or proved again, as it is, at a moment that typed a right code with no lockout in force |
| AdminSessionHistory.EveryProofWasGiven | app/accounts/admin_session.py:512-897 | Over every run, each gate password, personal password and code in a history was typed at a moment of the run: the configured password, the text behind that account's hash, a right code for whoever was waited for or already signed in, and none while locked out |
| AdminSessionHistory.WrongCodeOpensNothing | app/accounts/admin_session.py:619-664 | A wrong or locked-out code verifies nobody who would not be verified had nothing been typed, whatever others do meanwhile |
| AdminSessionHistory.WrongCodeLeavesNobody | app/accounts/admin_session.py:619-664 | With nobody else at work, nobody verified before a wrong code is nobody verified after it |
| AdminSessionHistory.WrongPasswordWaitsForNothing | app/accounts/admin_session.py:512-574 | A wrong or locked-out password changes nothing at all |
| AdminSessionConduct.VerifiedIff | app/accounts/admin_session.py:307-359 | Somebody is verified exactly while behind the very pass the session was opened behind, inside both clocks, with the account signing in as it did and still an administrator |
| AdminSessionConduct.EligibleIff | app/accounts/admin_session.py:146-171 | Who may hold one: on, activated, own password, real where the data is, and either managing accounts or technical administrator |
| AdminSessionConduct.LimitsAre | app/accounts/admin_session.py:109-138 | The three limits as configured where sensible, else the defaults, none above the one it sits in |
| AdminSessionConduct.BehindIff | app/accounts/shared_gate.py:436-468 | Behind the gate: under the configured password, inside both limits, an unreadable stamp never |
| AdminSessionConduct.FreshProofIff | app/accounts/admin_session.py:824-834 | A fresh proof is asked for exactly without a session or past the limit since its last |
| AdminSessionConduct.WaitingIff | app/accounts/admin_session.py:577-611 | A typed password waits five minutes, behind the same pass, for the same account as it was |
| AdminSessionConduct.SessionsOpenRightly | app/accounts/admin_session.py:761-897 | A session is opened or proved again only by a right code with no lockout in force, for whoever was waited for or signed in, an administrator at that moment and bound to the account as it then is |
| AdminSessionConduct.CodeOpensIff | app/accounts/admin_session.py:619-664 | Given a standing password, a right code opens the session exactly when the account, read once more, is as it was and an administrator's; a wrong one leaves everything |
| AdminSessionConduct.EnrolmentWritesIff | app/accounts/admin_session.py:690-743 | An authenticator is stored exactly by a right code with no lockout, for a standing password, a sealed secret and an account without one at either look |
| AdminSessionConduct.ShowingEnrolment | app/accounts/admin_session.py:667-681 | A secret is sealed exactly for a standing password of an account without an authenticator |
| AdminSessionConduct.TypingAPassword | app/accounts/admin_session.py:512-574 | A marker is left exactly by the right password behind the gate with no lockout, for an administrator; an outdated hash is made again whether or not one is left |
| AdminSessionConduct.TypingAtTheGate | app/accounts/shared_gate.py:280-322 | The gate opens afresh exactly for the configured password typed outside it with no lockout in force |
| AdminSessionConduct.Arriving | app/accounts/middleware.py:180-311 | What each request does to the session: the stamp, a stale persona, a superseded or lapsed gate |
| AdminSessionConduct.ChoosingAPersona | app/accounts/views.py:416-470 | Exactly behind the gate and only a selectable one; pass and administrator session come along, what was pending does not |
| AdminSessionConduct.AskingAndAdministering | app/accounts/admin_session.py:338-379 | Asking ends exactly a session that verifies nobody; administering restarts the idle clock at most every thirty seconds |
| AdminSessionConduct.Leaving | app/accounts/admin_session.py:903-927 | Ending leaves gate and persona, signing out leaves nothing |
| AdminSessionSafety.GateClosesOnTime | app/accounts/shared_gate.py:436-543 | Through any persona changes and rotations, behind the gate means the password configured now was typed in this session, at a moment of the run with no lockout in force, less than the absolute limit ago |
| AdminSessionSafety.PersonaChangesNothing | app/accounts/admin_session.py:949-973 | A request or a persona change behind the gate leaves the administrator session, its clocks and the pass as they were, and a changed persona leaves nothing pending |
| AdminSessionSafety.AbsenceEndsIt | app/accounts/admin_session.py:362-379 | However busy the browser, once the idle limit since the last administration request or the absolute one since the code has passed, nobody is verified |
| AdminSessionSafety.FreshMeansRecentlyBound | app/accounts/admin_session.py:824-834 | A change not asked for a fresh proof is within the limit of the last binding, and the three limits nest below twelve hours whatever is configured |
| AdminSessionSafety.ReproofAbsorbsOnlyAHash | app/accounts/admin_session.py:871-897 | With the epoch unmoved, the account a reauthentication re-binds to has the very credentials it was bound to, and the binding changes exactly when the hash did |
| AdminSessionSafety.ReproofOutlivesAnUpgrade | app/accounts/admin_session.py:867-897 | An upgrade in the password check would end the session as one whose credentials changed; proved again, it goes on for the same account, freshly proved |
| AdminSessionSafety.RunsKeep | app/accounts/admin_session.py:512-664 | Over every run each entry a session holds stands for something that was proved in it |
| AdminSessionSafety.StepUpOpens | app/accounts/admin_session.py:512-664 | Behind the gate, the right password and a right code in time make that account verified and freshly proved |
| AdminSessionSafety.EnrolmentOpens | app/accounts/admin_session.py:690-797 | Without an authenticator yet, the right password and a code from a new one do the same, and the epoch moves by one |

## Left out

- Floating point: weights and seconds are real numbers, so rounding in the timing table and the loads is not modelled.
- `count_tests` and the reading of files: how many tests a file holds is an input; `touches_ui`, the report and the workflow files are not modelled.
- FocusedSelection.Select: changed paths are taken as already stripped and with forward slashes; the normalisation of each line is not modelled.
- Passwords.Validate: the text is taken as already lower-cased; Unicode normalisation, the length, context-word and breached-password validators are not modelled.
- Hashing, HMAC, encryption and their keys: a hash is its text and a salt never drawn twice, digests and bindings are what they are made of.
- Services.Register.UpgradeHash: the check of a password and the write of its new hash are one step; another password set between the two is not modelled.
- Services.Register.SetPasswordWithLink: the password's own validation comes before it and is not part of it.
- `emergency_disable_account` and `bootstrap_first_administrator`: deliberate operator routes past the continuity rule.
- A person removing their own authenticator while they may administer accounts: the page refuses it, and the step carries that refusal as its guard.
- Authenticators not yet confirmed: no code path stores one. A changed encryption key that makes devices unreadable is a property of the row, not a step.
- The order between a message's outcome and other steps of a run: there an outcome may arrive at any time and more than once, which allows more than the source does.
- GateThrottle.ThrottleTable.Try: making the row and locking it is one step; the retry when another request deleted the row in between is not modelled.
- AuthThrottle.SomebodyMovesOn: the same, so waiting on a row another attempt is only just inserting is not modelled.
- AuthThrottle.AnyWindowHoldsFew: a counter some attempts are exempt from, or that a correct attempt clears, starts over there; the law is for the stretch between.
- Settings per scope of the sign-in throttle, network units and trusted sources: a policy is a function of the scope, a counter is its scope and key, an exemption is an input.
- AdminSessionSafety.PersonaChangesNothing: needs an idle limit above zero, which the deployment check demands (at least 300 seconds).
- Requests of one browser take turns: two requests that load and save the same session at once are not modelled.
- Session identifiers, cookies, CSRF tokens, the store's own expiry and a persona whose sign-in hash moved: the last two are one step that empties the session.
- Unreadable stamps inside the administrator session's own entries; the gate's unreadable stamps are modelled.
- Who may be chosen as a persona, whether a code was right and whether a counter is locked are inputs of the session's steps; codes and counters have models of their own.
- Other authentication modes, personal sign-in, Cloudflare Access, HTTP, forms, templates, mail transport and the audit rows other than the second-factor trail.
