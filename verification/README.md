# Verified model of the strong-password extension

This project models the `spassword` extension of OpenStack Keystone: the per-user
record that limits password guesses, expires passwords, runs an e-mail based second
factor and drives password recovery, together with the table that maps LDAP and SQL
entities to public ids. `dafny verify dfyconfig.toml` checks everything.

| file | what it holds |
|---|---|
| `Model.dfy` | configuration, one row of the table, what a call reads from outside, what it answers |
| `Steps.dfy` | what each call does to the record of its user, as one sequential step |
| `Store.dfy` | the table, references as snapshots with dirty columns, commits |
| `Driver.dfy`, `Identity.dfy`, `Resources.dfy` | the driver, `authenticate`, the callbacks and the request handlers, as classes proved against the steps |
| `Runs.dfy`, `Workflows.dfy`, `Projection.dfy` | runs of driver calls under a moving clock, what each API operation does, runs of the whole service |
| `Operations.dfy` | what each request and notification does, in the columns of the record and the fields of the request |
| `Requests.dfy`, `RequestHistory.dfy` | what the requests of the whole service answer and leave behind |
| `Disabled.dfy` | the extension switched off, its default |
| `Lockout.dfy`, `History.dfy`, `SecondFactor.dfy`, `EmailAndBlacklist.dfy`, `Recovery.dfy` | the properties of runs |
| `IdMapping.dfy` | the id mapping table |

## How to read it

A run is any sequence of calls about one user. `StateAt` is the record after k calls
and `AnswerAt` what call k told its caller. Every `utcnow()` of a call is a separate
read of a clock that never goes back, so `authenticate` carries six of them. What the
code cannot know is an input of the call: how Keystone judged the password, the
directory entry, the generated code, the mail server. The Python methods are methods
of classes here; their `ensures` tie the whole new table to the step functions, and the
step functions are what the run properties are about. `ProjectionIsExact` and
`AnswersProject` reduce an interleaved run of driver calls to the runs of each user.
For requests and notifications `ServiceRunsAreRuns` does it for the records, which are
those of a valid run of the user's own driver calls, and `ResultsAreOfRuns` for the
answers, so what is proved of those runs and their answers is proved of the service:
`ServiceThrottle` and `ResultsAreHistory` are two such properties in the service's own
terms. `Operations.dfy` says what the whole chain from a request to the row amounts to,
without the functions the handlers are proved against. The properties of logins are
about the enabled extension; `Disabled.dfy` is about the other half.

Assumptions: calls are sequential, the static blacklist is a list, generated codes are
not empty, the user table has one answer within a call, stored dates carry no time
zone, and SQLAlchemy writes only the columns assigned since a reference was read.

## What the code does that its documentation does not say

- The counter blocks when it exceeds `pwd_max_tries`, so one guess more than the
  setting is allowed (`BlockedIffHistory`). The throttle bound is attained: for every
  interval when the user is exempt from expiry, and otherwise for the intervals within
  the password's life (`ThrottleIsTight`).
- A correct password clears the counter even when the second factor then rejects the
  call, but not when mailing the challenge ends in an exception, because the attempt
  is then never committed (`CorrectPasswordClears`).
- `docs/second_factor_auth.md` line 81 limits a code to the window;
  `check_sndfa_code` does not look at its age (`CodesExpireIff`). The window is
  enforced on the time of the check (`SecondFactorProvenance`).
- A negative `pwd_max_tries` makes the first login of a created user fail on a missing
  date (`NeverCrashesIff`).
- For a group, a new mapping row can disagree with the lookup, which prefers a group of
  the SQL backend (`GroupAgreement`).

## Model

| member | source | states |
|---|---|---|
| Lockout.GuessThrottle | keystone_spassword/contrib/spassword/backends/sql.py:382-426 | in any run in which nothing resets the counter, at most `pwd_max_tries` + 1 wrong passwords, plus one per whole block the interval holds, are recorded between any two times |
| Lockout.OnlyCorrectPasswordsReset | keystone_spassword/contrib/spassword/backends/sql.py:405-426 | nothing but a correct password or a user event resets the counter |
| Lockout.ThrottleIsTight | keystone_spassword/contrib/spassword/backends/sql.py:351-426 | for every number of blocks a run of an exempt user, without a correct password or user event, records exactly that many guesses; for any other user, every number within the password's life |
| Lockout.WrongStep | keystone_spassword/contrib/spassword/backends/sql.py:387-412 | past the allowed tries a recorded guess comes at least one block after the attempt before it, though gate and record read the clock separately |
| Lockout.BlockHolds | keystone_spassword/contrib/spassword/backends/sql.py:387-397 | during a block every login, right or wrong, is rejected and changes nothing, whatever else happens to the record |
| Lockout.BlockIsExact | keystone_spassword/contrib/spassword/backends/sql.py:387-397 | after any calls during the block a login is turned away exactly when its gate time is before the last attempt plus the block |
| Lockout.CounterIsHistory | keystone_spassword/contrib/spassword/backends/sql.py:147-152 | in every reachable state the counter is the number of wrong-password answers since the last reset |
| Lockout.ReportedAttempts | keystone_spassword/contrib/spassword/backends/sql.py:410-426 | a successful login reports that number; a blocked one implies it exceeds `pwd_max_tries` |
| Lockout.CorrectPasswordClears | keystone_spassword/contrib/spassword/backends/sql.py:413-469 | a correct password clears a positive counter exactly when no challenge is needed or it can be mailed without an exception |
| History.AnswersAreHistory | keystone_spassword/contrib/spassword/backends/sql.py:199-517 | in every run every answer of every call is told from the calls and answers before it |
| History.FactsAreHistory | keystone_spassword/contrib/spassword/backends/sql.py:112-326 | the record holds exactly what the history says: creation, wrong answers, last attempt, blacklist flag, switch, verified e-mail, e-mail code, last check, last code issued |
| History.LoginIsHistory | keystone_spassword/contrib/spassword/backends/sql.py:351-517 | every outcome of a login, with every value it reports or mails, is told from the history: blocked, expired, wrong, let in, challenged, held back, or lost by an exception |
| History.SuccessIffHistory | keystone_spassword/contrib/spassword/backends/sql.py:432-441 | a login succeeds exactly when the password is right, neither blocked nor expired, and the second factor is off, or on with a verified e-mail and a code accepted less than a window ago |
| History.ChallengeIffHistory | keystone_spassword/contrib/spassword/backends/sql.py:441-469 | exactly when a login is challenged, and with which code: the last one stored if it is younger than a window, the fresh one otherwise |
| History.BlockedIffHistory | keystone_spassword/contrib/spassword/backends/sql.py:382-397 | a login is blocked exactly when the history holds too many wrong answers since the last reset and a recorded login less than a block old |
| History.AttemptTimeIsHistory | keystone_spassword/contrib/spassword/backends/sql.py:405-426 | `last_login_attempt_time` is the clock read of the last recorded login since the record was created |
| History.CreationIsHistory | keystone_spassword/contrib/spassword/backends/sql.py:119-168 | a record exists, with its creation time, exactly as the user events and first logins of the history say |
| History.SwitchIsHistory | keystone_spassword/contrib/spassword/backends/sql.py:199-212 | `sndfa` is the value of the last successful `modify_sndfa` since the record was created |
| History.CheckIsHistory | keystone_spassword/contrib/spassword/backends/sql.py:268-283 | `sndfa_last` is the time of the last check that answered True since the record was created |
| History.IssueIsHistory | keystone_spassword/contrib/spassword/backends/sql.py:443-456 | code and issue time are those of the last login that got as far as the challenge with no code younger than a window, since the record was created |
| History.EmailCodeIsHistory | keystone_spassword/contrib/spassword/backends/sql.py:303-311 | the e-mail code is the last one set since the record was created |
| History.ReportIsHistory | keystone_spassword/contrib/spassword/backends/sql.py:413-434 | every field a successful login reports, told from the history alone |
| SecondFactor.SecondFactorProvenance | keystone_spassword/contrib/spassword/backends/sql.py:427-456 | a successful login with the second factor on has a verified e-mail and, less than a window before, an accepted check of a code that a correct-password login issued and the record held in between |
| SecondFactor.CodeHasIssuer | keystone_spassword/contrib/spassword/backends/sql.py:172-182 | every stored code is the last one a correct-password login issued since the record was created |
| SecondFactor.CheckTimeIsHistory | keystone_spassword/contrib/spassword/backends/sql.py:268-278 | `sndfa_last` is the time of the last accepted check since the record was created, and only that |
| SecondFactor.ChallengeMailsHeldCode | keystone_spassword/contrib/spassword/backends/sql.py:443-467 | the code handed to the mail server is the one the record holds when the call ends |
| SecondFactor.OneCodePerWindow | keystone_spassword/contrib/spassword/backends/sql.py:447-456 | all challenges while the issue time is under a window old mail the same code, in any run that does not remove the user |
| SecondFactor.MailedCodeIsAccepted | keystone_spassword/contrib/spassword/backends/sql.py:268-283 | with no newer code issued, a mailed code is accepted exactly when the second factor and the verified e-mail are still there |
| SecondFactor.CheckedLoginSucceeds | keystone_spassword/contrib/spassword/backends/sql.py:435-441 | after an accepted check every correct-password login within a window of it succeeds while the record and its verified e-mail stay |
| SecondFactor.ChallengeCompleteness | keystone_spassword/contrib/spassword/backends/sql.py:432-469 | answering a challenge is enough to log in, over any run in between |
| SecondFactor.SndfaCodeAcceptedIff | keystone_spassword/contrib/spassword/backends/sql.py:268-283 | a code passes the check exactly when the second factor and a verified e-mail are on and it is the last one issued since the record was created |
| SecondFactor.CodesExpireIff | keystone_spassword/contrib/spassword/backends/sql.py:268-278 | the documented lifetime of a code holds of all runs exactly when the second factor is not in use |
| EmailAndBlacklist.EmailFlagIsHistory | keystone_spassword/contrib/spassword/backends/sql.py:303-326 | `sndfa_email` is true exactly when a code was set since the record was created and the most recent check after it presented that code |
| EmailAndBlacklist.EmailCodeAcceptedIff | keystone_spassword/contrib/spassword/backends/sql.py:313-326 | an e-mail code is accepted exactly when it is the last one set since the record was created |
| EmailAndBlacklist.SwitchNeedsVerifiedEmail | keystone_spassword/contrib/spassword/backends/sql.py:199-212 | `sndfa` changes only by `modify_sndfa` and only with a verified e-mail |
| EmailAndBlacklist.BlackRoundTrip | keystone_spassword/contrib/spassword/backends/sql.py:227-266 | the stored text evaluates to the value of the last successful `modify_black` since the record was created |
| EmailAndBlacklist.ExpiryExemption | keystone_spassword/contrib/spassword/backends/sql.py:351-374 | the expiry gate rejects exactly the old passwords of users on neither list |
| EmailAndBlacklist.ReportedExpiryIsExact | keystone_spassword/contrib/spassword/backends/sql.py:244-251 | a reported expiry stays the one `get_pwd_expiration` gives and the gate enforces, to the instant, until the next user event |
| EmailAndBlacklist.SuccessReportsExpiration | keystone_spassword/contrib/spassword/backends/sql.py:416-420 | every successful login, a first one included, reports the expiry of the record it leaves |
| Recovery.RecoverThenReset | keystone_spassword/contrib/spassword/spassword.py:209-286 | a mailed recovery link works while no other e-mail code is set: verified e-mail, counter 0, password life restarted, every other column kept |
| Recovery.LoginAfterReset | keystone_spassword/contrib/spassword/core.py:97-106 | the next login after a reset is not blocked, and expired exactly when the user is not exempt and the configured days have passed since the reset |
| Runs.RunKeepsInv | keystone_spassword/contrib/spassword/backends/sql.py:119-168 | the record invariant holds in every state of every run: dates present where they are read, code and issue time together, flags backed by codes, no time in the future |
| Runs.NeverCrashesIff | keystone_spassword/contrib/spassword/backends/sql.py:43-46 | no missing date reaches an unguarded normalisation exactly when `pwd_max_tries` is not negative or the gate does not apply |
| Projection.ServiceRunsAreRuns | keystone_spassword/contrib/spassword/spassword.py:179-492 | in any run of requests and notifications about many users, on one clock, each record is that of a valid run of driver calls about its user alone |
| Projection.ReachableTables | keystone_spassword/contrib/spassword/core.py:97-160 | every record of every table the service can reach satisfies the record invariant |
| Requests.ResultsAreOfRuns | keystone_spassword/contrib/spassword/spassword.py:179-508 | in any run of the whole service the result of every request is decided by the answer standing in the user's own run to its first driver call, and by whether that run left the e-mail verified |
| Requests.AnswersLift | keystone_spassword/contrib/spassword/spassword.py:179-508 | every driver call of every request, and its answer, stands in the user's own run at its place |
| Requests.ResultsAreHistory | keystone_spassword/contrib/spassword/spassword.py:179-508 | from an empty table, every result of every request is told from the history of its user |
| Requests.ClearsIff | keystone_spassword/contrib/spassword/spassword.py:250-286 | a request resets the counter exactly when its result is a login past the password, it is a user event, or it is a password reset whose code was accepted and whose update went through |
| Requests.GuessesAreWrongs | keystone_spassword/contrib/spassword/backends/sql.py:405-412 | the authentications answered with a wrong password are the wrong answers of the user's run |
| Requests.ServiceThrottle | keystone_spassword/contrib/spassword/backends/sql.py:382-426 | whatever all users send: while no request about a user clears the counter, at most `pwd_max_tries` + 1 of that user's authentications, plus one per whole block, are answered with a wrong password between any two times |
| Disabled.DisabledLogin | keystone_spassword/contrib/spassword/backends/sql.py:398-517 | with the extension disabled a login leaves the record and answers what Keystone says of the password, for every record and every outcome of Keystone's check |
| Disabled.LoginsAreTransparent | keystone_spassword/contrib/spassword/backends/sql.py:380-517 | in any run of a disabled extension, erasing all logins leaves the record as it was |
| Disabled.DisabledServiceAnswers | keystone_spassword/contrib/spassword/backends/sql.py:380-517 | in any run of the disabled service every login answers what Keystone says and leaves the table |
| Disabled.DisabledServiceKeeps | keystone_spassword/contrib/spassword/core.py:97-120 | a disabled service registers and removes no user and changes nothing but the e-mail columns |
| Disabled.NeverEnabled | keystone_spassword/contrib/spassword/core.py:43-120 | a service that was never enabled has no records and answers each request as if it were the first |
| Operations.UserEventEffect | keystone_spassword/contrib/spassword/core.py:97-113 | a creation or an update restarts the password's life and clears the counter of a registered user, keeps every other column, and registers any other user with nothing set; it does nothing when disabled |
| Operations.UnknownUserEvent | keystone_spassword/contrib/spassword/core.py:97-113 | a notification about a user the directory does not know does nothing |
| Operations.DeletionEffect | keystone_spassword/contrib/spassword/core.py:115-120 | a deletion removes the record, or does nothing when disabled |
| Operations.LoginFrame | keystone_spassword/contrib/spassword/backends/sql.py:405-512 | a login of a registered user changes at most the counter, the last attempt, the code and its time |
| Operations.FirstLoginEffect | keystone_spassword/contrib/spassword/backends/sql.py:479-508 | the record and the answer of a user's first login, column by column |
| Operations.RefusedIff | keystone_spassword/contrib/spassword/spassword.py:179-200 | exactly which requests are refused, how, and that they change nothing |
| Operations.MailDecides | keystone_spassword/contrib/spassword/spassword.py:230-241 | behind the guards, recovery and the request to verify an address answer what became of the mail |
| Operations.MailedCodeIsStored | keystone_spassword/contrib/spassword/spassword.py:375-405 | both store the mailed code whatever becomes of the mail; recovery leaves the address verified, the request to verify it does not |
| Operations.CheckEmailEffect | keystone_spassword/contrib/spassword/spassword.py:414-428 | a check of an e-mail code: right exactly for the stored code, the flag becomes the outcome, nothing else changes |
| Operations.CheckSndfaEffect | keystone_spassword/contrib/spassword/spassword.py:352-367 | a check of a second-factor code: right exactly for the stored code with the factor on, and then only its time is stored |
| Operations.ResetRefused | keystone_spassword/contrib/spassword/spassword.py:250-286 | a reset that is refused or fails at the update: its answer, and that only the verified flag follows the code |
| Operations.ResetAccepted | keystone_spassword/contrib/spassword/spassword.py:250-286 | a reset with the right code verifies the address and, when the extension is enabled, restarts the password's life and clears the counter |
| Operations.SwitchEffect | keystone_spassword/contrib/spassword/spassword.py:303-324 | behind the guards the second factor becomes the boolean of the body, False for a missing key, and nothing else changes |
| Operations.BlackEffect | keystone_spassword/contrib/spassword/spassword.py:472-492 | a registered user is put on the expiry blacklist or off it as the body says; `extra` is replaced and nothing else changes |
| Operations.AskThenCheck | keystone_spassword/contrib/spassword/spassword.py:375-428 | a mailed code verifies the address, and any other does not, over any run that neither removes the user nor sets another code |
| Operations.UnitsInMicroseconds | keystone_spassword/contrib/spassword/backends/sql.py:351-441 | the gates, the reported expiry and the window in plain microseconds: minutes, days, hours |
| Operations.ExpirationIff | keystone_spassword/contrib/spassword/backends/sql.py:244-254 | `get_pwd_expiration` gives no date exactly without a record |
| RequestHistory.FlagsAreRequests | keystone_spassword/contrib/spassword/spassword.py:303-492 | in any run of the service a user is registered, has the second factor on and is on the expiry blacklist exactly as the last granted requests say, with the booleans of their bodies |
| RequestHistory.MailedCodeVerifies | keystone_spassword/contrib/spassword/spassword.py:375-428 | whatever all users send meanwhile, while no other code is mailed a check answers Ok and verifies the address exactly when it presents the mailed code |
| RequestHistory.MailedCodeResets | keystone_spassword/contrib/spassword/spassword.py:209-286 | likewise a reset that presents the mailed code goes through, restarts the password's life and clears the counter |
| Workflows.EventsAreValid | keystone_spassword/contrib/spassword/spassword.py:209-286 | the driver calls an operation makes form a valid run |
| Projection.ProjectionIsExact | keystone_spassword/contrib/spassword/backends/sql.py:94-101 | in an interleaved run of many users each record is the result of that user's own calls |
| Projection.AnswersProject | keystone_spassword/contrib/spassword/backends/sql.py:94-101 | in an interleaved run each answer is the one the user's own calls give |
| Projection.InterleavingsAgree | keystone_spassword/contrib/spassword/backends/sql.py:94-101 | two interleavings that agree on a user's calls agree on that user's record |
| Store.DisjointCommits | keystone_spassword/contrib/spassword/backends/sql.py:510-512 | two references that assigned different columns lose nothing, in either order of commit |
| Identity.NestedWriteSurvives | keystone_spassword/contrib/spassword/backends/sql.py:453-512 | the code issued through the second reference and the attempt committed through the first are both in the final row, in either order of the commits |
| Identity.Identity.Authenticate | keystone_spassword/contrib/spassword/backends/sql.py:380-517 | the two-reference execution is one sequential step on the table, with the step's answer |
| Identity.Identity.RecordKnown | keystone_spassword/contrib/spassword/backends/sql.py:405-512 | the recording half for a user with a record |
| Identity.Identity.RecordUnknown | keystone_spassword/contrib/spassword/backends/sql.py:479-508 | the first login registers the user |
| Identity.Identity.CheckSecondFactor | keystone_spassword/contrib/spassword/backends/sql.py:432-477 | the challenge, and the code it stores through a reference of its own |
| Identity.Identity.CheckBlock | keystone_spassword/contrib/spassword/backends/sql.py:382-397 | the lockout gate |
| Identity.Identity.CheckPassword | keystone_spassword/contrib/spassword/backends/sql.py:351-377 | the expiry gate before Keystone's own check |
| Driver.SPassword.RemoveUser | keystone_spassword/contrib/spassword/backends/sql.py:112-117 | the record is gone, all others stay |
| Driver.SPassword.SetUserCreationTime | keystone_spassword/contrib/spassword/backends/sql.py:119-145 | new record, or creation time and counter reset |
| Driver.SPassword.UpdateUserModificationTime | keystone_spassword/contrib/spassword/backends/sql.py:147-168 | creation time and counter reset, or new record |
| Driver.SPassword.SetUserSndfaCode | keystone_spassword/contrib/spassword/backends/sql.py:172-197 | code and issue time, only with the second factor and e-mail on |
| Driver.SPassword.ModifySndfa | keystone_spassword/contrib/spassword/backends/sql.py:199-212 | switches only with a verified e-mail |
| Driver.SPassword.GetSndfa | keystone_spassword/contrib/spassword/backends/sql.py:214-225 | the switch, False without a record |
| Driver.SPassword.GetBlack | keystone_spassword/contrib/spassword/backends/sql.py:227-242 | the evaluated flag, False without one |
| Driver.SPassword.GetPwdExpiration | keystone_spassword/contrib/spassword/backends/sql.py:244-254 | creation time plus the configured days |
| Driver.SPassword.ModifyBlack | keystone_spassword/contrib/spassword/backends/sql.py:256-266 | stores the text of the flag |
| Driver.SPassword.CheckSndfaCode | keystone_spassword/contrib/spassword/backends/sql.py:268-283 | stamps the check time exactly when the code matches and both flags are on |
| Driver.SPassword.SetCheckEmailCode | keystone_spassword/contrib/spassword/backends/sql.py:303-311 | new code, e-mail unverified |
| Driver.SPassword.CheckEmailCode | keystone_spassword/contrib/spassword/backends/sql.py:313-326 | the e-mail flag becomes the outcome of the comparison |
| Driver.SPassword.AlreadyEmailChecked | keystone_spassword/contrib/spassword/backends/sql.py:328-348 | the e-mail flag, False without a record |
| Resources.SPasswordManager.UserUpdatedCallback | keystone_spassword/contrib/spassword/core.py:97-106 | an update of a known user restarts the password's life when the extension is enabled |
| Resources.SPasswordManager.UserCreatedCallback | keystone_spassword/contrib/spassword/core.py:108-113 | a creation registers a known user when the extension is enabled |
| Resources.SPasswordManager.UserDeletedCallback | keystone_spassword/contrib/spassword/core.py:115-120 | a deletion removes the record when the extension is enabled |
| Resources.SPasswordManager.UserAskCheckEmailCode | keystone_spassword/contrib/spassword/core.py:146-152 | sets and returns the generated code |
| Resources.SPasswordResource.Guards | keystone_spassword/contrib/spassword/spassword.py:179-200 | which refusal the guards give, in their order |
| Resources.SPasswordResource.RecoverPassword | keystone_spassword/contrib/spassword/spassword.py:209-241 | new code and verified e-mail behind all guards, whatever becomes of the mail |
| Resources.SPasswordResource.ResetPassword | keystone_spassword/contrib/spassword/spassword.py:250-286 | checks the code, then updates the user; each failure with what was already written |
| Resources.SPasswordResource.ModifySndfa | keystone_spassword/contrib/spassword/spassword.py:303-324 | toggles behind all guards and a boolean body |
| Resources.SPasswordResource.CheckSndfaCode | keystone_spassword/contrib/spassword/spassword.py:352-367 | checks a code behind configuration and verified e-mail |
| Resources.SPasswordResource.AskForCheckEmailCode | keystone_spassword/contrib/spassword/spassword.py:375-405 | sets a code for a user with an e-mail |
| Resources.SPasswordResource.CheckEmailCode | keystone_spassword/contrib/spassword/spassword.py:414-428 | checks a code for a user with an e-mail |
| Resources.SPasswordResource.ModifyBlack | keystone_spassword/contrib/spassword/spassword.py:472-492 | sets the flag behind configuration and a boolean body |
| Resources.SPasswordResource.GetBlack | keystone_spassword/contrib/spassword/spassword.py:494-508 | flag and expiration of a known user |
| IdMapping.ReachableIsUnique | docker/sql_ldap.py:30-44 | every table reachable by create, delete and purge is a partial bijection |
| IdMapping.LookupsAreInverse | docker/sql_ldap.py:96-116 | lookup by entity and lookup by public id are inverse to each other |
| IdMapping.MappingIsHistory | docker/sql_ldap.py:118-153 | after any run an entity, user or group, and a public id are mapped to each other, in both lookups, exactly when a create granted the mapping and no delete or purge since matched it |
| IdMapping.PublicIdIsHistory | docker/sql_ldap.py:57-106 | the public id of an entity is that of its SQL group if there is one, and otherwise the one the history left mapped |
| IdMapping.CreateMaps | docker/sql_ldap.py:118-130 | with both keys free a create maps the entity, user or group, in both lookups; with a key taken it changes nothing; all other lookups stay |
| IdMapping.CreateAgreesWithLookup | docker/sql_ldap.py:118-130 | for users, lookup returns the id a create returned, a second create repeats it without a change, and none is returned exactly when another entity has the id |
| IdMapping.GroupAgreement | docker/sql_ldap.py:57-88 | for groups the lookup agrees with a create exactly when no row was put beside an SQL group of another id |
| IdMapping.PurgeIsExact | docker/sql_ldap.py:142-153 | a purge removes the rows matching all given filters and keeps both lookups of every other entity |
| IdMapping.PurgeByField | docker/sql_ldap.py:142-153 | a purge by domain, local id, type or public id alone takes the ids of exactly the entities with that field |
| IdMapping.PurgeByFields | docker/sql_ldap.py:142-153 | a purge by several fields removes exactly what the purge by each of them would remove |
| IdMapping.Mapping.GetPublicId | docker/sql_ldap.py:57-106 | the public id of an entity, SQL groups first |
| IdMapping.Mapping.GetIdMapping | docker/sql_ldap.py:112-116 | the entity of a public id |
| IdMapping.Mapping.CreateIdMapping | docker/sql_ldap.py:118-130 | inserts unless a unique key is taken, then falls back to the lookup |
| IdMapping.Mapping.DeleteIdMapping | docker/sql_ldap.py:132-140 | removes the row of a public id |
| IdMapping.Mapping.PurgeMappings | docker/sql_ldap.py:142-153 | keeps, in order, the rows that miss some given filter |

## Left out

- Concurrent calls: the code takes no lock around its read-check-write, so every property is about sequential calls.
- SMTP, HTTP responses, link and message texts, policy enforcement, logging and JSON; a mail is recorded as the code it carries and whether sending raised.
- Password strength and hashing: whether a password matches is an input of the call.
- `already_sndfa_signed`: nothing calls it, and its comparison is not the one `authenticate` makes.
- The branches for rows without the `sndfa` columns: the names are always among the model's attributes.
- Time zones on stored dates, the precision of the date columns and the range limits of Python's dates.
- LDAP users who are in the directory but not in the SQL user table: one directory answers within a call.
- The authentication plugin that copies the reported extras into the user context, and the other delegating methods of the manager.
- `GET` of the second-factor state and of project roles, and `get_domain_mapping_list`: plain reads.
- Exceptions of the database other than a duplicate key; `IdMapping.Mapping` searches rows in a loop where the code issues a query.
