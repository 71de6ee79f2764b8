# Verified model of the notarial backend's session core

A Dafny model, with proofs, of the parts of the backend that keep state between requests: the session protocol
(login, rotating refresh tokens, logout, lockout, forced cut-off), the access-token denylist, the request throttler,
the index of realtime sockets, the role hierarchy, the receipts of UAFE forms, audit redaction and the cédula check digit.

`dafny verify dfyconfig.toml` checks the whole project.

## How it is built

**Sessions, two granularities.**

* `Session` gives the effect and the answer of each whole call (`Apply`), over the rows of `users` and `refresh_tokens`.
  A `Run` is a list of calls at non-decreasing times. Facts about the past (issued tokens, real activity, wrong attempts,
  which call revoked a row) are functions of the run, so no history is stored beside the rows. `SessionTheorems` and
  `SessionLimits` prove what every run keeps. `AuthServices` has the services as classes whose methods run their
  statements in the order of the source, each proved equal to `Apply`. `SessionAnswers` holds `Apply` to the columns: for
  every call, its answer and what becomes of every row, said without the functions that compute them.
* `SessionSteps` runs one database statement at a time, for any number of calls in flight; any call may crash between two
  of its statements, and one that crashed is no longer in flight. `SessionBaton` needs no assumption on what runs beside
  what. `SessionEpochs` gives the exact conditions under which epochs grow and a user has one session per epoch, a condition
  a caller can keep (no login writes over an epoch it did not read), and what becomes of overtaken calls; `SessionSerial`
  shows that one epoch-writing call on its way per user is enough, and `SessionRace` has the runs in which the conditions
  fail. `SessionEnds` says when a session is over for good. `SessionLockSteps` and `SessionStamps` are about counting and
  locking, and about validating and stamping, which are two statements each. `SessionAlone` connects the granularities: a
  call whose statements are not interleaved has the effect of the whole call.

**The other cores** have one module each: an update function per operation, a class whose methods are proved against it
where the source mutates fields, and lemmas over all runs. `ThrottleSteps`, `Receipts` and `ReceiptLimit` are about
interleavings of single Redis commands and of single database or store requests; `ThrottleFaults` about Redis failing.
`ThrottleSteps.CallAlone` and `ReceiptAlone` connect the granularities.

**What stands for the outside world.** Time is a parameter. bcrypt is the predicate `Matches`. SHA-256 and uuid v4 are
fresh draws that do not repeat (for refresh tokens and for the ids of access tokens). `email` is unique, so a lookup by email is a lookup by user key. Bulk updates and single-row
updates are atomic statements. The JWT library verifies signatures, so that nobody presents a drawn token id but with the token it was drawn
for (`SessionAnswers.Genuine`, asked for where it matters), and refuses a token from its `exp` on (section 4.1.4 of RFC 7519). Whether Redis still shows a key at the very instant it expires is a parameter (`lingers`). A pipeline of
ioredis ^5.11 (package.json:51) resolves to pairs of an error and a result and does not throw for a failed command. A request
to another machine may take effect without being answered.

## Main results

* A session has one baton: per login, at most one live refresh row or rotation in flight, in every interleaving. Per user
  and epoch there is one exactly while no login mints beside a holder of it, which holds when no login writes late.
* A session is over for good, in every interleaving, exactly when it has no live row and no rotation in
  flight that may still create one.
* A refresh token is exchanged at most once over a whole run, purge included.
* A refresh is called a replay exactly when its row is stored for a usable user, revoked, and no call has cut that user's
  sessions from the revoking call on. A row killed by a takeover, a force-logout or a password change is never a replay.
* An access token is accepted exactly while it is unexpired, not logged out, its user is usable, and no cut has
  completed since it was issued.
* No two access tokens of a run have the same id, so no logout but its own denies one.
* A login is admitted exactly when its user is stored, active, not locked, the password right and no live session in the
  way; from a deactivation to the next activation its user gets no credentials and none of its tokens is accepted.
* A password changes only for who knows the current one, or by a reset that a requester without SUPER_ADMIN is refused
  unless every role of the target is MATRIZADOR or ARCHIVADOR.
* Over whole calls the throttled stamp is at most a minute behind real activity, which decides which second login is refused.
* The throttler admits at most `2 * limit - 1` calls in any interval of one window length, and that bound is reached;
  the memory and the Redis counter return the same records exactly unless a key lingers and a call is on the dot. Among
  the calls Redis tells a total the bound holds in every interleaving of single commands, failures and crashes.
* No collusion of non-SUPER_ADMIN requesters gives anybody a role at or above their best rank.
* What such a coalition can reach is exactly the roles below its best rank; what it can take away is not bounded by rank,
  but for deleted users.
* A Redis counter is without an expiry exactly from its creation to the first `pexpire` that runs after it.
* Every receipt row names an object in the store, after every statement of every interleaving, answered or not; a form has
  at most five receipts for each call that was adding beside the others, and that bound is reached. The events that leave
  an object without a row are listed, and there are no others.
* Redaction is idempotent, bounded, and independent of the secrets; and it keeps what it may: every leaf up to four levels
  down that no sensitive key stands over.

## Where a property needs a condition

* `Throttle.StoresAgreeExactly`: the two counters differ when Redis still shows a key at its expiry instant and a call
  arrives then; the lemma is an if-and-only-if.
* No bound holds of the throttler through failing Redis commands. A pipeline answers a failed `incr` with a pair of an error
  and nothing, the error is not looked at, and the call goes on without a total, which the guard admits
  (src/common/redis/redis-throttler.storage.ts:45-56). `ThrottleFaults.AdmittedUpToBlind`: such calls are all admitted, and
  besides them at most `2 * (2 * limit - 1)`, once for each counter; `BlindCallsAreUnbounded` and
  `TheBoundWithBlindIsReached`: neither term can be dropped.
* `ThrottleSteps.CompletionRepairs`: a call repairs a key without an expiry if its `pttl` was answered, or its `pexpire`
  runs; one whose `pttl` fails returns and repairs nothing (`ThrottleSteps.FailedPttlRepairsNothing`).
* A stamp may be an old one at statement level: the write of a validation may come after a logout has cleared the stamp
  (`SessionStamps.StampOutlivesLogout`) or over a newer one (`StampGoesBack`, and `StampGoesBackExactly` for when).
* `Roles.DecisionsAgreeExactly`: the two rank computations differ for a role type outside the hierarchy, which `rankOf`
  puts last and the users service (index -1) puts first; the stored enumeration has no such value.
* `Realtime.IndexCoversRooms`: the index covers the rooms, dropped sockets included, exactly when no disconnect event finds
  its socket back in a room. `Realtime.LateJoinEscapesIndex` is a run in which it does not: a socket drops during its
  handshake, is put in the room afterwards, and its disconnect event comes last. That a dropped socket may still be put in
  a room over-approximates socket.io ^4.8 (package.json:64), which ignores such a join; without it the inclusion is
  unconditional (`Realtime.IgnoredJoinsKeepCover`). Connected sockets are never affected either way
  (`Realtime.GateIsTransparent`, `Realtime.ConnectedExactly`).
* `Cedula.SwappedVerifierExactly`: exchanging the verifier with its neighbour is noticed only after an odd number of digits,
  as in a cédula.
* The comment at src/modules/roles/roles.service.ts:236 says the target user is active; the query only asks that it is
  not deleted, and the model follows the query.
* Two statement-level properties of epochs fail when logins run beside other epoch writes, and `SessionEpochs` has the exact
  conditions: `EpochsGrowExactly` (no login writes over a later epoch than the one it stores) and `OneBatonPerUserAndEpoch`
  (no login mints while somebody holds the user and epoch it opens). From every state in which a user can log in, two logins
  run beside each other can leave two live rows at the user's current epoch (`SessionRace.ConcurrentLoginsShareAnEpoch`), and
  a login whose write comes after another login and a force-logout lowers the epoch and makes the cut access tokens valid
  again (`SessionRace.LateLoginRevivesCutSession`).
* A sweep of a user's rows does not reach a rotation in flight: `SessionEnds.SweepEndsExactly` and `LogoutEndsExactly` are
  the exact conditions, `SessionEnds.RotationOutlivesReplay` a run in which a session goes on after a replay was answered.
* Locking at the threshold fails in two ways when statements interleave. A failing login that crashes between counting and
  locking leaves the account open (`SessionLockSteps.CrashLeavesAccountOpen`), and one that locks after an unlock or a login
  cleared the counter shuts its user out (`SessionLockSteps.LateLockShutsOut`). `SessionLockSteps.LockedExactly` and
  `QuiescentAccountIsLocked` say exactly when an account is locked.
* `Roles.RemovableExactly`: an update replaces the roles of a present user without asking their rank, where a revocation
  asks it; and it deletes the old roles even when the new ones cannot be stored.
* The limit of five receipts holds of a form while no two calls add to it beside each other
  (`ReceiptLimit.AtMostFivePerAdder`, `ReceiptLimit.BoundIsReached`). There a call that dies is one whose next request
  fails; a call merely left where it is may still add what it was promised (`ReceiptLimit.PromiseIsBounded`).

## Model

| member | source | states |
|---|---|---|
| `SessionTheorems.SingleLiveSession` | src/modules/auth/auth.service.ts:185-208 | After every run each user has at most one live refresh row, and it carries the user's current epoch; no row is ahead of its user. |
| `SessionTheorems.SupersededChangesNothing` | src/modules/auth/auth.service.ts:366-377 | The epoch check after a successful consume never fires: a refresh told it was superseded presented an already revoked row and changed nothing. |
| `SessionTheorems.EpochCountsCuts` | src/modules/auth/auth.service.ts:505-512 | The epoch grows by exactly one per completed login, force-logout, password change or reset, and by nothing else. |
| `SessionTheorems.AcceptedUntilCut` | src/modules/auth/strategies/jwt.strategy.ts:23-55 | An issued access token is accepted at the end of any longer run exactly while unexpired, not denied, its user usable, and no cut completed since it was issued. |
| `SessionTheorems.CutIsFinal` | src/modules/auth/strategies/jwt.strategy.ts:48-55 | An access token whose user was cut once since it was issued is refused at the end of every longer run, at any instant. |
| `SessionTheorems.KillerOfRevoked` | src/modules/auth/auth.service.ts:302-308 | Every revoked row was revoked by some call of the run, while its user was at the epoch the row was issued in. |
| `SessionTheorems.ReplayExactly` | src/modules/auth/auth.service.ts:310-354 | Exactly when a refresh is answered as a replay, in terms of the call that revoked the row and the cuts since. |
| `SessionTheorems.CutRowIsNeverReplay` | src/modules/auth/auth.service.ts:317-331 | A row revoked by a takeover, force-logout or password change is never reported as a replay, at any later time. |
| `SessionTheorems.OlderTokenIsHarmless` | src/modules/auth/auth.service.ts:317-331 | Presenting a refresh token of an older epoch is answered as superseded and changes nothing. |
| `SessionTheorems.LogoutIsPermanent` | src/modules/auth/auth.service.ts:434-438 | An access token given to a logout is refused at every later instant of every longer run. |
| `SessionLimits.StampIsCloseToActivity` | src/modules/auth/strategies/jwt.strategy.ts:57-65 | The stored stamp is never later than the last real activity and at most 60 000 ms behind it; it is null exactly when there is none. |
| `SessionLimits.FirstSessionWins` | src/modules/auth/auth.service.ts:147-179 | With a live token a good login is surely refused below the idle window minus a minute, surely admitted from the idle window on, after a logout, or without a live token. |
| `SessionLimits.LoginReplacesSession` | src/modules/auth/auth.service.ts:676-683 | Exactly which rows a login leaves: its own live one, the user's unexpired ones revoked, everybody else's untouched. |
| `SessionLimits.ReplayEndsSession` | src/modules/auth/auth.service.ts:333-350 | A replay leaves no live row of the user, moves no epoch and no other user's row; the next login is not refused. |
| `SessionLimits.OnlyLoginOpensSession` | src/modules/auth/auth.service.ts:185-208 | Over whole calls a user without a session has none until a login completes. |
| `SessionLimits.LogoutEndsSessionExactly` | src/modules/auth/auth.service.ts:421-447 | A logout ends the session exactly when there was none or its token is the live row. |
| `SessionLimits.NewPasswordTakesEffect` | src/modules/auth/auth.service.ts:529-558 | After a password change only the new password logs in, and it does so at once. |
| `SessionLimits.LockoutIsExact` | src/modules/auth/auth.service.ts:92-125 | The counter equals the wrong attempts since the last completed login or unlock, and the account is locked exactly when they reach the threshold. |
| `SessionLimits.LockedUntilUnlocked` | src/modules/auth/auth.service.ts:75-90 | A locked account answers every login, the right password included, with 403, and with 401 once it is deleted, until somebody unlocks it. |
| `SessionLimits.RotationKeepsExpiry` | src/modules/auth/auth.service.ts:388-399 | All rows of the current session share the expiry fixed by the login that opened it. |
| `SessionLimits.NoRefreshAfterExpiry` | src/modules/auth/auth.service.ts:357-363 | A refresh succeeds only up to that expiry, and its successor has the same one. |
| `SessionLimits.AccessEndsWithSession` | src/modules/auth/auth.service.ts:691-706 | No access token of a session is accepted later than that expiry plus the access lifetime. |
| `AuthServices.Store.ConsumeToken` | src/modules/auth/auth.service.ts:302-308 | The atomic consume: one row changed exactly when the presented row was live and the user's. |
| `AuthServices.AuthService.Login` | src/modules/auth/auth.service.ts:50-230 | The statements of login have the effect and answer of the whole call. |
| `AuthServices.AuthService.GenerateTokens` | src/modules/auth/auth.service.ts:654-689 | The new row is stored with its expiry and epoch; of the others exactly the user's revoked and expired ones go. |
| `AuthServices.AuthService.RefreshTokens` | src/modules/auth/auth.service.ts:280-417 | The statements of refreshTokens have the effect and answer of the whole call. |
| `AuthServices.AuthService.Logout` | src/modules/auth/auth.service.ts:421-447 | Revoke, deny, clear the stamp. |
| `AuthServices.AuthService.UnlockAccount` | src/modules/auth/auth.service.ts:461-486 | Clears counter and lock of a present user. |
| `AuthServices.AuthService.ForceLogout` | src/modules/auth/auth.service.ts:494-525 | Bumps the epoch, clears the stamp, revokes the rows. |
| `AuthServices.AuthService.ChangePassword` | src/modules/auth/auth.service.ts:529-558 | Verifies the current password, stores the new one, bumps, revokes. |
| `AuthServices.AuthService.ResetPassword` | src/modules/auth/auth.service.ts:562-611 | The same without the current password, for a target who ranks below every NOTARIO, or by a SUPER_ADMIN. |
| `AuthServices.JwtStrategy.Validate` | src/modules/auth/strategies/jwt.strategy.ts:23-86 | Expiry, denylist, user and epoch in order, then the throttled stamp. |
| `SessionAnswers.LoginAdmitsExactly` | src/modules/auth/auth.service.ts:75-179 | Who is admitted, on the columns: stored, not deleted, active, not locked, the hash of the password, and no unrevoked unexpired row with a stamp inside the idle window. |
| `SessionAnswers.LoginAnswers` | src/modules/auth/auth.service.ts:75-179 | Why everybody else is refused, in the order of the checks. |
| `SessionAnswers.LoginWrites` | src/modules/auth/auth.service.ts:185-208 | The five columns an admitted login writes, its row, and the credentials it hands out. |
| `SessionAnswers.RefusedLoginWrites` | src/modules/auth/auth.service.ts:92-125 | A refused login writes nothing, but counts a wrong password and at the threshold locks. |
| `SessionAnswers.RefreshAnswers` | src/modules/auth/auth.service.ts:280-386 | Each answer of a refresh exactly when its columns say so. |
| `SessionAnswers.RotationWrites` | src/modules/auth/auth.service.ts:302-413 | A rotation revokes the row presented and no other, adds one successor with the same user, expiry and epoch, and hands out its credentials. |
| `SessionAnswers.RefusedRefreshWrites` | src/modules/auth/auth.service.ts:302-377 | What a refused refresh revokes: all rows of the user after a replay, the row presented when it was expired or of an older epoch, otherwise none. |
| `SessionAnswers.LogoutWrites` | src/modules/auth/auth.service.ts:421-447 | A logout revokes the row presented if it is its own, denies an unexpired token, clears the stamp, and nothing else. |
| `SessionAnswers.UnlockWrites` | src/modules/auth/auth.service.ts:461-486 | An unlock clears counter and lock of a present user and changes nothing else. |
| `SessionAnswers.ForceLogoutWrites` | src/modules/auth/auth.service.ts:494-525 | A forced logout moves the epoch, clears the stamp and revokes exactly the rows of the user. |
| `SessionAnswers.ChangePasswordExactly` | src/modules/auth/auth.service.ts:529-558 | A password is changed exactly for a stored user whose current password was given; otherwise nothing changes. |
| `SessionAnswers.ResetPasswordExactly` | src/modules/auth/auth.service.ts:562-611 | A reset is done exactly for a present target, by a SUPER_ADMIN or when all its roles are MATRIZADOR or ARCHIVADOR; otherwise nothing changes. |
| `SessionAnswers.ValidateAnswers` | src/modules/auth/strategies/jwt.strategy.ts:23-55 | When an access token is expired, denied or accepted, on the columns. |
| `SessionAnswers.ValidateWrites` | src/modules/auth/strategies/jwt.strategy.ts:57-65 | An accepted token stamps its user when the stamp is null or more than a minute old, and nothing else is written. |
| `SessionAnswers.CreateUserWrites` | src/modules/users/users.service.ts:90-143 | A user is created with nothing but a password and an activity flag, once. |
| `SessionAnswers.AccountWrites` | src/modules/users/users.service.ts:145-243 | Activation and removal touch those columns alone. |
| `SessionAnswers.DeactivatedIsNotServed` | src/modules/auth/auth.service.ts:75-131 | From a deactivation to the next activation no call of any run hands credentials to the user, and no access token of it is accepted. |
| `SessionAnswers.IssuedJti` | src/modules/auth/auth.service.ts:691-706 | An issued access token carries the id drawn for its call. |
| `SessionAnswers.JtisAreDistinct` | src/modules/auth/auth.service.ts:698-698 | Two calls of a run never issue access tokens with the same id. |
| `SessionAnswers.HandedIsUnique` | src/modules/auth/auth.service.ts:698-698 | Among the access tokens handed out in a run, equal ids mean the same token. |
| `SessionAnswers.DeniedOnlyByItsLogout` | src/modules/auth/auth.service.ts:434-438 | A token handed out is denied only after a logout that was given that very token. |
| `SessionSteps.RowsLeaveExactly` | src/modules/auth/auth.service.ts:681-683 | In every interleaving a row leaves the table exactly when the purge of a login meets it revoked and expired. |
| `SessionBaton.OneBatonPerSession` | src/modules/auth/auth.service.ts:302-399 | In every interleaving two holders (live row, or call between consuming and creating) of one login's session are the same. |
| `SessionBaton.SingleUse` | src/modules/auth/auth.service.ts:302-308 | In every interleaving a refresh token is exchanged by at most one call over the whole run, purge included, and stays dead. |
| `SessionBaton.RotationKeepsTerms` | src/modules/auth/auth.service.ts:357-399 | In every interleaving a call passes its checks only up to the expiry of its session, and the row it creates has that session's owner, expiry and epoch. |
| `SessionBaton.StaleTokenNeverPasses` | src/modules/auth/auth.service.ts:365-377 | A refresh that reads another user or epoch than its token was issued for never passes, whatever interleaves. |
| `SessionEpochs.OneBatonPerUserAndEpoch` | src/modules/auth/auth.service.ts:185-208 | At every moment of a run there is at most one holder per user and epoch, exactly when no login creates its row while somebody holds the user and epoch it opens. |
| `SessionEpochs.LiveRowsAreDistinct` | src/modules/auth/auth.service.ts:185-208 | Then two live rows with equal `userId` and `sessionEpoch` are the same row. |
| `SessionEpochs.FreshWritesSuffice` | src/modules/auth/auth.service.ts:55-208 | When every login finds, at its write, the epoch it read, epochs never fall and no login mints beside a holder; cuts, refused logins and crashes are free. |
| `SessionSerial.SerialIsNeverStale` | src/modules/auth/auth.service.ts:185-208 | One call per user on its way to write the epoch is enough for that. |
| `SessionSerial.CrashedWriterMakesRoom` | src/modules/auth/auth.service.ts:185-208 | A crash of the writing call, at any statement, lets the next login or cut of the user begin. |
| `SessionRace.ConcurrentLoginsShareAnEpoch` | src/modules/auth/auth.service.ts:185-208 | Two logins of one user run beside each other, from any state that admits a login, mint two live rows at one epoch. |
| `SessionEpochs.EpochFallsExactly` | src/modules/auth/auth.service.ts:185-194 | The only statement that lowers an epoch is the write of a login over an epoch later than the one it is about to store. |
| `SessionRace.LateLoginRevivesCutSession` | src/modules/auth/auth.service.ts:185-194 | From any state that admits a login, some run lets a late login write make the access tokens of a session cut by a force-logout valid again. |
| `SessionEpochs.EpochsGrowExactly` | src/modules/auth/auth.service.ts:185-194 | No statement of a run lowers an epoch exactly when no login writes over a later epoch than the one it stores. |
| `SessionEpochs.EpochsGrow` | src/modules/auth/auth.service.ts:185-194 | Then an epoch is never below what it was at any earlier moment. |
| `SessionEpochs.PassedEpochIsOver` | src/modules/auth/strategies/jwt.strategy.ts:48-55 | Then an epoch that was passed stays passed, and validation refuses its access tokens in every later state. |
| `SessionEpochs.PassedEpochNeverRefreshes` | src/modules/auth/auth.service.ts:365-377 | And no refresh that begins later with a token of it passes. |
| `SessionEpochs.OvertakenRefreshIsUseless` | src/modules/auth/auth.service.ts:388-413 | What a refresh overtaken by a cut mints is refused by validation in every later state, and its row is behind for ever. |
| `SessionEpochs.OvertakenSuccessorNeverPasses` | src/modules/auth/auth.service.ts:365-377 | A refresh that begins later and presents that row never passes. |
| `SessionEpochs.OvertakenLoginIsUseless` | src/modules/auth/auth.service.ts:186-202 | The same for a login that stored its epoch and was overtaken, before or after it created its row. |
| `SessionEpochs.OvertakenLoginNeverRefreshes` | src/modules/auth/auth.service.ts:365-377 | And no refresh that begins later with a row of its session passes. |
| `SessionEnds.SessionIsOverExactly` | src/modules/auth/auth.service.ts:302-399 | A session has no live row in any continuation exactly when it has none now and no rotation of it in flight may still create one: past its checks, or before them with its token unexpired. |
| `SessionEnds.SweepEndsExactly` | src/modules/auth/auth.service.ts:333-350 | The sweep after a replay, a login's or a cut's, ends a session for good exactly when no rotation of it in flight may still create a row. |
| `SessionEnds.LogoutEndsExactly` | src/modules/auth/auth.service.ts:421-447 | A logout ends the session of its token exactly when it was over already or the token is its live row. |
| `SessionEnds.RotationOutlivesReplay` | src/modules/auth/auth.service.ts:302-350 | From any state in which a refresh would succeed, a run in which a replay is answered and swept and the session still goes on. |
| `SessionLockSteps.LockIsNeverMissed` | src/modules/auth/auth.service.ts:98-107 | In every interleaving an account at the threshold is locked, or the call that counted last is about to lock it or crashed before it did. |
| `SessionLockSteps.NoCountIsLost` | src/modules/auth/auth.service.ts:98-102 | In every interleaving the counter equals the counting statements since the last clearing one. |
| `SessionLockSteps.LockedExactly` | src/modules/auth/auth.service.ts:98-107 | In every interleaving an account is locked exactly while some call has run its locking statement since the last clearing one. |
| `SessionLockSteps.CountingLockersHadCause` | src/modules/auth/auth.service.ts:98-107 | A call that both counted and locked since then had brought the attempts to the threshold. |
| `SessionLockSteps.LockedWithoutCause` | src/modules/auth/auth.service.ts:98-107 | An account locked below the threshold was locked only by calls that counted before the last clearing statement. |
| `SessionLockSteps.QuiescentAccountIsLocked` | src/modules/auth/auth.service.ts:103-107 | Once the call that counted last has run to its end, an account is locked exactly when its attempts reached the threshold or a call that counted before the last clearing statement locked it late. |
| `SessionLockSteps.CrashLeavesAccountOpen` | src/modules/auth/auth.service.ts:98-107 | A crash between counting and locking leaves an account at the threshold open: the right password still logs in. |
| `SessionLockSteps.NextFailureRepairs` | src/modules/auth/auth.service.ts:98-107 | The next failing login that runs to its end locks it. |
| `SessionLockSteps.LateLockShutsOut` | src/modules/auth/auth.service.ts:471-474 | An unlock between counting and locking ends with a locked account whose counter is zero. |
| `SessionAlone.RefreshAlone` | src/modules/auth/auth.service.ts:280-417 | The statements of an undisturbed refresh amount to the whole call, with the same credentials. |
| `SessionAlone.LoginAlone` | src/modules/auth/auth.service.ts:50-230 | The statements of an undisturbed login amount to the whole call. |
| `SessionAlone.ForceLogoutAlone` | src/modules/auth/auth.service.ts:494-525 | The statements of an undisturbed force-logout amount to the whole call. |
| `SessionAlone.ChangePasswordAlone` | src/modules/auth/auth.service.ts:545-549 | The statements of an undisturbed password change amount to the whole call. |
| `SessionAlone.LogoutAlone` | src/modules/auth/auth.service.ts:421-447 | The statements of an undisturbed logout amount to the whole call, but for the denylist. |
| `SessionAlone.UnlockAlone` | src/modules/auth/auth.service.ts:461-486 | The statements of an undisturbed unlock amount to the whole call. |
| `SessionAlone.ValidateAlone` | src/modules/auth/strategies/jwt.strategy.ts:29-65 | The statements of an undisturbed validation amount to the whole call. |
| `SessionStamps.StampIsReal` | src/modules/auth/strategies/jwt.strategy.ts:57-65 | In every interleaving a stamp is the one its user began with or an instant at which the user was active. |
| `SessionStamps.StampGoesBackExactly` | src/modules/auth/strategies/jwt.strategy.ts:57-65 | While the clock does not go back, the only statement that sets a stamp back is the late write of a validation. |
| `SessionStamps.StampOutlivesLogout` | src/modules/auth/strategies/jwt.strategy.ts:57-65 | From any state in which a stamp is due, a run in which it comes back after a logout has cleared it. |
| `SessionStamps.StampGoesBack` | src/modules/auth/strategies/jwt.strategy.ts:57-65 | From any such state, a run in which an older stamp replaces a newer one. |
| `Durations.LifetimesOfWellFormed` | src/modules/auth/auth.service.ts:708-729 | A well-formed refresh lifetime is rounded up to days by less than one day; a well-formed access lifetime is exact. |
| `Durations.LifetimesOfNumerals` | src/modules/auth/auth.service.ts:708-729 | A decimal numeral with its unit is that many days, hours or minutes: rounded up to days for refresh tokens, exact for access tokens. |
| `Durations.LifetimesOfMalformed` | src/modules/auth/auth.service.ts:708-729 | Anything else means seven days, and 900 seconds. |
| `Durations.RefreshEndsAsConfigured` | src/modules/auth/auth.service.ts:672-678 | Under configured lifetimes no refresh succeeds a day or more after the refresh lifetime has passed since the login. |
| `Durations.AccessEndsAsConfigured` | src/modules/auth/auth.service.ts:691-706 | Nor is an access token accepted later than its own configured lifetime after that. |
| `Denylist.TokenDenylist.Deny` | src/common/token-denylist/token-denylist.service.ts:26-42 | Nothing for an expired token; otherwise the Redis key with the remaining whole seconds, or the local entry. |
| `Denylist.TokenDenylist.IsDenied` | src/common/token-denylist/token-denylist.service.ts:44-56 | The answer of the store in use. |
| `Denylist.TokenDenylist.MemoryIsDenied` | src/common/token-denylist/token-denylist.service.ts:58-66 | The local answer, dropping an expired entry. |
| `Denylist.TokenDenylist.PurgeExpired` | src/common/token-denylist/token-denylist.service.ts:68-73 | The loop drops exactly the expired entries. |
| `Denylist.PurgeIsInvisible` | src/common/token-denylist/token-denylist.service.ts:58-73 | Whenever purges and lazy deletions happened, every answer is that of a map that never forgets. |
| `Denylist.LogoutIsPermanentLocally` | src/common/token-denylist/token-denylist.service.ts:26-66 | A denied token is refused at every later instant by the local map or its own expiry; only denied ones are. |
| `Denylist.KeyCoversToken` | src/common/token-denylist/token-denylist.service.ts:26-33 | The Redis key outlives the token, by less than a second. |
| `Denylist.LogoutIsPermanentInRedis` | src/common/token-denylist/token-denylist.service.ts:26-48 | The same permanence with Redis. |
| `Denylist.RefusedLocallyExactly` | src/common/token-denylist/token-denylist.service.ts:26-66 | The local map refuses a token exactly when it was denied before its expiry and the second after that has not ended. |
| `Denylist.RefusedInRedisExactly` | src/common/token-denylist/token-denylist.service.ts:26-48 | Redis refuses it exactly up to the milliseconds into its second at which the last denial came. |
| `Throttle.RedisThrottlerStorage.Increment` | src/common/redis/redis-throttler.storage.ts:28-38 | The record and the counters: those of Redis, with or without a total, or those of the memory when Redis is off or throws. |
| `Throttle.RedisThrottlerStorage.IncrementRedis` | src/common/redis/redis-throttler.storage.ts:40-57 | `incr`, `pttl` and the expiry set when there is none, whatever becomes of each command: a failed pipelined one is a missing number, a failed `pexpire` throws. |
| `Throttle.AttemptExactly` | src/common/redis/redis-throttler.storage.ts:40-57 | The key and the record after one attempt, or that it throws, for every fate of every command. |
| `Throttle.SoundAttemptIncrements` | src/common/redis/redis-throttler.storage.ts:40-57 | Without failures that is one sequential increment. |
| `Throttle.RedisThrottlerStorage.IncrementMem` | src/common/redis/redis-throttler.storage.ts:59-70 | The new window or one more hit, and the time left. |
| `Throttle.HitsCountTheWindow` | src/common/redis/redis-throttler.storage.ts:59-70 | The counter is the number of calls for its key since its window opened. |
| `Throttle.FewerThanTwiceTheLimit` | src/common/redis/redis-throttler.storage.ts:59-70 | Any half-open interval of one window length sees at most `2 * limit - 1` admitted calls. |
| `Throttle.TheBoundIsReached` | src/common/redis/redis-throttler.storage.ts:59-70 | For every limit some run reaches that bound. |
| `Throttle.StoresAgreeExactly` | src/common/redis/redis-throttler.storage.ts:40-70 | Memory and sequential Redis return the same records, with the exact exception. |
| `Throttle.NoLengthNoWindow` | src/common/redis/redis-throttler.storage.ts:40-70 | Without a positive window length every call is the first one, in both stores. |
| `ThrottleSteps.CallAlone` | src/common/redis/redis-throttler.storage.ts:40-57 | The commands of an undisturbed call amount to one attempt, whatever each of them meets: the same key and the same record or throw. |
| `ThrottleSteps.ExpiryIsNeverLost` | src/common/redis/redis-throttler.storage.ts:45-54 | In every interleaving, failures included, the key is without an expiry exactly from its creation to the first `pexpire` that runs after it, and all that time the very call that created it is in flight or failed. |
| `ThrottleSteps.CompletionRepairs` | src/common/redis/redis-throttler.storage.ts:51-56 | A call that returns after its `pttl` was answered, and any `pexpire` that runs, leave the key with an expiry or gone, whatever failed before. |
| `ThrottleSteps.FailedPttlRepairsNothing` | src/common/redis/redis-throttler.storage.ts:51-56 | A call whose `pttl` fails returns and leaves a key without an expiry as it is. |
| `ThrottleSteps.RestIsSafe` | src/common/redis/redis-throttler.storage.ts:51-54 | With every call returned and told at least one number, no key is without an expiry. |
| `ThrottleSteps.FewerThanTwiceTheLimit` | src/common/redis/redis-throttler.storage.ts:45-56 | In every interleaving of commands, failures and crashes, at most `2 * limit - 1` increments are told a total within the limit in any interval of one window length. |
| `ThrottleFaults.HistoryIsWhatIncrementDoes` | src/common/redis/redis-throttler.storage.ts:28-38 | Each call of a history changes the counters and is told the record as `Increment` does. |
| `ThrottleFaults.RedisAdmitsFewerThanTwice` | src/common/redis/redis-throttler.storage.ts:40-57 | Redis keeps the bound `2 * limit - 1` among the calls it tells a total, lingering keys and failing commands included. |
| `ThrottleFaults.AdmittedUpToBlind` | src/common/redis/redis-throttler.storage.ts:28-57 | Through any flips of availability and any failing commands, an interval of one window length sees all calls answered without a total and besides them at most twice that bound. |
| `ThrottleFaults.BlindCallsAreUnbounded` | src/common/redis/redis-throttler.storage.ts:45-56 | After any history any number of calls whose `incr` fails is admitted at one instant. |
| `ThrottleFaults.TheBoundWithBlindIsReached` | src/common/redis/redis-throttler.storage.ts:28-57 | For every limit and every number of such calls some history reaches the bound. |
| `Realtime.RealtimeGateway.CompleteConnection` | src/modules/realtime/realtime.gateway.ts:58-72 | What follows the verified token: room and index. |
| `Realtime.RealtimeGateway.HandleDisconnect` | src/modules/realtime/realtime.gateway.ts:80-89 | The socket leaves its user's set, and an empty set leaves the index. |
| `Realtime.RealtimeGateway.EmitToUser` | src/modules/realtime/realtime.gateway.ts:94-101 | Whom an event is sent to. |
| `Realtime.RealtimeGateway.DisconnectUser` | src/modules/realtime/realtime.gateway.ts:113-121 | The room is emptied and the user leaves the index. |
| `Realtime.StepKeepsIndexed` | src/modules/realtime/realtime.gateway.ts:46-121 | Every event keeps: connected room members are indexed under their user, stored sets are non-empty, index entries were authenticated. |
| `Realtime.GateIsTransparent` | src/modules/realtime/realtime.gateway.ts:94-101 | Asking the index first loses no connected receiver. |
| `Realtime.ConnectedExactly` | src/modules/realtime/realtime.gateway.ts:58-72 | A connected socket is in the index exactly when it is in the room and exactly when it was authenticated as that user. |
| `Realtime.IndexCoversRooms` | src/modules/realtime/realtime.gateway.ts:46-121 | Every room member, dropped or not, is indexed at every moment of a run exactly when no disconnect event finds its socket back in a room. |
| `Realtime.LateJoinEscapesIndex` | src/modules/realtime/realtime.gateway.ts:46-89 | A run in which a dropped socket is in the room and not in the index. |
| `Realtime.IndexExactly` | src/modules/realtime/realtime.gateway.ts:58-121 | The index holds exactly the sockets verified as its user since whose verification neither their disconnect event nor a disconnection of the user came. |
| `Realtime.IgnoredJoinsKeepCover` | src/modules/realtime/realtime.gateway.ts:58-89 | When joins of dropped sockets are ignored, no room holds one and every room member is indexed at every moment. |
| `Realtime.DisconnectEmptiesRoom` | src/modules/realtime/realtime.gateway.ts:113-121 | Nobody connected is left in the room, exactly the sockets connected there drop, and nothing changes for a user the index does not know. |
| `Realtime.LateDisconnectIsLocal` | src/modules/realtime/realtime.gateway.ts:80-89 | A late disconnect event removes its own socket and no other. |
| `Roles.HighestRankIsLeast` | src/modules/roles/roles.service.ts:42-49 | The highest rank is attained and least, and infinite exactly for no roles. |
| `Roles.ReduceIsHighestRank` | src/modules/users/users.service.ts:295-298 | The reduce of the users service computes the same bound. |
| `Roles.DecisionsAgreeExactly` | src/modules/users/users.service.ts:291-311 | Exactly when the two services decide identically. |
| `Roles.NoEscalation` | src/modules/roles/roles.service.ts:212-246 | No run of grants by a non-SUPER_ADMIN coalition and its creatures gives anybody a role at or above its best rank, at any moment. |
| `Roles.ReachableExactly` | src/modules/users/users.service.ts:145-170 | What a coalition can bring to a present user who lacks it, by any run, is exactly every stored role strictly below its best rank. |
| `Roles.RemovableExactly` | src/modules/users/users.service.ts:160-169 | What it can take away, by any run, is exactly every role of a present user, and of a deleted one every role strictly below its best rank. |
| `Roles.RefusedExactly` | src/modules/roles/roles.service.ts:42-49 | A role is refused exactly when no role of the requester ranks above it; the users service also refuses one outside the hierarchy. |
| `Roles.AssignExactly` | src/modules/roles/roles.service.ts:212-246 | When an assignment is answered Ok; then the user holds that role besides its old ones, and otherwise nothing changes. |
| `Roles.RevokeExactly` | src/modules/roles/roles.service.ts:266-300 | When a revocation is answered Ok; then exactly that role is gone, and otherwise nothing changes. |
| `Roles.MayGiveExactly` | src/modules/users/users.service.ts:291-311 | The users service permits roles exactly when each stored one ranks below some role of the requester, or for a SUPER_ADMIN. |
| `Roles.CreateExactly` | src/modules/users/users.service.ts:90-143 | When a user is created; then it holds exactly the roles asked for, and otherwise nothing changes. |
| `Roles.UpdateExactly` | src/modules/users/users.service.ts:145-170 | The answer of an update and the roles held after it, in every case. |
| `Roles.RoleStore.AssignToUser` | src/modules/roles/roles.service.ts:212-264 | The answer and the rows of an assignment. |
| `Roles.RoleStore.RevokeFromUser` | src/modules/roles/roles.service.ts:266-307 | The answer and the rows of a revocation. |
| `Roles.RoleStore.ValidateRoleCreationPermission` | src/modules/users/users.service.ts:291-311 | The two loops refuse exactly when some stored requested role is at or above the requester. |
| `Roles.RoleStore.CreateUser` | src/modules/users/users.service.ts:90-143 | The roles of a created user, or why there is none. |
| `Roles.RoleStore.UpdateUser` | src/modules/users/users.service.ts:145-224 | The replaced roles; a missing role id fails after the old ones are gone. |
| `Receipts.NoReceiptDangles` | src/modules/uafe-forms/uafe-forms.service.ts:229-321 | After every statement of every interleaving each receipt's object is in the store, and belongs to no other receipt. |
| `Receipts.StepKeepsUploads` | src/modules/uafe-forms/uafe-forms.service.ts:267-274 | An upload without a row is in the store and nobody else's, nor about to be deleted. |
| `Receipts.StepKeepsDoomedSafe` | src/modules/uafe-forms/uafe-forms.service.ts:299-309 | A key about to be deleted has no row but those its call deletes first. |
| `Receipts.NothingElseIsLeftBehind` | src/modules/uafe-forms/uafe-forms.service.ts:229-309 | Every object in the store has a row, is in the hand of a call, or was left by one of the listed events: an unanswered upload, a row not inserted, an unanswered deletion of a row or form, an object not deleted, a removal beside an add. |
| `ReceiptLimit.PromiseIsBounded` | src/modules/uafe-forms/uafe-forms.service.ts:258-274 | The receipts of a form and what its calls in flight may still add are together at most five per call adding beside the others. |
| `ReceiptLimit.AtMostFivePerAdder` | src/modules/uafe-forms/uafe-forms.service.ts:258-274 | In every interleaving a form has at most five receipts for each call that was adding to it beside the others. |
| `ReceiptLimit.BoundIsReached` | src/modules/uafe-forms/uafe-forms.service.ts:258-274 | For any number of calls beside each other some run reaches that bound; two already exceed the limit. |
| `ReceiptService.AddingCounts` | src/modules/uafe-forms/uafe-forms.service.ts:260-264 | A form has as many more receipts as were added. |
| `ReceiptService.UafeFormsService.AddComprobantes` | src/modules/uafe-forms/uafe-forms.service.ts:252-291 | Objects and rows are added in order up to the first file that fails, which may have come into the store or into the table too; never beyond five receipts. |
| `ReceiptService.UafeFormsService.UploadAll` | src/modules/uafe-forms/uafe-forms.service.ts:266-274 | The loop over the files. |
| `ReceiptService.UafeFormsService.RemoveComprobante` | src/modules/uafe-forms/uafe-forms.service.ts:293-321 | The row and its object go, or why not. |
| `ReceiptService.UafeFormsService.Remove` | src/modules/uafe-forms/uafe-forms.service.ts:229-248 | The form, its rows and their objects go, or why not. |
| `ReceiptAlone.AddAlone` | src/modules/uafe-forms/uafe-forms.service.ts:252-291 | The requests of an undisturbed call add all its files exactly when the form may be touched and stays within five, otherwise none. |
| `ReceiptAlone.RemoveOneAlone` | src/modules/uafe-forms/uafe-forms.service.ts:293-321 | Its requests remove a receipt and its object exactly when the form may be touched and the receipt is one of its own. |
| `ReceiptAlone.RemoveFormAlone` | src/modules/uafe-forms/uafe-forms.service.ts:229-248 | Its requests remove the form, its rows and their objects, and nothing else. |
| `Redaction.SensitiveExactly` | src/common/interceptors/audit.interceptor.ts:212-212 | A key is sensitive exactly when one of seven words stands in it, in any letter case. |
| `Redaction.RedactValue` | src/common/interceptors/audit.interceptor.ts:203-219 | The recursion with its loops ends on a depth measure and builds the redacted copy. |
| `Redaction.FixedExactly` | src/common/interceptors/audit.interceptor.ts:203-219 | Which values redaction keeps as they are. |
| `Redaction.Idempotent` | src/common/interceptors/audit.interceptor.ts:203-219 | Redacting twice is redacting once, at every depth. |
| `Redaction.NoSecretSurvives` | src/common/interceptors/audit.interceptor.ts:211-214 | Only the marker stands under a sensitive key, at any level. |
| `Redaction.SecretsDoNotShow` | src/common/interceptors/audit.interceptor.ts:211-214 | Payloads that differ only in secrets leave the same copy. |
| `Redaction.RedactedIsBounded` | src/common/interceptors/audit.interceptor.ts:203-219 | Nesting, array lengths and string lengths of the copy are bounded. |
| `Redaction.PathIsFollowed` | src/common/interceptors/audit.interceptor.ts:203-219 | Along every path that nothing cuts, the copy has the copy of what the value has there, and nothing where it has nothing. |
| `Redaction.LeavesAreKept` | src/common/interceptors/audit.interceptor.ts:203-219 | Every leaf up to four levels down that no sensitive key stands over is kept, a string up to its 500th character; one level further stands a marker. |
| `Redaction.DetailsHideSecrets` | src/common/interceptors/audit.interceptor.ts:181-201 | The stored details, whole or as a preview, do not depend on the secrets. |
| `Redaction.DetailsAreBounded` | src/common/interceptors/audit.interceptor.ts:181-201 | What is stored is the redacted copy of the payload selected: nothing for an empty one, whole up to 2000 characters, beyond that exactly the first 2000. |
| `Cedula.ValidateCedula` | src/common/utils/validators.util.ts:33-54 | The loop decides exactly the valid cédulas. |
| `Cedula.AcceptedIsCongruence` | src/common/utils/validators.util.ts:52-53 | Acceptance is divisibility of the weighted sum by ten. |
| `Cedula.ExactlyOneVerifier` | src/common/utils/validators.util.ts:52-53 | Every prefix, of any length, has exactly one verifier. |
| `Cedula.ChangedDigitIsRejected` | src/common/utils/validators.util.ts:43-53 | Any single changed digit of an accepted number is rejected. |
| `Cedula.SwappedDigitsExactly` | src/common/utils/validators.util.ts:43-53 | Exchanging neighbours is noticed exactly unless they are equal or 0 and 9. |
| `Cedula.SwappedVerifierExactly` | src/common/utils/validators.util.ts:43-53 | The same for the verifier, which needs an odd number of digits before it. |
| `Cedula.ErrorsInCedula` | src/common/utils/validators.util.ts:33-54 | All of this for ten characters and a province from 1 to 24. |
| `Cedula.ExactlyOneCompletion` | src/common/utils/validators.util.ts:33-54 | Nine digits of a province have exactly one valid completion. |

## Left out

- SessionTheorems.SingleLiveSession: stated for whole calls; two logins of one user interleaved by statement store the same epoch (`SessionRace.ConcurrentLoginsShareAnEpoch`), so the interleaved form (`SessionEpochs.OneBatonPerUserAndEpoch`) has a condition. `SessionBaton.OneBatonPerSession` needs no such condition.
- Denylist.LogoutIsPermanentLocally: Redis availability is constant over a run; entries are never moved between the two stores when it changes.
- SessionTheorems.LogoutIsPermanent: the session model uses the denylist as a set that never forgets, which module Denylist justifies for unexpired tokens.
- ThrottleSteps.ExpiryIsNeverLost: one key, over its whole life; commands on different keys do not touch each other.
- SessionSteps has no statement-level form of user creation and removal, nor of the denylist and expiry checks of validate; their whole calls are in Session.
- Redis errors elsewhere than in `increment`.
- The column widths of `sessionEpoch` and of the failure counter (32-bit); the model counts without bound.
- Days of the refresh lifetime are fixed-length; the local-time arithmetic of `setDate` across a clock change is not modelled.
- Role and permission administration other than grants: creating, changing and deleting roles, and the guards in front of the controllers. The role table is fixed over a run.
- The `pdfDownloadDisabled` checks when a user is created or updated.
- SessionAnswers.AccountWrites: who may activate or remove whom is decided before (nobody removes their own account, src/modules/users/users.service.ts:231-232).
- SessionAnswers.ResetPasswordExactly: the roles of the requester and of the target come with the call; the session rows hold none.
- Cutting sockets from login, force-logout and logoutAll: module Realtime models the gateway by itself.
- `sanitizeData`, `extractMeta`, signed URLs and lists of UAFE forms; `validateRuc` and `sanitizeInput`: one-branch or easy facts.
- The `error` message of a failed request, which the audit row stores beside the details as it is (src/common/interceptors/audit.interceptor.ts:89-106).
- Surrogate pairs and the `__proto__` key in redacted payloads.
- bcrypt, JWT signing, S3, socket.io and Prisma internals; controllers, DTOs, configuration and log writes.
- CRUD of news, notaries, tasks, notifications, settings, archives and clients.
