# Temporary privilege elevation in the nginx panel, modelled in Dafny

The panel is a PHP site for editing the nginx site configurations of one host.
Editing needs root, so the panel raises privileges for a short time:

1. A logged-in session asks for a one-time code (`challenge-request`). The code
   is six upper-case hex digits and lasts 300 seconds. It is stored twice: in an
   SQLite table and in a JSON list, `challenges.json`.
2. The session posts the code back (`challenge-verify`). The first unused,
   unexpired entry of the JSON list with that code and session is marked used.
3. The session asks for `visudo`. If it has a used, unexpired entry, the panel
   first writes a lock file holding the time. It then runs a `sed` script that
   uncomments the temporary block of `/etc/sudoers.d/nginx-dash`, checks the
   result with `nginx -t` and schedules a background rollback 600 seconds later.
   Only then does it grant the session an 1800-second permission in
   `permissions.json`.
4. Every action of the site API (`api.php`) except `create` requires that
   permission.

The model covers:

- both challenge stores;
- the grant store;
- the lock-file state machine and the two `sed` edits (as text functions over
  lines, with POSIX range addressing);
- the rollback, as an explicit time step;
- the per-session rate limiters and admission checks;
- the login lockout;
- the CSRF helpers and the relative-time text;
- the site-editing actions, over a map of available sites and a set of enabled ones.

Every store whose contents the PHP code rewrites is a class: `ChallengeTable`,
`ChallengeFile`, `PermissionStore`, `PrivilegeHost`, `Session` and `SiteDirs`.
Its methods are specified against pure functions, and the properties the panel
relies on are proved about those functions as lemmas.

Parameters stand in for the environment:

- `now` for `time()` and `stamp` for `date()`;
- `sid` for `session_id()`;
- byte sequences for `random_bytes`;
- booleans for whether a file operation, a database call or a shell command
  succeeded, plus the command's joined output.

Some behaviours of the code are stated as they are, not as one might expect:

- **`nginx -t` fails after activation** (`www/panel/visudo.php:54-58`). Only the
  lock is removed. The sudoers block stays enabled and no rollback is scheduled.
  `PrivilegeHost.ApplyVisudo` states this in its contract.
- **The lock file cannot be written** (`www/panel/visudo.php:35`). The failure is
  not checked, so the activation goes on without a lock. The rollback it
  schedules then finds no lock and does nothing (`PrivilegeHost.FireRollback`).
- **An exception escapes after the lock is written** (`www/panel/visudo.php:66-69`).
  The lock is left behind.
- **The code is in the reply.** `challenge-request` returns the code in its JSON
  reply (`www/html/enginex/index.php:191`), as well as sending it by Telegram.
- **Only the JSON list is checked.** The SQLite table is filled by
  `createChallenge`, but `verifyChallenge` is never called by the panel.
- **The 403 branch in api.php is dead.** `requireVisudoPermission` throws instead
  of returning false, so that branch never runs. A missing permission is
  answered with status 500 and the exception's message.
- **`save` keeps content that fails the syntax check.** The new content stays in
  place when `nginx -t` rejects it (`www/html/enginex/api.php:195-204`).
  `enable`, by contrast, removes its link again.
- **A failed `delete` still disables the site.** It removes the link before the
  file, so a failed file removal leaves the site present but disabled.
- **Sessions expire before grants.** A session times out 600 seconds after login,
  while a grant lasts 1800 seconds.

## Model

| member | source | states |
|---|---|---|
| Text.Trim | www/panel/challenge.php:79 | trim() returns the infix left after stripping space, tab, newline, carriage return, NUL and vertical tab from both ends; it neither starts nor ends with one of them |
| Text.IntCastRoundTrip | www/panel/visudo.php:20 | the `(int)` cast reads back every integer printed in decimal, as the lock file is written at line 35 |
| Text.HexRoundTrip | www/panel/challenge.php:39 | bin2hex output decodes back to the same bytes, also after strtoupper |
| Text.HtmlEscape | www/html/enginex/index.php:299 | htmlspecialchars with ENT_QUOTES leaves no `<`, `>`, `"` or `'` and changes nothing in a text without special characters |
| SudoersEdit.SedBlock | www/panel/visudo.php:40-43 | the sed range script edits exactly the lines between a start marker and the next end marker, one by one, and leaves every other line unchanged |
| SudoersEdit.BlockBoundariesKept | www/panel/visudo.php:40-43 | neither edit moves a block boundary, so a later run addresses the same lines |
| SudoersEdit.NoBlockNoChange | www/panel/visudo.php:40-43 | a file without a start marker is not changed |
| SudoersEdit.RollbackUndoesLine | www/panel/visudo.php:82-85 | on a line in its disabled form, the rollback substitutions undo the activation substitutions |
| SudoersEdit.ActivationUndoesLine | www/panel/visudo.php:40-43 | on a line in its enabled form, the activation substitutions undo the rollback substitutions |
| SudoersEdit.RollbackUndoesActivation | www/panel/visudo.php:82-85 | rollback(activate(f)) == f for every file whose block is in its disabled form |
| SudoersEdit.ActivationUndoesRollback | www/panel/visudo.php:40-43 | activate(rollback(f)) == f for every file whose block is in its enabled form |
| ChallengeStore.HexCodeShape | www/panel/challenge.php:39 | the code has six characters, all upper-case hex digits, and encodes the first three random bytes |
| ChallengeStore.Unexpired | www/panel/challenge.php:44-45 | the purge keeps exactly the rows with expires >= now and keeps row ids unique |
| ChallengeStore.UnexpiredAppend | www/panel/challenge.php:44-45 | the purge keeps the row order: purging a concatenation purges each part in place |
| ChallengeStore.FirstMatch | www/panel/challenge.php:81-96 | the row found has the code and session, is unexpired and unused, and no earlier row matches; None means no row matches |
| ChallengeStore.MarkUsedOnlyRow | www/panel/challenge.php:102-112 | with unique ids the UPDATE by id marks exactly the row found |
| ChallengeStore.IssuedCodeIsNormal | www/panel/challenge.php:79 | trimming and upper-casing an issued code leaves it unchanged |
| ChallengeStore.ConsumedRowNeverMatches | www/panel/challenge.php:81-112 | after verification the consumed row is used and is never found again, for any code, session or time |
| ChallengeStore.IssuedCodeVerifies | www/panel/challenge.php:41-59 | a code issued at `now` verifies for its session at every time up to now + 300 |
| ChallengeStore.ChallengeTable.CreateChallenge | www/panel/challenge.php:35-73 | the table is purged; on a successful insert exactly one row is added, unused, expiring at now + 300, with the returned code; a failed insert keeps the purge |
| ChallengeStore.ChallengeTable.VerifyChallenge | www/panel/challenge.php:75-120 | true iff a row matches the normalised code; exactly that row becomes used and stamped; the table is unchanged otherwise |
| GrantStore.Purged | www/panel/auth.php:103-106 | keeps exactly the records with an expiry >= now and preserves one record per session |
| GrantStore.PurgedAppend | www/panel/auth.php:103-106 | the purge keeps the record order: purging a concatenation purges each part in place |
| GrantStore.WithoutSession | www/panel/auth.php:160-163 | keeps exactly the records not belonging to the session and preserves one record per session |
| GrantStore.WithoutSessionAppend | www/panel/auth.php:160-163 | revocation keeps the record order of the other sessions |
| GrantStore.GrantOutcome | www/panel/auth.php:68-136 | a reported grant gives the session permission up to now + 1800; a failed one adds no record (at most an empty list is created); the file never comes to hold two records of one session |
| GrantStore.Remaining | www/panel/auth.php:199-210 | a reported remainder is positive and equals expires - now of a live record of the session |
| GrantStore.GrantGivesPermission | www/panel/auth.php:108-128 | after a grant the session holds permission at every time up to now + 1800 |
| GrantStore.GrantKeepsSessionsUnique | www/panel/auth.php:108-128 | a grant keeps at most one record per session |
| GrantStore.GrantKeepsOthers | www/panel/auth.php:103-128 | a grant keeps every other session's live records and only those |
| GrantStore.PurgeKeepsPermission | www/panel/auth.php:103-106 | purging at now does not change who holds permission at now |
| GrantStore.RevokeRemovesPermission | www/panel/auth.php:160-163 | after revocation the session holds no permission at any time |
| GrantStore.PurgeKeepingCountIsIdentity | www/panel/auth.php:234-244 | the record count is unchanged iff nothing expired iff the purge returns the list itself, so writing only on a count change loses nothing |
| GrantStore.RemainingMatchesPermission | www/panel/auth.php:177-211 | with one record per session, a remainder is reported iff the session still holds permission one second later |
| GrantStore.RemainingAtExpiry | www/panel/auth.php:199-207 | at expires == now the permission still holds but no remainder is reported |
| GrantStore.PermissionStore.HasVisudoPermission | www/panel/auth.php:14-49 | true iff the session is logged in, the file reads as a list and some record of the session has expires >= now |
| GrantStore.PermissionStore.RequireVisudoPermission | www/panel/auth.php:56-61 | allows exactly when hasVisudoPermission holds and otherwise throws the "verify with Telegram" message |
| GrantStore.PermissionStore.GrantVisudoPermission | www/panel/auth.php:68-136 | returns and leaves the store as AfterGrant says: the directory and file are created as needed, then the purged list with the session's record renewed or appended is written; each failing step is reported; one record per session is kept |
| GrantStore.PermissionStore.RevokeVisudoPermission | www/panel/auth.php:142-171 | an absent or non-list file is success; otherwise the session's records are removed when the write succeeds; one record per session is kept |
| GrantStore.PermissionStore.TimeRemaining | www/panel/auth.php:177-211 | returns the remainder of the session's first record with an expiry when positive, else none |
| GrantStore.PermissionStore.CleanExpiredPermissions | www/panel/auth.php:217-245 | writes the purged list only when the count changed; one record per session is kept |
| PrivilegeActivator.OwnLockReadBack | www/panel/visudo.php:20 | the lock written at time t reads back as t |
| PrivilegeActivator.OwnLockWindow | www/panel/visudo.php:19-25 | a lock written at t != 0 refuses activation iff now < t + 600, reporting t + 600 - now seconds, which for now >= t lies between 1 and 600 |
| PrivilegeActivator.UnparsableLockIsStale | www/panel/visudo.php:20-26 | a lock whose text does not start with a number never blocks activation |
| PrivilegeActivator.PrivilegeHost.ApplyVisudo | www/panel/visudo.php:4-70 | returns and leaves the host as Activation says, branch by branch: no lock directory, fresh lock with seconds left, stale lock removed, no sudoers file, lock written before the edit, exception leaving the lock, sed failure, nginx failure leaving the block enabled, success scheduling a rollback at now + 600 |
| PrivilegeActivator.ActivationEnables | www/panel/visudo.php:4-70 | applyVisudo returns true iff every step succeeds past a missing or stale lock; it then leaves the block enabled, a rollback due at now + 600 and, when the write succeeded, a lock reading now; a refusal schedules nothing |
| PrivilegeActivator.ActivationEditsOnlyAfterSed | www/panel/visudo.php:40-58 | the sudoers file changes only after a successful sed, and a refusal changes it only when `nginx -t` failed |
| PrivilegeActivator.SecondActivationRefused | www/panel/visudo.php:19-35 | after a successful activation at t whose lock was written, every activation before t + 600 is refused with t + 600 - now seconds left and changes nothing |
| PrivilegeActivator.PrivilegeHost.ScheduleRollback | www/panel/visudo.php:75-96 | adds one rollback due 600 seconds from now and changes nothing else |
| PrivilegeActivator.PrivilegeHost.FireRollback | www/panel/visudo.php:80-90 | a due rollback reverts the block and removes the lock only when a lock exists, and is a no-op otherwise |
| Sessions.RateStep | www/html/enginex/index.php:75-95 | a denied call keeps the window; a call after more than `window` seconds restarts it with count 1 and is allowed |
| Sessions.AtMostMaxPerWindow | www/html/enginex/index.php:75-95 | within one window exactly the first max - count calls are let through |
| Sessions.FirstCallAllowed | www/html/enginex/index.php:78-80 | the first call of a session is allowed and opens a window at now |
| Sessions.Session.CheckRateLimit | www/html/enginex/api.php:70-90 | the decision and the stored window are those of RateStep under the key; no other session field changes |
| Sessions.Session.Admit | www/html/enginex/index.php:22-42 | not logged in, changed user agent (session destroyed), login older than 600 s (session destroyed), or admitted with the session untouched |
| Sessions.Session.Destroy | www/html/enginex/api.php:20-21 | session_unset and session_destroy leave nothing set |
| Login.LockoutMinutes | www/html/enginex/home.php:99-100 | the minutes reported are the seconds left rounded up, between 1 and 15 when the last failure is not in the future |
| Login.LockoutWindow | www/html/enginex/home.php:96-103 | with five or more failures, the last at t, the counter the page uses stays at five or more (and the lockout applies) exactly until t + 900 |
| Login.CounterAfterLockout | www/html/enginex/home.php:101-103 | for any count, once 900 s have passed the counter is reset to 0; before that it is kept |
| Login.CheckLockout | www/html/enginex/home.php:91-103 | initialises, reports or resets the counter as the lockout rule says |
| Login.LockoutMessageIffCounted | www/html/enginex/home.php:91-103 | the lockout message is shown exactly when the counter the page then uses still holds five or more failures |
| Login.SubmitCredentials | www/html/enginex/home.php:105-118 | the reply and the session's login fields are those of Submitted: a missing or mismatched token counts a failure at now, changes nothing else and shows the token error; a matching token hands over to the credential check |
| Login.CheckCredentials | www/html/enginex/home.php:119-184 | the reply and the login fields are those of Checked: a failed connection, then missing fields, then over-long fields, then a failed lookup show their message and change no session field; otherwise the password check decides |
| Login.Authenticate | www/html/enginex/home.php:145-178 | the reply and the login fields are those of Authenticated: a found account with a matching password logs in with user, escaped name, time, agent, a zero counter and a new token; anything else counts a failure at now and changes nothing else |
| Login.LoginIff | www/html/enginex/home.php:105-178 | a submission logs in iff the token matches, the connection opens, both fields are present and short enough, the lookup runs, the account exists and the password verifies; the user, counter, time and token then come from the account, now and the fresh bytes |
| Login.FailuresCounted | www/html/enginex/home.php:105-184 | only a bad token and wrong credentials count a failure, changing nothing but the counter and its time; every other message leaves the session as it was; only a login changes the user |
| Login.InputCheckedBeforeLookup | www/html/enginex/home.php:119-153 | once connected, missing input is reported as such; a system error comes from the connection, or from the lookup only with acceptable input |
| Login.LoginPage | www/html/enginex/home.php:88-186 | credentials are only looked at for a POST below five failures; a locked-out session keeps its counter and identity |
| PanelHelpers.GenerateIdempotent | www/html/enginex/functions.php:11-16 | a fresh token is 64 hex characters and generating again returns the stored token |
| PanelHelpers.GenerateCsrfToken | www/html/enginex/functions.php:11-16 | stores a token only when none exists and returns the stored one |
| PanelHelpers.VerifyCsrfToken | www/html/enginex/functions.php:23-28 | true iff a token is stored and equals the argument |
| PanelHelpers.FriendlyAgeBuckets | www/html/enginex/functions.php:226-245 | below 60 s (negative too) "a few seconds"; then whole minutes, hours or days with the plural iff more than one; a week or more falls back to the date |
| PanelHelpers.BucketUnique | www/html/enginex/functions.php:233-241 | the count shown in a reading is the only one consistent with the difference |
| Panel.Fresh | www/html/enginex/index.php:168-170 | keeps exactly the entries with expires >= now |
| Panel.FreshAppend | www/html/enginex/index.php:168-170 | the purge keeps the entry order: purging a concatenation purges each part in place |
| Panel.FirstUsable | www/html/enginex/index.php:222-234 | the entry marked is unused, has the code and session, is unexpired, and no earlier entry is usable |
| Panel.Message | www/html/enginex/index.php:298-302 | the text of a caught exception is sent html-escaped |
| Panel.IssuedCodePassesChecks | www/html/enginex/index.php:195-203 | the code challenge-request issues is non-empty and passes the six-character format check |
| Panel.RequestedCodeVerifies | www/html/enginex/index.php:167-178 | after a request at now the session's code verifies at every time up to now + 300 |
| Panel.VerificationAuthorizes | www/html/enginex/index.php:222-272 | a verified entry authorises visudo until it expires and is never used for a verification again |
| Panel.OtherSessionsDoNotCount | www/html/enginex/index.php:226-268 | entries of other sessions never verify or authorise a session |
| Panel.ChallengeRequest | www/html/enginex/index.php:135-192 | the SQLite table is purged and gains the new row exactly when createChallenge succeeds; then each failure message in order, with the data directory created when mkdir succeeds; on success the list is purged and one unused entry for the session, expiring at now + 300, appended, and the code returned |
| Panel.MarkFirstUsable | www/html/enginex/index.php:221-234 | finds exactly the first usable entry and marks only that one used and stamped; with none the list is unchanged |
| Panel.ChallengeVerify | www/html/enginex/index.php:194-247 | format and file checks in order; the first usable entry is marked used and stamped; no match or a failed write leaves the file unchanged |
| Panel.FindVerified | www/html/enginex/index.php:266-272 | true iff the list holds a used, unexpired entry of the session |
| Panel.ActivateAndGrant | www/html/enginex/index.php:279-289 | the host ends as Activation says; a refusal is answered with its message, or the default when that is falsy, and grants nothing; after a successful activation the store ends as AfterGrant says and the reply is the enabled message iff the grant succeeded |
| Panel.Visudo | www/html/enginex/index.php:249-292 | the reply, the host and the grant store are those of VisudoOutcome for the list as read; the challenge list is not changed, so the entry is not consumed |
| Panel.VisudoGuarantees | www/html/enginex/index.php:249-292 | without a used, unexpired entry of the session nothing is activated or granted; the grant store changes only after an activation that enabled the block and scheduled its rollback; the enabled reply means the block is enabled, the rollback is due at now + 600 and the session holds permission up to now + 1800 |
| Panel.Ajax | www/html/enginex/index.php:98-305 | verify and visudo need POST; a POST needs the session token; past these every request is rate-limited; an unknown action is answered "Acción inválida" and changes nothing; a visudo request past the guards and the limit has exactly the outcome of the visudo action (VisudoOutcome), and an enabled reply means the sudoers block was activated and its rollback scheduled; only visudo touches sudoers and grants |
| SiteApi.BasenameOfName | www/html/enginex/api.php:127 | a name without slashes is its own basename, and basename is idempotent |
| SiteApi.SiteFileNameShape | www/html/enginex/api.php:413-429 | a name is accepted iff its trimmed form is not empty() in PHP's sense (so "0" is refused) and only has `[a-zA-Z0-9._-]`; the result ends in ".conf" and is the trimmed name when that already does |
| SiteApi.SiteFileNameIdempotent | www/html/enginex/api.php:413-429 | normalising a normalised name gives the same name |
| SiteApi.EffectsKeepConsistent | www/html/enginex/api.php:226-400 | save, enable, disable, rename and delete keep every enabled link pointing at an available file |
| SiteApi.DisableUndoesEnable | www/html/enginex/api.php:251-300 | disable after enable restores the directories |
| SiteApi.RenameBack | www/html/enginex/api.php:338-354 | renaming back restores both directories, the link included |
| SiteApi.DeleteForgetsOnlyName | www/html/enginex/api.php:386-392 | delete removes the name from both directories and keeps every other name |
| SiteApi.SiteDirs.ReadSite | www/html/enginex/api.php:134-161 | empty name, missing file and read failure refused in that order, else the file content |
| SiteApi.SiteDirs.SaveSite | www/html/enginex/api.php:165-222 | refusals before the copy change nothing; after it the content is saved even when the syntax check or the reload fails |
| SiteApi.SiteDirs.EnableSite | www/html/enginex/api.php:226-272 | refuses a missing or already enabled site; a failed syntax check removes the new link again; success adds the link |
| SiteApi.SiteDirs.DisableSite | www/html/enginex/api.php:276-308 | refuses a site that is not enabled; success removes its link |
| SiteApi.SiteDirs.RenameSite | www/html/enginex/api.php:312-365 | refuses empty or equal names, a missing source and an existing target; success moves the file and its link |
| SiteApi.SiteDirs.DeleteSite | www/html/enginex/api.php:369-408 | removes the link and then the file; a failed file removal leaves the site disabled |
| SiteApi.SiteDirs.CreateSite | www/html/enginex/api.php:412-470 | a new, disabled site with the template under the normalised name, refused when the name exists |
| SiteApi.Dispatch | www/html/enginex/api.php:113-127 | an empty action is refused without counting; otherwise the call is rate-limited (20 per 60 s) and a denial changes no site |
| SiteApi.Route | www/html/enginex/api.php:129-473 | gated actions without permission and unknown actions change no site |
| SiteApi.GatedAction | www/html/enginex/api.php:134-138 | without a live grant the reply is the permission message with status 500 and nothing changes |
| SiteApi.HandleRequest | www/html/enginex/api.php:11-129 | unauthenticated, hijacked and expired sessions get 401 and change no site; an admitted non-POST gets 405 and changes no site; an admitted POST without an action is refused uncounted, otherwise it is rate-limited, and without a live grant no site changes except through `create`; an unknown action changes no site |

## Left out

- Telegram (`www/panel/telegram.php`): sending is not modelled. Its result is only logged, and the reply to `challenge-request` carries the code anyway.
- Logging, `error_log`, `logger` and the activity log: they have no effect on the modelled state.
- Concurrency: two requests never interleave and the background rollback is a step taken between requests. Races on the JSON, SQLite, lock and sudoers files are not modelled.
- Time within one request is a single `now`. The source calls `time()` several times, and the calls could straddle a second.
- `date()` strings, `uniqid()` and the temporary file names are opaque values.
- The JSON encoding: a decoded entry of `challenges.json` is taken to have all its keys. array_filter keeps keys, so a rewritten list can be saved as a JSON object instead of an array. The model treats both as the same list in order.
- The SQLite table's row order is insertion order; `LIMIT 1` is modelled as the earliest matching row.
- Text.HtmlEscape: works on characters, so it cannot express that htmlspecialchars with ENT_QUOTES and without ENT_SUBSTITUTE returns the empty string for input that is not valid UTF-8 (the sed or nginx output escaped at `www/html/enginex/index.php:299` can be such input).
- SiteApi.Route: past the permission gate the reply and the site changes are those of the called SiteDirs method; the contract states the gate and the refusals, not this pass-through.
- SiteApi.GatedAction: likewise, the contract states the gate and that `read` changes no site, not the outcome of the called SiteDirs method.
- PrivilegeActivator.Activation: the lock is always readable text, so an existing lock that cannot be read (which the `(int)` cast reads as 0, a stale lock) is not modelled separately; and removing a stale lock always succeeds, while the source ignores a failed unlink.
- Text.IntCast: only the decimal forms the lock file can hold are modelled. Exponents, hexadecimal and overflow of the cast are not.
- Login.CheckCredentials: lengths count characters, while `strlen` counts UTF-8 bytes.
- `session_regenerate_id`: it does not change any modelled state.
- The random one-in-ten `cleanExpiredPermissions` call when auth.php is included (`www/panel/auth.php:247-250`): it is the same operation as `PermissionStore.CleanExpiredPermissions`, taken at a random time.
- The auth.php-missing and function-missing checks of `www/html/enginex/api.php:93-106` are deployment checks.
- api.php commands whose exit status the handler ignores are taken to succeed: removing the link again after a failed syntax check, the link moves of `rename`, the link removal of `delete`, and the reloads after enable, disable, rename and delete.
- The names `.` and `..` pass `basename` and name the directories themselves. The model treats them like any name absent from the directory.
- `getDB`'s static handle and table creation (`www/panel/challenge.php:3-33`): the database is an abstract table with a success flag per call.
- The database-backed helpers of `www/html/enginex/functions.php` (authentication tokens, activity records), `log_out.php`, `assets/js/app.js`, the HTML of `index.php` and `home.php`, response headers and cookie settings.
- The page part of `index.php` after line 306 (directory listing, nginx status, file sizes): it only renders HTML.
