# Verification of the registration platform's protocols

A Dafny model of the stateful core of the event-registration backend and of its
browser client's token refresh, with proofs of what each protocol keeps over whole
runs. One module per source file or component; `dafny verify dfyconfig.toml` checks
all of them.

| modules | what they model |
|---|---|
| `CanonicalJson`, `AuditChain`, `AuditWriter` | the tamper-evident audit log: canonical JSON with `ensure_ascii`, an independent RFC 8259 reader, the hash chain and its verifier loop, and concurrent transactions that append under an advisory lock, commit or roll back |
| `AuthSessions`, `TokenPurge`, `AuthLockout`, `ApiClient` | refresh-token rotation with reuse detection, the retention purge behind its back, the lockout counter, and the browser client's single-flight refresh composed with the server |
| `Utf8`, `Base64`, `Crypto`, `EncryptedColumn` | the envelope cipher of personal data, down to bytes, and the column type that uses it |
| `RateLimit` | the sliding-window limiter in memory (filtered buckets, periodic sweep) and in Redis |
| `Registration`, `Teams`, `RegistrationRules`, `BulkImport`, `Allocation` | registration, deletion, teams and bulk import as operations on one set of tables, what their rules demand in calendar dates and counts, and the limits every interleaving keeps |
| `RetentionPurge` | the retention worker over all policies, with its audit lines |
| `ExcelReport`, `OpenSurvey`, `CategorySurvey` | an aggregation report, completion by counting, and set reconciliation |
| `Base32`, `Totp`, `Mfa` | one-time passwords, their secrets, recovery codes and enrolment |

Objects whose methods update fields (`AuditLogWriter`, `AuthService`, `User`, `TabClient`,
`RateLimiter`, `Session`, `TeamService`, `RetentionWorker`, `OpenSurveyService`,
`CategorySurveyService`, `MfaService`) are classes. Each method is proved equal to a step of a
function on values, and the statements about runs are lemmas about that function.

Conventions. SHA-256, HMAC and JWT verification are arbitrary functions. No function from
unbounded texts to 64-character digests is injective, so statements about the chain say "or
these two texts collide" (or hash to the genesis value), naming the finitely many texts
involved. Clocks, random draws, ids drawn from sequences and parsed requests are parameters.
A row-level service call that takes no lock is one step; the audit append and the
client/server refresh are split into finer steps.

## What was found

- Deleting a suffix of the audit log leaves an intact chain, although the header comment of
  `chain.py` says any deletion is found. `AuditChain.RearrangementIntactIffPrefix` gives the exact
  rule: what is left is accepted exactly when it is a prefix.
- The canonical payload is not injective on all Python strings: an emoji and the two lone
  surrogates that spell it print alike (`AuditChain.SurrogatePairsCollide`). It is injective up to
  UTF-16 units, hence on everything UTF-8 can store.
- The audit chain never forks exactly under READ COMMITTED (`AuditWriter.NeverForksIff`); under snapshot isolation two
  different entries fork it, unique row hashes notwithstanding (`AuditWriter.SnapshotIsolationForks`).
- An `EncryptedString` value that itself starts with `kms1:` is not read back (`EncryptedColumn.ReadBackIff`).
- The retention purge of refresh tokens changes an answer exactly when the window is shorter than
  the token lifetime and not switched off (`TokenPurge.PurgeInvisibleIff`).
- Reuse detection can fire without any theft. Restoring a session refreshes directly, past the shared
  refresh; in one tab with nothing lost, a request that refreshes before that answer is enough
  (`ApiClient.DirectRefreshReuses`). It never fires exactly where there is no tab, or no message is lost and
  either every refresh of the browser waits for the others or a single tab never refreshes directly
  (`ApiClient.NeverReusesIff`).
- A policy list that purges the audit log itself leaves an intact chain exactly when the first purgeable
  policy takes at most a suffix of it and no later one anything (`RetentionPurge.PurgedChainIntactIff`);
  the repository's own policies never purge it (`RetentionPurge.BuiltPoliciesSpareAuditLog`).
- The two limiters differ, because Redis counts rejected requests too, exactly where those fill the window
  (`RateLimit.VerdictsDifferIff`).
- Registration into a team uses the category's maximum, adding a member only the sport's. Runs keep the
  category's maximum exactly when the sport has one that is no larger, or the other limits leave no room
  for a larger team (`Allocation.RunsKeepCategoryIff`).
- A delegate, manager or coach group with gender MIXED makes the report raise KeyError; a MIXED athlete group is fetched but counted nowhere (`ExcelReport.Report`, `ExcelReport.AllAthletesCountedIff`).
- `upsert_categories` fails exactly when a name new to the pair is declared twice (`CategorySurvey.AcceptedIff`).
- Nothing in the schema keeps a second answer row out of the open survey. Submissions one after the other never
  make one; two at once do exactly when they share a field that had no row (`OpenSurvey.AtOnceKeepsOneRowIff`).
  The completion flag is right for every survey exactly when each filled row is the last of its field
  (`OpenSurvey.FlagRightIff`).
- TOTP verification raises for every digit string in the first 30 seconds of the epoch (`Totp.RaisesIffEarly`).

## Model

| member | source | states |
|---|---|---|
| CanonicalJson.ReadPrintedObject | backend/app/application/audit/chain.py:47-59 | every printed object of strings, integers and nulls reads back, by a reader of RFC 8259, as the members printed: escapes, surrogate pairs, separators and digits lose nothing |
| CanonicalJson.Utf16Injective | backend/app/application/audit/chain.py:47-59 | two strings without surrogates have the same UTF-16 units only if they are equal |
| AuditChain.PayloadDeterminesFields | backend/app/application/audit/chain.py:34-59 | two contents have the same payload exactly when all seven fields agree, texts up to UTF-16 units, null apart from every string |
| AuditChain.PayloadInjective | backend/app/application/audit/chain.py:34-59 | on content the database can hold, equal payloads mean equal content |
| AuditChain.SurrogatePairsCollide | backend/app/application/audit/chain.py:34-59 | outside that domain it fails: a code point and its split surrogates print alike |
| AuditChain.PayloadMeaning | backend/app/application/audit/chain.py:34-59 | the payload is a JSON object of seven members with strictly ascending keys, each holding the field of its name |
| AuditChain.RowTextUnambiguous | backend/app/application/audit/chain.py:62-63 | with a 64-character hash in front, the hashed text determines the previous hash and the content |
| AuditChain.VerifyRows | backend/app/application/audit/chain.py:66-87 | the loop accepts exactly the intact chains and otherwise returns the id of the first row that is wrong |
| AuditChain.HeadCommitsToHistory | backend/app/application/audit/chain.py:66-87 | two intact chains with the same head hash have the same length and agree on every audited field, or a collision among their texts is exhibited |
| AuditChain.HashesDistinct | backend/app/application/audit/chain.py:66-87 | along an intact chain no hash, and no genesis value, comes twice |
| AuditChain.RearrangementIntactIffPrefix | backend/app/application/audit/chain.py:1-21 | any list of rows taken from an intact chain (deleted, reordered, repeated) is accepted exactly when it is a prefix of it |
| AuditChain.GapPinned | backend/app/application/audit/chain.py:66-87 | after deleting a block that is not a suffix, the first bad row is the one behind the gap |
| AuditChain.EditPinned | backend/app/application/audit/chain.py:66-87 | editing the content of row k makes row k the first bad row, or the two texts collide |
| AuditChain.RehashedEditPinned | backend/app/application/audit/chain.py:66-87 | with the row's hash recomputed the next row is the first bad one, and at the last row nothing is seen but the head hash changes; or the two texts collide |
| AuditChain.AppendKeepsIntact | backend/app/application/audit/writer.py:53-82 | a row linked to the head extends an intact chain and becomes its head |
| AuditWriter.HeadHashIsHead | backend/app/application/audit/writer.py:53-62 | the row with the largest id is the chain's head wherever ids ascend |
| AuditWriter.NextKeepsInv | backend/app/application/audit/writer.py:44-82 | every step of any transaction keeps: only the lock holder has uncommitted rows or a head read, and committed rows followed by its own are an intact ascending chain |
| AuditWriter.NoFork | backend/app/application/audit/writer.py:44-106 | after any interleaving of requests, grants, reads, inserts, commits and rollbacks, the committed rows in id order are intact and extend those before |
| AuditWriter.RunAppendsOnly | backend/app/application/audit/writer.py:44-82 | in any isolation level no run changes or removes a committed row |
| AuditWriter.NoCommitAddsNothing | backend/app/application/audit/writer.py:81-82 | a run without a commit, whatever it appends and rolls back, leaves the committed rows unchanged |
| AuditWriter.RunIsBooked | backend/app/application/audit/writer.py:44-82 | in any isolation level the log's entries and the open transactions' drafts are those of a plain transactional list, computed from the statements alone |
| AuditWriter.LogIsLedger | backend/app/application/audit/writer.py:44-82 | under READ COMMITTED the entries after any run are those before it and then those of the committed transactions in commit order, or an insert exhibits a broken hash |
| AuditWriter.RefusedOnlyIfBroken | backend/src/models/audit_log.py:71 | under the lock the unique constraint on the row hash refuses an insert only if the hash is broken on the texts of the chain |
| AuditWriter.SnapshotIsolationForks | backend/app/application/audit/writer.py:44-62 | with one snapshot per transaction two entries with different hashes are both committed and both link to genesis, so the chain is broken unless the first hash is the genesis value |
| AuditWriter.NeverForksIff | backend/app/application/audit/writer.py:44-106 | every run from an empty log ends in an intact chain exactly under READ COMMITTED, unless the hash is broken on the two entries named |
| AuditWriter.AscendingIsOrdered | backend/app/application/audit/writer.py:101-106 | ordering an ascending table by id changes nothing |
| AuditWriter.AuditLogWriter.Append | backend/app/application/audit/writer.py:34-99 | one append is the four steps request, grant, read, insert: it waits for the lock, adds exactly the row with this content, or has its transaction aborted by the unique row hash |
| AuditWriter.AuditLogWriter.CommitTransaction | backend/app/application/audit/writer.py:44-52 | a commit adds exactly the transaction's own rows behind the committed ones, ends it and releases its lock |
| AuditWriter.AuditLogWriter.RollbackTransaction | backend/app/application/audit/writer.py:44-52 | a rollback leaves the committed rows as they were, ends the transaction and releases its lock |
| AuditWriter.AuditLogWriter.VerifyChain | backend/app/application/audit/writer.py:101-106 | verification reads the committed rows in id order and pins the first bad one |
| AuthSessions.AuthService.IssueSession | backend/src/services/auth_service.py:190-216 | a login returns a token that is accepted until its lifetime is over and by then expired, adds exactly its record, and changes no other |
| AuthSessions.AuthService.Logout | backend/src/services/auth_service.py:298-315 | a logout deletes exactly the record the token decodes to; a missing or undecodable token changes nothing |
| AuthSessions.AuthService.RefreshTokens | backend/src/services/auth_service.py:317-392 | a refresh answers and changes the records as specified: rotation, reuse detection or one of the rejections |
| AuthSessions.NextKeepsInv | backend/src/services/auth_service.py:190-392 | every login, refresh, logout and purge keeps one live record per login, single use of every jti, and records that match what was minted |
| AuthSessions.Lineage | backend/src/services/auth_service.py:317-392 | in every run each login has at most one record that can still be accepted and each jti is accepted at most once |
| AuthSessions.RunKeepsDead | backend/src/services/auth_service.py:337-392 | a token once revoked or gone is never live again |
| AuthSessions.AcceptedIffLive | backend/src/services/auth_service.py:326-392 | a genuine token is accepted exactly when its record is there, unrevoked and unexpired |
| AuthSessions.ReuseEndsEverySession | backend/src/services/auth_service.py:345-364 | once reuse is detected, no token issued to that user before is accepted in any later run |
| AuthSessions.LogoutExact | backend/src/services/auth_service.py:298-311 | a logout takes the presented token's record and leaves every other as it was |
| AuthSessions.LogoutEndsSession | backend/src/services/auth_service.py:298-311 | after a logout no later run answers a refresh with that token with anything but "expired or revoked" |
| AuthSessions.AnswerIff | backend/src/services/auth_service.py:337-357 | accepted, reuse detected, expired or revoked: each answer to a genuine token exactly from the presence, expiry and mark of its record |
| AuthSessions.RefreshRotates | backend/src/services/auth_service.py:359-385 | an accepted refresh marks its own record and adds one live successor of the same user and login; every other record stays |
| AuthSessions.ReuseRevokesExactly | backend/src/services/auth_service.py:342-354 | detected reuse marks the records of that user and no others; every rejection changes nothing |
| TokenPurge.PurgesUnseen | backend/app/workers/retention/policies.py:72-82 | with a window of at least the token lifetime, every refresh gets the same answer with any purges before it as with none |
| TokenPurge.PurgeInvisibleIff | backend/app/workers/retention/policies.py:72-82 | purges are invisible in all runs exactly when the window is at least the lifetime or zero |
| TokenPurge.ShortWindowShows | backend/app/workers/retention/purge.py:84-93 | with a shorter window there is a run in which a purge turns a detected reuse into a plain rejection |
| AuthLockout.User.Login | backend/src/services/auth_service.py:113-144 | a login attempt judges and updates the counter and lock as specified, including the reset after success |
| AuthLockout.LockedIff | backend/src/services/auth_service.py:113-129 | a locked account refuses every attempt before the lock ends, the right password included, and stays as it is |
| AuthLockout.SuccessResets | backend/src/services/auth_service.py:141-144 | off the lock the right password passes and clears counter and lock |
| AuthLockout.SuccessForgets | backend/src/services/auth_service.py:141-144 | after a success the account goes through any further attempts like a new one, whatever came before |
| AuthLockout.FifthFailureLocks | backend/src/services/auth_service.py:131-137 | of failures at one time the fifth locks for 900 seconds and none before it |
| AuthLockout.RunSpaced | backend/src/services/auth_service.py:113-144 | in a run without success the counter is the number of counted failures, and from the fifth on they lie a lockout apart |
| AuthLockout.LockoutBound | backend/src/services/auth_service.py:96-97 | between any two counted failures there are at most five plus one per whole lockout of 900 seconds |
| AuthLockout.LockoutBoundTight | backend/src/services/auth_service.py:96-97 | for every number there is a run in which that many failures are counted and the bound is met with equality |
| ApiClient.TabClient.Refresh | frontend/src/core/api/client.ts:26-41 | a refresh is started only when none is in flight; otherwise the caller shares the one there is |
| ApiClient.TabClient.OnRequest | frontend/src/core/api/client.ts:51-61 | the request interceptor sends at once or waits for the shared refresh |
| ApiClient.TabClient.OnError | frontend/src/core/api/client.ts:67-91 | an answer is handled as the response interceptor is specified: retry once, or end |
| ApiClient.NextKeepsSingleFlight | frontend/src/core/api/client.ts:26-41 | every event keeps at most one shared refresh in flight per tab, the one its promise names; direct refreshes are beside it |
| ApiClient.AtMostOneRefreshTwoSends | frontend/src/core/api/client.ts:26-91 | in every run, with losses, direct refreshes and any number of tabs, performRefresh has one call in flight per tab at most and no request is sent more than twice |
| ApiClient.FirstUnauthorizedWaits | frontend/src/core/api/client.ts:72-83 | the first 401 outside the auth endpoints parks the request for one retry on the refresh in flight, or on a new one that carries the cookie |
| ApiClient.OtherAnswersEnd | frontend/src/core/api/client.ts:72-78 | a second 401, a 401 of an auth endpoint and any other answer end the request and start nothing |
| ApiClient.InterceptedSendsOrWaits | frontend/src/core/api/client.ts:51-61 | a request goes out at once, or, with the hint passed, waits for a refresh that is in flight |
| ApiClient.RetriedAfterRefresh | frontend/src/core/api/client.ts:82-84 | once the refresh brings a cookie the parked request is sent a second time |
| ApiClient.EndedWithoutRefresh | frontend/src/core/api/client.ts:85-89 | if the refresh is refused or lost the parked request is over, sent once, and the cookie stays |
| ApiClient.SentAfterRefresh | frontend/src/core/api/client.ts:54-60 | a request that waited before it was sent goes out however the refresh ends |
| ApiClient.JarAfter | backend/src/services/auth_service.py:190-216 | a login's or refresh's token replaces the cookie, a logout removes it, a rejection leaves it |
| ApiClient.WaitersAreServed | frontend/src/core/api/client.ts:26-41 | in every run each waiting request has a refresh of its tab in flight |
| ApiClient.NextKeepsSafe | frontend/src/core/api/client.ts:26-91 | any event without loss, of any tab, that starts a refresh only while none is in flight keeps: the cookie in the jar, or on its way back, is not revoked, and only one call carries it |
| ApiClient.AloneNeverReuses | frontend/src/core/api/client.ts:22-41 | any number of tabs, direct refreshes included: without a lost message and with every refresh started alone, reuse detection never fires |
| ApiClient.OneTabNeverReuses | frontend/src/core/api/client.ts:22-41 | client and server together, one tab, no lost answer, no direct refresh: the shared promise keeps refreshes alone, and no interleaving ever triggers reuse detection |
| ApiClient.TwoTabsReuse | frontend/src/core/api/client.ts:22-41 | any two tabs that refresh at once trigger it |
| ApiClient.LostAnswerReuses | frontend/src/core/api/client.ts:22-41 | in any one tab, one lost answer followed by another refresh triggers it |
| ApiClient.AtOnceReuses | backend/src/services/auth_service.py:337-392 | in any state, two refreshes in flight with the same live token trigger it once both are handled |
| ApiClient.DirectRefreshReuses | frontend/src/core/auth/services/index.ts:44-49 | in any one tab with nothing lost, a direct refresh and a request that starts the shared one before its answer trigger it |
| ApiClient.NeverReusesIff | frontend/src/core/api/client.ts:22-91 | over all event sequences of an environment (tabs, losses, direct refreshes, refreshes kept alone) it never fires exactly when there is no tab, or no loss and either refreshes are kept alone or one tab never refreshes directly |
| Utf8.DecodeEncode | backend/app/infrastructure/db/crypto.py:152-170 | UTF-8 decoding undoes encoding for every string without surrogates |
| Utf8.EncodeDecode | backend/app/infrastructure/db/crypto.py:152-170 | and encoding undoes decoding: every valid byte string is the only spelling of its text |
| Utf8.StandardExamples | backend/app/infrastructure/db/crypto.py:152-170 | the characters of section 7 of RFC 3629 have the bytes given there |
| Base64.DecodeEncode | backend/app/infrastructure/db/crypto.py:152-170 | the lenient base64 decoder undoes the encoder for every byte string |
| Base64.ForeignIgnored | backend/app/infrastructure/db/crypto.py:159-170 | a foreign ASCII character anywhere makes no difference to the decoder; one that is not ASCII is an error |
| Base64.StandardExamples | backend/app/infrastructure/db/crypto.py:152-157 | the examples of section 10 of RFC 4648 encode as given there |
| Crypto.XorBitsBitwise | backend/app/infrastructure/db/crypto.py:75-97 | the exclusive or of numbers is that of each of their bits |
| Crypto.MakeKeystream | backend/app/infrastructure/db/crypto.py:63-72 | the counter loop yields, at each position, the byte of the block and offset that position names, for every length |
| Crypto.AeadInverse | backend/app/infrastructure/db/crypto.py:75-97 | a blob opens to a plaintext exactly when it is that plaintext sealed under the blob's own nonce: round trip and rejection of everything else |
| Crypto.OpensIff | backend/app/infrastructure/db/crypto.py:57-97 | a blob opens to p exactly when its last 32 bytes are the HMAC of all before them under the MAC subkey and each inner byte is p's with the bits of its HMAC block under the encryption subkey flipped |
| Crypto.BigEndianIs | backend/app/infrastructure/db/crypto.py:63-72 | the counter's bytes read as a number are the counter |
| Crypto.EqualBlocksCollide | backend/app/infrastructure/db/crypto.py:63-72 | two key stream blocks of different nonce or number are equal only where HMAC collides on two named messages |
| Crypto.SameTagSameBlob | backend/app/infrastructure/db/crypto.py:84-97 | two blobs accepted under one key with the same last 32 bytes are the same, or HMAC collides on what comes before them |
| Crypto.TamperedRefused | backend/app/infrastructure/db/crypto.py:93-95 | a blob changed in nonce or ciphertext under its old tag is refused, or exhibits that collision |
| Crypto.OpenOfEnvelope | backend/app/infrastructure/db/crypto.py:152-170 | the length-prefixed envelope of a wrapped key and a ciphertext opens to the bytes sealed |
| Crypto.DecryptEncrypt | backend/app/infrastructure/db/crypto.py:146-170 | decryption undoes encryption for every text, key and nonces |
| Crypto.DecryptAcceptsOnlyEnvelopes | backend/app/infrastructure/db/crypto.py:159-170 | whatever decrypts to a text has a body assembled from that text with some data key and nonces |
| Crypto.SameTagsSameEnvelope | backend/app/infrastructure/db/crypto.py:111-170 | two envelopes that open under one key with the same header and tags are the same, or HMAC collides under one of the two named MAC subkeys |
| Crypto.TamperedTextRefused | backend/app/infrastructure/db/crypto.py:159-170 | a stored text changed only in a nonce or ciphertext byte is refused, or exhibits one of those collisions |
| Crypto.StoredLength | backend/app/infrastructure/db/crypto.py:152-157 | the stored length is 5 + 4*ceil((131+n)/3) for n bytes of UTF-8 |
| Crypto.FitsColumnIff | backend/app/infrastructure/db/crypto.py:152-157 | a value fits a 255-character column exactly when it has at most 55 bytes |
| EncryptedColumn.BindIdempotent | backend/app/infrastructure/db/encrypted_types.py:31-39 | binding what was bound changes nothing, and what is stored is marked as encrypted |
| EncryptedColumn.ReadBackIff | backend/app/infrastructure/db/encrypted_types.py:31-44 | a value is read back as written exactly when it does not start with kms1: and UTF-8 can hold it |
| EncryptedColumn.NullAndLegacy | backend/app/infrastructure/db/encrypted_types.py:31-44 | null stays null, legacy text is read as it is, marked text is bound as it is |
| EncryptedColumn.NeverStoredPlain | backend/app/infrastructure/db/encrypted_types.py:31-39 | unmarked text is stored marked and never as itself |
| RateLimit.RateLimiter.CheckMemory | backend/core/ratelimit.py:157-200 | a check answers and updates buckets and sweep time as specified |
| RateLimit.RateLimiter.Sweep | backend/core/ratelimit.py:163-172 | the sweep loop filters every bucket and drops exactly those left empty |
| RateLimit.SweepInvisible | backend/core/ratelimit.py:157-197 | with filtering, sweeping and dropped buckets a call is admitted exactly when the full history of admitted calls has fewer than the cap in the window |
| RateLimit.WindowBound | backend/core/ratelimit.py:157-197 | of the calls of a key that the limiter lets through in its run, at most max(max_requests, burst_limit) lie in any window that ends at any instant |
| RateLimit.LetThroughIsAdmitted | backend/core/ratelimit.py:157-197 | the times the limiter lets through are those the counting rule over the full history admits |
| RateLimit.SurvivingAreAttempts | backend/core/ratelimit.py:122-153 | the sorted set holds exactly the attempts inside the window: the expiry of the key after two windows drops none of them |
| RateLimit.RedisCountsAttempts | backend/core/ratelimit.py:122-153 | Redis admits exactly when fewer than the cap of attempts, admitted or not, lie in the window |
| RateLimit.RedisStricter | backend/core/ratelimit.py:122-197 | on the same strictly increasing times, what Redis admits the in-memory limiter admits |
| RateLimit.VerdictsDifferIff | backend/core/ratelimit.py:122-197 | the two verdicts differ exactly when the calls let through are below the cap and the attempts have reached it |
| RateLimit.RedisWindowBound | backend/core/ratelimit.py:122-153 | Redis lets through at most the cap in any window that ends at any instant |
| RateLimit.RedisNotEqual | backend/core/ratelimit.py:122-197 | and they do differ: a run that memory admits and Redis refuses |
| RateLimit.HeadersMean | backend/core/ratelimit.py:173-200 | the remaining count is positive exactly where the call is let through and with the count makes the limit; the reset lies one window after the second of the call |
| RateLimit.SweepForgets | backend/core/ratelimit.py:163-172 | after a minute a sweep leaves no other key a bucket without a call in the window |
| RateLimit.RedisForgets | backend/core/ratelimit.py:122-133 | Redis forgets a key two windows after its last attempt |
| Registration.Session.Execute | backend/app/application/participants/register.py:38-103 | the statements end in the answer, tables and sequences specified for a registration: insert and commit, or roll back to what was there |
| RegistrationRules.RefusedIff | backend/app/application/participants/validation.py:36-207 | a registration is refused with a rule exactly when its demand, in dates, counts and rows, is the first in order that is not met |
| RegistrationRules.AcceptedIff | backend/app/application/participants/validation.py:36-207 | it passes exactly when every demand is met |
| RegistrationRules.AgeIs | backend/app/application/participants/errors.py:21-24 | somebody is n years old from the calendar date of the n-th birthday on |
| RegistrationRules.AgeWindowIff | backend/app/application/participants/validation.py:210-238 | the age window admits a birth year in range, or a start day from the birthday of the least age to before that of the greatest plus one |
| RegistrationRules.RefusedForAgeIff | backend/app/application/participants/validation.py:210-238 | past the earlier rules an athlete is refused for age exactly outside that window |
| RegistrationRules.RefusedForDocumentsIff | backend/app/application/participants/validation.py:241-261 | past the earlier rules documents are refused exactly before the eighteenth birthday without birth certificate, or from it on without national id and passport |
| RegistrationRules.RefusedForConsentIff | backend/app/application/participants/validation.py:264-293 | past the earlier rules consent is refused exactly where enforced, before the birthday of the set age, with one of three fields missing |
| RegistrationRules.RegisteredIff | backend/app/application/participants/register.py:38-103 | the use case succeeds exactly for an athlete, or leader with a role, with allowed files and every demand met; otherwise the tables stay |
| RegistrationRules.RegisteredRows | backend/app/application/participants/register.py:63-103 | it adds one enrolment of the person, one athlete or leader of it and one participation as asked for, under unused ids |
| RegistrationRules.SecondRegistrationRefused | backend/app/application/participants/validation.py:296-327 | the same person is refused for the same event afterwards, unless forced |
| Registration.Session.Delete | backend/app/application/participants/update.py:167-214 | a deletion removes the enrolment with everything that hangs from it and nothing else; an unknown one changes nothing |
| Registration.Session.DeleteAthletes | backend/app/application/participants/update.py:167-214 | the loop removes the athlete rows of the enrolment and their participations |
| Registration.Session.DeleteLeaders | backend/app/application/participants/update.py:167-214 | the loop removes the leader rows of the enrolment and their participations |
| Registration.ValidateMonotone | backend/app/application/participants/validation.py:36-207 | with more registrations in the tables validation only gets stricter |
| Registration.DeleteUndoesRegister | backend/app/application/participants/update.py:167-214 | deleting a registration just made restores the tables exactly |
| RegistrationRules.DeletedExactly | backend/app/application/participants/update.py:167-214 | a deletion leaves nothing of the enrolment but participations of leaders after the first, without a leader, and every other row as it was |
| Teams.TeamService.CreateTeam | backend/src/services/team_service.py:31-107 | a team is added exactly when every rule allows it, with the rejection of the first that does not |
| RegistrationRules.CreatedIff | backend/src/services/team_service.py:31-102 | a team is created exactly where event, sport, mode, quota and name allow it |
| Teams.TeamService.AddMember | backend/src/services/team_service.py:209-268 | a member is added only to a team it matches and below the sport's maximum, changing one participation's team; else nothing |
| RegistrationRules.AddedIff | backend/src/services/team_service.py:209-268 | a participation joins exactly where it is the only one that fits the team, has none, has its category, and the team is below the sport's maximum |
| Teams.TeamService.RemoveMember | backend/src/services/team_service.py:301-322 | a removal succeeds exactly when the team has one participation of the enrolment; that one loses its team and nothing else changes |
| RegistrationRules.RemoveUndoesAdd | backend/src/services/team_service.py:301-322 | removing a member just added gives back the tables |
| Teams.TeamService.DeleteTeam | backend/src/services/team_service.py:324-341 | every member loses the team and the team row goes; an unknown team changes nothing |
| Teams.DeleteTeamKeepsRegistrations | backend/src/services/team_service.py:324-341 | deleting a team changes no participation but for the team id of its members |
| BulkImport.Run | backend/src/services/import_service.py:195-246 | a dry run changes nothing and judges every row against the database; a commit ends in the fold of single registrations; every line names its enrolment or what refused it; total = valid + invalid and created = valid |
| BulkImport.DryRunBoundsCommit | backend/src/services/import_service.py:195-246 | every row a commit accepts, the dry run from the same database and date accepts |
| BulkImport.RefusedOnlyByEarlierRows | backend/src/services/import_service.py:195-246 | an athlete row accepted dry but refused in the commit has an accepted row of the file before it |
| BulkImport.RefusedByRule | backend/app/application/participants/validation.py:49-207 | it is refused by the event cap, the quota, a full team or as a duplicate, and an accepted row before it counts against that very rule |
| Allocation.RegisterKeepsLimits | backend/app/application/participants/validation.py:49-196 | a registration keeps event caps, athlete quotas, team quotas, team match and team sizes |
| Allocation.ImportKeepsLimits | backend/src/services/import_service.py:195-246 | so does a whole bulk import |
| Allocation.StepKeepsGood | backend/src/services/team_service.py:63-341 | so does every step: register, import, delete, and team create, add, remove and delete |
| Allocation.RunsKeepLimits | backend/app/application/participants/validation.py:49-196 | in every run of these operations from a state within the limits, every state is within the limits |
| Allocation.RunsKeepCategoryIff | backend/src/services/team_service.py:223-234 | every run from a good state within a category's maximum stays within it exactly when the sport's maximum is no larger or the other limits leave no room for one more |
| Allocation.AddMemberIgnoresCategoryMax | backend/src/services/team_service.py:223-234 | in a good state of an open event, validation refuses a third member of a full pair and add_member takes it, under any sport maximum above two and without one |
| RetentionPurge.RetentionWorker.Run | backend/app/workers/retention/purge.py:96-172 | the loop ends with the tables, audit log and report of purging policy after policy |
| RetentionPurge.PurgeExact | backend/app/workers/retention/purge.py:84-138 | an enabled run leaves of each table but the audit log exactly the rows no purgeable policy on it is due on, in order; a dry run leaves all |
| RetentionPurge.PurgeReported | backend/app/workers/retention/purge.py:127-150 | the report gains one line per purgeable policy; enabled lines delete all they matched, dry ones nothing |
| RetentionPurge.DryRunForecasts | backend/app/workers/retention/purge.py:118-150 | with policies on different tables a dry run counts, policy by policy, what an enabled run of the same moment deletes, of the rows held at the start |
| RetentionPurge.BuiltPoliciesTake | backend/app/workers/retention/policies.py:59-106 | the repository's policies take old access logs, old tokens that are revoked or expired, old notifications that have been read, and no audit row |
| RetentionPurge.UnreadAndLiveSurvive | backend/app/workers/retention/policies.py:72-95 | a run keeps every unread notification and every token neither revoked nor expired |
| RetentionPurge.PurgeConserves | backend/app/workers/retention/purge.py:118-163 | for each table rows before, plus for the audit log one per purgeable policy, are rows after plus the deletions reported for it |
| RetentionPurge.PurgeAudited | backend/app/workers/retention/purge.py:152-163 | a dry run, and an enabled run whose policies spare the audit log, only append to the chain: one row per purgeable policy, and it stays intact |
| RetentionPurge.BuiltPoliciesSpareAuditLog | backend/app/workers/retention/policies.py:59-106 | whatever the settings, no purgeable policy of the repository names the audit log |
| RetentionPurge.PurgedChainIntactIff | backend/app/workers/retention/purge.py:118-163 | under any policies the chain is intact after an enabled run exactly when the first purgeable policy takes at most a suffix of it and no later one is due on what is left |
| RetentionPurge.TokenPurgeIsAfterPurge | backend/app/workers/retention/policies.py:72-82 | the refresh-token policy takes exactly the records that the session protocol sees purged |
| ExcelReport.CountAthletes | backend/src/services/excel_service.py:150-154 | the loop finds, per gender, the count of the sport's group |
| ExcelReport.CountLeaders | backend/src/services/excel_service.py:157-174 | the loop fills the six cells, and grows a seventh exactly when a counted role has a MIXED group |
| ExcelReport.AddCounts | backend/src/services/excel_service.py:190-191 | the totals grow key by key; a key they do not have is the KeyError |
| ExcelReport.Report | backend/src/services/excel_service.py:130-211 | the report raises exactly when an attended sport has a MIXED delegate, manager or coach group; else it is one row per sport and the column sums |
| ExcelReport.RowConserves | backend/src/services/excel_service.py:176-188 | a row's total is the sum of all groups fetched for its sport that have a column |
| ExcelReport.ColumnsConserve | backend/src/services/excel_service.py:190-196 | every column of the final row is the sum of all groups fetched for that column, and its totals are the sums of their parts |
| ExcelReport.ReportConserves | backend/src/services/excel_service.py:130-211 | the grand total is all MALE and FEMALE athletes plus all delegates, managers and coaches fetched, each once |
| ExcelReport.AllAthletesCountedIff | backend/src/services/excel_service.py:150-196 | it counts all athletes fetched exactly when none is MIXED |
| OpenSurvey.OpenSurveyService.DeactivateField | backend/src/services/open_survey_service.py:79-88 | a deactivation flips one field and keeps every answer |
| OpenSurvey.OpenSurveyService.UpsertResponses | backend/src/services/open_survey_service.py:91-140 | one unknown or inactive field rejects the whole submission unchanged; otherwise the loop over rows looked up beforehand is the upsert of each pair in turn |
| OpenSurvey.OpenSurveyService.GetOrgFillView | backend/src/services/open_survey_service.py:142-179 | the view has exactly one line per active field, with the organization's answer or none |
| OpenSurvey.OpenSurveyService.OrgStatusOverview | backend/src/services/open_survey_service.py:182-253 | one status per organization; with one row each, completed means every required field is answered and the answered count is the number of fields answered |
| OpenSurvey.SubmissionStored | backend/src/services/open_survey_service.py:118-130 | after a submission each of its fields is answered with its value |
| OpenSurvey.SubmissionLeavesOthers | backend/src/services/open_survey_service.py:118-130 | every other field and organization keeps its row and answer |
| OpenSurvey.SubmissionKeepsRows | backend/src/services/open_survey_service.py:118-130 | rows keep their identity, and one row per field and organization is kept |
| OpenSurvey.FilledIff | backend/src/services/open_survey_service.py:227-228 | an answer counts exactly when some character of it is not a space |
| OpenSurvey.CompletedIffAllAnswered | backend/src/services/open_survey_service.py:199-251 | with one row each, counting enough required answers means every active required field has a non-blank answer, and conversely |
| OpenSurvey.FlagRightIff | backend/src/services/open_survey_service.py:199-251 | for given rows and organization the flag is right for every survey exactly when each filled row is the last of its field |
| OpenSurvey.AtOnceKeepsOneRowIff | backend/src/services/open_survey_service.py:110-130 | of two submissions of one organization that both look up before either writes, no second row comes about exactly when every field they share had a row |
| OpenSurvey.StrayRowMisleads | backend/src/services/open_survey_service.py:199-251 | a filled row that is not the last of its field makes the flag complete some survey with a required field open |
| OpenSurvey.RunsKeepOneRow | backend/src/services/open_survey_service.py:90-130 | in every run of field changes and submissions there is at most one row per field and organization |
| OpenSurvey.CompletedInEveryRun | backend/src/services/open_survey_service.py:182-253 | so in every run the completion flag means what it says |
| OpenSurvey.DeactivationKeepsCompletion | backend/src/services/open_survey_service.py:79-88 | deactivating a field never takes a completion back |
| OpenSurvey.DeactivatedRefuses | backend/src/services/open_survey_service.py:79-105 | a submission that names a deactivated field is refused and changes nothing |
| OpenSurvey.SubmissionIsOwn | backend/src/services/open_survey_service.py:91-140 | one organization's submission never changes another's completion |
| CategorySurvey.CategorySurveyService.UpsertCategories | backend/src/services/category_survey_service.py:44-108 | a call is accepted exactly when no new name is declared twice, and then leaves the reconciled table and one review header, an existing one untouched; a refused call leaves nothing |
| CategorySurvey.AcceptedIff | backend/src/models/category.py:34-38 | the unique constraint holds of the reconciled table exactly when no name new to the pair is declared twice |
| CategorySurvey.DeclaredExactly | backend/src/services/category_survey_service.py:58-83 | an accepted call leaves exactly the declared names, each with the gender declared last |
| CategorySurvey.SurvivorsKeepIds | backend/src/services/category_survey_service.py:58-83 | surviving rows keep id and team size, rows of other pairs are untouched, and no other old row remains |
| CategorySurvey.NewRowsPlain | backend/src/services/category_survey_service.py:76-83 | new rows are of the pair, of names not there before, and without team size |
| CategorySurvey.ReconciledTwice | backend/src/services/category_survey_service.py:44-108 | declaring the same list again changes nothing |
| Base32.DecodeEncode | backend/src/services/mfa/totp.py:37-42 | a secret is read back from its unpadded base32 for bytes of any length, however it is spaced and whatever its case |
| Base32.DecodeStored | backend/src/services/mfa/totp.py:31-42 | a generated secret, as stored, decodes to the bytes drawn |
| Base32.StandardExample | backend/src/services/mfa/totp.py:31-34 | "fooba" encodes as in section 10 of RFC 4648 |
| Totp.TruncationInBounds | backend/src/services/mfa/totp.py:49-52 | the four bytes always lie inside the 20-byte digest, and the masked number is the sum of section 5.3 of RFC 4226 |
| Totp.SixDigits | backend/src/services/mfa/totp.py:45-52 | every code is exactly six digits that stand for the truncated digest modulo a million |
| Totp.CodeMeans | backend/src/services/mfa/totp.py:45-52 | the code of a counter is the six-digit form of the truncated HMAC, under the secret's bytes, of the counter as eight bytes |
| Totp.MessagesDiffer | backend/src/services/mfa/totp.py:47 | different counters give different eight-byte messages |
| Totp.Verify | backend/src/services/mfa/totp.py:61-72 | the loop finds what searching the counters of the window in order finds, errors included |
| Totp.AcceptedIff | backend/src/services/mfa/totp.py:61-72 | in range, a code is accepted exactly when it is the code of a counter of the window, and nothing is raised |
| Totp.SkewAccepted | backend/src/services/mfa/totp.py:55-72 | a code made within 30 seconds of the check is accepted |
| Totp.SkewRefused | backend/src/services/mfa/totp.py:55-72 | one made 60 seconds or more away is accepted exactly when another counter of the window has the same code |
| Totp.RaisesIffEarly | backend/src/services/mfa/totp.py:61-72 | checking digits raises exactly before second 30 of the epoch |
| Totp.TypedSecretSameCodes | backend/src/services/mfa/totp.py:37-52 | a secret typed back in another case or spacing makes the same codes |
| Mfa.VerifyAndConsume | backend/src/services/mfa/recovery.py:52-65 | the two loops return the hashes without the last match, or nothing without a match |
| Mfa.ConsumeTakesOne | backend/src/services/mfa/recovery.py:52-65 | a code is consumed exactly when its hash is there, and exactly one copy of it goes |
| Mfa.CodesConserved | backend/src/services/mfa/recovery.py:52-65 | over any run, what is left and what was accepted are together the hashes at the start |
| Mfa.AcceptedTimes | backend/src/services/mfa/recovery.py:52-65 | a hash is accepted as often as presented, up to the number of times it is stored |
| Mfa.EachCodeOnce | backend/src/services/mfa/recovery.py:1-7 | n codes allow at most n successes, and each once if the hashes differ |
| Mfa.NormalizeTyped | backend/src/services/mfa/recovery.py:28-38 | every spelling of a code that differs by dashes, spaces and case normalizes to its ten letters |
| Mfa.NormalizeShown | backend/src/services/mfa/recovery.py:22-31 | so do the code as shown and the same code without its dash |
| Mfa.BatchDistinctIff | backend/src/services/mfa/recovery.py:41-49 | the hashes of a batch differ exactly when the hash separates its codes |
| Mfa.MfaService.BeginTotpEnroll | backend/src/services/mfa/service.py:79-92 | a pending secret is set for this user unless enabled; other users are untouched |
| Mfa.MfaService.ActivateTotp | backend/src/services/mfa/service.py:94-108 | a pending secret and a current code enable the record with fresh codes; anything else changes nothing |
| Mfa.MfaService.RegenerateRecoveryCodes | backend/src/services/mfa/service.py:110-117 | an enabled record's codes are replaced |
| Mfa.MfaService.VerifyTotp | backend/src/services/mfa/service.py:120-124 | only an enabled record with a secret verifies |
| Mfa.MfaService.VerifyRecovery | backend/src/services/mfa/service.py:126-135 | a matching code is accepted and consumed in this user's record only |
| Mfa.MfaService.Disable | backend/src/services/mfa/service.py:138-154 | a current code or an unused recovery code leaves a blank record; anything else changes nothing |
| Mfa.NextKeepsInv | backend/src/services/mfa/service.py:79-154 | every step keeps: codes only on an enabled record, an enabled record has a secret, and codes left plus codes used are the codes generated |
| Mfa.UsedAtMostOnce | backend/src/services/mfa/service.py:126-135 | in every run at most ten codes are accepted between two generations, each once if their hashes differ |
| Mfa.RecoveryAcceptedIff | backend/src/services/mfa/service.py:126-135 | in every run a code is accepted exactly when it is of the last batch and not used up, and only from an enabled record although the code does not ask |
| Mfa.OnlyProofDisables | backend/src/services/mfa/service.py:138-154 | an enabled record is disabled, or its secret changed, exactly by disabling with a current code or an unused recovery code |
| Mfa.BegunIff | backend/src/services/mfa/service.py:79-92 | enrolment is begun, or begun anew, exactly while not enabled |
| Mfa.ActivatedIff | backend/src/services/mfa/service.py:94-108 | a pending secret is activated exactly by the code of one of the three periods around the time |
| Mfa.TotpAcceptedIff | backend/src/services/mfa/service.py:120-124 | a code verifies exactly for an enabled record with a secret and if it is the code of one of those periods |
| Mfa.EnrolmentActivates | backend/src/services/mfa/service.py:79-108 | beginning and then entering a code made within 30 seconds enables the record with ten codes |

## Left out

- AuthLockout.LockoutBound: counts failures over an account without success, from any point of the run; the equal-time dummy hash and the audit lines of a login are not modelled.
- Allocation.RunsKeepLimits: `update_team`, `UpdateParticipant.update` and edits of caps, quotas and rules are not steps, because no limit gates them; teams are bounded by the larger of category and sport maximum, because the two gates differ.
- BulkImport.RefusedOnlyByEarlierRows: for athlete requests whose files pass the access rule; the importer makes no other role.
- RetentionPurge.PurgedChainIntactIff: for appended rows that are too young for the run's own policies, which days of at least one and one clock give; and for unbroken hashes of the old rows; in a table without the append-only trigger, which would raise instead.
- RetentionPurge.PurgeExact: a column that a table does not have reads as null, where a policy naming one would raise in the database.
- RetentionPurge.PurgeAudited: an append whose hash is already stored, which only a broken hash produces, would abort the purge and is not modelled there.
- TokenPurge.PurgeInvisibleIff: one clock gives a record its creation and its expiry, where the database dates the first and the server the second.
- ApiClient.NeverReusesIff: a page load is a new tab; a page left with a refresh in flight is a second tab, or a lost message when its answer never arrives. What the expiry hint holds and what the server answers to other requests are parameters of the events.
- RateLimit.RedisStricter: for strictly increasing times per key, because equal scores of a sorted set are one member.
- Totp.Verify: codes are compared as strings of ASCII digits; other Unicode digits, on which the comparison raises, and the rounding of float times are not modelled.
- Base32.DecodeEncode: white space and upper case as in ASCII; Unicode case mapping is not modelled.
- Mfa.MfaService.Disable: WebAuthn credentials are not modelled, since adding one always raises; `is_active` is therefore `totp_enabled`.
- OpenSurvey.OpenSurveyService.GetOrgFillView: lines in table order; ordering by `sort_order`, labels, options and timestamps are not modelled.
- OpenSurvey.OpenSurveyService.UpsertResponses: returns the number of answers in place of the refreshed rows; one call is one step.
- CategorySurvey.CategorySurveyService.UpsertCategories: rows whose event or sport was set to null by a deletion, and the foreign keys of participations that are nulled with a deleted category, are not modelled.
- Base64.DecodeEncode: the decoder skips foreign characters as Python does; the error texts are not modelled.
- SHA-256, HMAC, bcrypt and JWT signatures are arbitrary functions; the AWS key service and the derivation of the local key are not modelled.
- Concurrent calls of services that take no lock (registration, refresh, surveys) are atomic steps.
- The append-only trigger on the audit table, and the foreign key that sets a hashed `actor_user_id` to null when the user is deleted, are not modelled.
- Workbook parsing and cell cleaning of the importer: a row is a request or a parse failure.
- Records of minor consent, file storage and the access rule for files beyond one yes or no.
- Foreign-key violations on unknown ids, and integer widths of the database.
- OIDC login, WebAuthn, provisioning URIs, notifications, SIEM shipping and search indexing.
- Review transitions, phase flags, the policy engine, schema validators and formatters: small case tables.
- HTTP routes, cookies' attributes and response headers of the limiter other than the counts.
- Subject erasure is another caller of the audit append.
- `finalize_team` compares the member count with the sport's minimum and changes nothing.
