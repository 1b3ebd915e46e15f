# WorkPass credential passport — a verified model

WorkPass lets construction workers register, prove their email or phone with a one-time
code, upload credentials such as a white card or first-aid certificate, and see a dashboard
with a work-readiness score. This project models the decision-making core of that system
in Dafny and proves what it promises:

- **The store** (`DatabaseStorage`). There is one sequence of rows per table (users,
  profiles, credentials, jobs, job applications, activity, one-time codes), plus serial
  counters. Its invariant: primary keys are unique, and every serial id lies below its
  counter. Each method changes only the fields it names. `user_id` and `job_id` foreign
  keys are checked: an insert that breaks one fails and leaves the table as it was.
- **The one-time-code ledger**. Codes are issued, verified once, and purged. A verify
  consumes exactly the first matching row. A second identical verify fails unless another
  matching row exists. A purge keeps exactly the rows that expire after the clock.
- **The credential table**. The listing shows active rows, newest first. The expiring list
  is a window of days, soonest first. An update patches exactly the row with that id. A
  delete is a soft delete of the caller's own row.
- **The work-readiness score**. It is 30 per required type (white card, first aid) held
  validly, plus 10 per valid bonus credential with a cap of 40. It is bounded by 100,
  a multiple of ten, unaffected by order, and monotone.
- **The dashboard read**. It fails for an unknown user. Otherwise it is the five reads
  with their constants: a 60-day window and 10 activity entries. The score is taken over
  the full active listing.
- **The route handlers**. These are send-otp, verify-otp, job application, profile, and
  credential upload / update / delete. Each keeps the route's order: validate, read,
  branch, write, log. Each reply's status and message are as sent. The multer upload
  filter is also modelled: the lowercased `path.extname` against four extensions, with a
  10 MB limit.
- **The table shapes**. These are records with their defaults, the insert schemas, and
  round trips through them.
- **Four client components**:
  - the six-box code input, a class over an array of boxes;
  - the upload box's client-side filter and file list;
  - the registration step machine, with a proof that the step only moves forward;
  - the readiness meter's colours and labels.

Three consequences of the code, proved as lemmas, are worth knowing:

- Verification accepts `expiresAt >= now` and the purge deletes `expiresAt <= now`. A code
  at exactly its expiry instant is therefore both verifiable and purgeable
  (`OtpLedger.ExpiryBoundary`).
- The upload route stores the client-supplied `verificationStatus` as sent
  (`Routes.UploadKeepsClaimedStatus`). A single self-declared "verified" white card
  therefore adds 30 to the score (`Routes.SelfClaimedVerificationCounts`).
- The client derives the extension differently from the server: `'.'` plus the text after
  the last dot, or the whole name when there is no dot. For names such as `pdf` the two
  disagree (`FileUpload.BareNameDisagreement`). When the name has a dot after its first
  character they agree exactly (`FileUpload.ClientCheckMatchesServer`).

Time arrives as a parameter:

- Timestamps are integer milliseconds (`now`), and date columns are day numbers.
- `Math.random()` is a parameter in [0, 1).
- The authenticated caller's id, multer's generated file name, and the e-mail check of the
  validation library are parameters too.

## Model

| member | source | states |
|---|---|---|
| Schema.NewUser | server/storage.ts:82-87 | An inserted user carries every given field under its id, with both stamps at the insert time. |
| Schema.UpsertedUser | server/storage.ts:88-94 | On a conflicting id every given field replaces the stored one, every absent field and `createdAt` keep the stored value, and `updatedAt` is the update time. |
| Schema.NewUserDefaults | shared/schema.ts:30-43 | A new user is unverified on both channels, scores 0, and is stamped with the insert time. |
| Schema.UserProfileInsertRoundTrip | shared/schema.ts:179-185 | The profile insert schema omits exactly the id and timestamps: re-inserting a row's insert shape with its id and time rebuilds it. |
| Schema.UserProfileDefaults | shared/schema.ts:53 | A profile without an availability status gets "available". |
| Schema.CredentialInsertRoundTrip | shared/schema.ts:187-193 | The credential insert schema omits exactly the id and timestamps. |
| Schema.CredentialDefaults | shared/schema.ts:76-78 | A new credential is "pending" and active unless the insert says otherwise. |
| Schema.PatchKeepsIdentity | server/storage.ts:140-147 | A typed `Partial<InsertCredential>` update never changes a credential's id or creation time and stamps `updatedAt`. |
| Schema.JobInsertRoundTrip | shared/schema.ts:195-201 | The job insert schema omits exactly the id and timestamps. |
| Schema.JobApplicationInsertRoundTrip | shared/schema.ts:203-209 | The application insert schema omits exactly the id, `appliedAt` and `updatedAt`. |
| Schema.JobApplicationDefaults | shared/schema.ts:105-106 | A new application is "pending" and keeps the optional match score as given. |
| Schema.UserActivityInsertRoundTrip | shared/schema.ts:211-216 | The activity insert schema omits exactly the id and creation time. |
| Schema.OtpVerificationInsertRoundTrip | shared/schema.ts:218-223 | The one-time-code insert schema omits exactly the id and creation time. |
| Schema.OtpVerificationDefaults | shared/schema.ts:128 | A new code is unused. |
| Scoring.HasValid | server/storage.ts:345-350 | True iff some credential of the type is verified and has no expiry or one strictly after now. |
| Scoring.WorkReadinessScore | server/storage.ts:335-364 | The score lies in [0, 100], is a multiple of 10, and is 0 for an empty list. |
| Scoring.ScoreBreakdown | server/storage.ts:338-363 | A non-empty list scores 30 per validly held required type plus min(10 × valid bonus credentials, 40); the cap of 100 never binds. |
| Scoring.HasValidAppend | server/storage.ts:346-350 | A valid credential of a type is held in a concatenation iff it is held in either part. |
| Scoring.BonusCountAppend | server/storage.ts:355-359 | The valid bonus count of a concatenation is the sum of the parts' counts. |
| Scoring.ScoreOrderIrrelevant | server/storage.ts:335-364 | Two lists holding the same credentials in any order (equal multisets) get the same score. |
| Scoring.HasValidSameElements | server/storage.ts:345-350 | Whether a required type is held validly depends only on which credentials the list holds. |
| Scoring.ScoreSwapParts | server/storage.ts:335-364 | Swapping two parts of the list leaves the score unchanged. |
| Scoring.ScoreMonotone | server/storage.ts:335-364 | Adding a credential never lowers the score. |
| Scoring.NoContributionAddsNothing | server/storage.ts:345-361 | An unverified or expired credential, one of another type, or a further copy of a required type leaves the score unchanged. |
| Scoring.BonusCapped | server/storage.ts:361 | Four or more valid bonus credentials give exactly the 40-point cap. |
| Scoring.RequiredFloor | server/storage.ts:345-352 | A valid white card and a valid first-aid certificate guarantee at least 60. |
| Scoring.ExampleScore | server/storage.ts:335-364 | A verified white card, first aid and licence without expiry score 70. |
| OtpLedger.MarkUsed | server/storage.ts:277-280 | Setting `isUsed` by id keeps the table's length. |
| OtpLedger.Verify | server/storage.ts:262-284 | The answer is true iff some row has the same identifier, code and type, is unused and has `expiresAt >= now`; on false the table is unchanged. |
| OtpLedger.VerifyConsumesOne | server/storage.ts:262-284 | With unique ids, a successful verify marks exactly the first matching row used and changes nothing else. |
| OtpLedger.SecondVerify | server/storage.ts:262-284 | A repeated identical verify succeeds iff another unused matching row remains. |
| OtpLedger.SingleUse | server/storage.ts:262-284 | With a single matching row, the first verify succeeds and the second fails. |
| OtpLedger.IssueThenVerify | server/storage.ts:254-284 | A code issued at `t` with the ten-minute expiry verifies at any `now <= t + 600000`. |
| OtpLedger.IssueKeepsEarlierCodes | server/storage.ts:254-260 | Issuing a new code never invalidates an earlier outstanding one. |
| OtpLedger.Cleanup | server/storage.ts:286-290 | The purge keeps exactly the rows with `expiresAt > now`, each as often as before. |
| OtpLedger.CleanupKeepsOrder | server/storage.ts:286-290 | The kept rows keep their relative order. |
| OtpLedger.CleanupIdempotent | server/storage.ts:286-290 | A second purge with the same clock changes nothing. |
| OtpLedger.VerifyByMembership | server/storage.ts:263-276 | Verify succeeds iff some row of the table matches. |
| OtpLedger.CleanupThenLaterVerify | server/storage.ts:262-290 | A purge at `t` never changes the answer of a verify made strictly later. |
| OtpLedger.ExpiryBoundary | server/storage.ts:272 | A row expiring exactly at `now` still verifies, but the purge at `now` removes it, after which it does not. |
| CredentialTable.UserCredentials | server/storage.ts:124-130 | Exactly the caller's active rows, each as often as stored, ordered by creation time descending. |
| CredentialTable.ExpiringCredentials | server/storage.ts:157-172 | Exactly the caller's active rows with an expiry date on or before today plus `days`, already expired ones included, ordered by expiry ascending. |
| CredentialTable.ExpiringAreListed | server/storage.ts:124-172 | Every expiring credential is also in the caller's listing. |
| CredentialTable.CreatedIsListed | server/storage.ts:132-138 | A new credential that is active by default is listed for its owner. |
| CredentialTable.PatchRows | server/storage.ts:140-147 | The update patches the rows with the id and keeps the table's length. |
| CredentialTable.UpdateCredential | server/storage.ts:140-147 | No row is returned iff no row has the id, in which case the table is unchanged; a returned row has the id and the new `updatedAt`. |
| CredentialTable.UpdateChangesOnlyThatRow | server/storage.ts:140-147 | With unique ids, an update replaces exactly the row with that id by its patched form. |
| CredentialTable.DeactivateRows | server/storage.ts:149-155 | The soft delete keeps every row. |
| CredentialTable.DeleteCredential | server/storage.ts:149-155 | The answer is true iff some row has both the id and the caller's user id; no row is removed. |
| CredentialTable.DeleteNotOwnedUnchanged | server/storage.ts:149-155 | A delete matching no row (wrong id or another owner) leaves the table unchanged. |
| CredentialTable.DeleteOnlyDeactivates | server/storage.ts:149-155 | Every row keeps its position, id, owner and content; a row with the id and the owner becomes inactive with `updatedAt` = now, and every other row is unchanged. |
| CredentialTable.DeletedIsNotListed | server/storage.ts:124-155 | After a delete the credential is no longer in its owner's listing. |
| CredentialTable.DeleteRepeatSucceeds | server/storage.ts:149-155 | Because `isActive` is not in the WHERE clause, repeating a successful delete succeeds again. |
| CredentialTable.DeleteKeepsOtherListings | server/storage.ts:124-155 | Other users' listings are untouched by a delete. |
| Queries.GetUser | server/storage.ts:77-80 | No user iff no row has the id; otherwise a stored row with that id. |
| Queries.UpsertUser | server/storage.ts:82-95 | The returned user is stored with the given id and carries every given field, stamped now; a new id appends a fresh `NewUser` row; an existing id replaces its first row in place, keeping the absent fields and `createdAt`; every other stored user is kept and no other user appears; unique ids stay unique. |
| Queries.GetUserProfile | server/storage.ts:98-104 | No profile iff the user has none; otherwise one of the user's stored profiles. |
| Queries.UpdateUserProfile | server/storage.ts:114-121 | No row iff the user has no profile, in which case the table is unchanged; a returned row is stored, carries the update's user id and the new `updatedAt`. |
| Queries.UpdateUserProfileScope | server/storage.ts:114-121 | Ids and creation times are kept, other users' rows are untouched, and a matched row takes the update's fields. |
| Queries.GetJobApplication | server/storage.ts:227-233 | No application iff none exists for the (user, job) pair; otherwise a stored one for that pair. |
| Queries.GuardedInsertKeepsPairsUnique | server/routes.ts:229-236 | Inserting only when the pair has no application keeps at most one application per pair. |
| Queries.PairWith | server/storage.ts:201-217 | One row per given job, in order: row i pairs the application with job i, so each pair appears as often as its job. |
| Queries.JoinJobs | server/storage.ts:201-217 | The inner join lists each pair whose job id matches the application's as often as the application's copies times the job's copies, and no other pair. |
| Queries.UserJoinCount | server/storage.ts:201-217 | Joining only the caller's applications counts each of the caller's pairs as the full join does and lists no other user's pair. |
| Queries.JoinCountAtMostOne | server/storage.ts:201-217 | With unique application ids and unique job ids the inner join lists a pair at most once. |
| Queries.UserJobApplicationsNoRepeats | server/storage.ts:201-217 | With unique ids on both tables no two positions of the caller's list hold the same pair. |
| Queries.UserJobApplications | server/storage.ts:201-217 | The caller's applications paired with their jobs, each pair as often as the inner join lists it and no pair of another user, newest application first. |
| Queries.ActivityHistory | server/storage.ts:236-243 | Exactly the user's entries, each as often as stored, newest first. |
| Queries.UserActivityFeed | server/storage.ts:236-243 | The first min(`limit`, count) entries of the user's newest-first history: exactly the most recent ones, all of them when fewer. |
| Queries.FeedIsMostRecent | server/storage.ts:236-243 | An entry of the user left out of the feed is no newer than any entry in it. |
| Storage.DatabaseStorage.constructor | server/storage.ts:75 | Empty tables with serial counters at 1 satisfy the key invariant. |
| Storage.DatabaseStorage.UpsertUser | server/storage.ts:82-95 | The users table becomes the upsert's result; the user is then found by id. |
| Storage.DatabaseStorage.CreateUserProfile | server/storage.ts:106-112 | A profile for a missing user fails and changes no row; otherwise the new profile is appended with the next id. |
| Storage.DatabaseStorage.UpdateUserProfile | server/storage.ts:114-121 | The table becomes the update's result, unless a matched row would move to a missing user, in which case the call fails and changes nothing. |
| Storage.DatabaseStorage.CreateCredential | server/storage.ts:132-138 | A credential for a missing user fails; otherwise the new row is appended with the next id and the defaults. |
| Storage.DatabaseStorage.UpdateCredential | server/storage.ts:140-147 | Not found iff no row has the id; otherwise exactly that row is patched, or the call fails if the patch names a missing user. |
| Storage.DatabaseStorage.DeleteCredential | server/storage.ts:149-155 | The answer and the new table are the soft delete's; the table keeps its length and is unchanged on false. |
| Storage.DatabaseStorage.CreateJob | server/storage.ts:192-198 | The new job is appended with the next id. |
| Storage.DatabaseStorage.CreateJobApplication | server/storage.ts:219-225 | An application naming a missing user or job fails; otherwise it is appended with the next id and the defaults. |
| Storage.DatabaseStorage.LogActivity | server/storage.ts:245-251 | An entry for a missing user fails; otherwise it is appended with the next id. |
| Storage.DatabaseStorage.CreateOtpVerification | server/storage.ts:254-260 | The new code row is appended with the next id and `isUsed` false by default. |
| Storage.DatabaseStorage.VerifyOtp | server/storage.ts:262-284 | True iff some row matches; then exactly one matching row becomes used; on false the table is unchanged. |
| Storage.DatabaseStorage.CleanupExpiredOtps | server/storage.ts:286-290 | Exactly the rows with `expiresAt > now` remain. |
| Storage.DatabaseStorage.GetUserDashboardData | server/storage.ts:293-333 | Fails with "User not found" iff the user is absent; otherwise the profile, the active listing, the 60-day expiring list, at most 10 activity entries, the applications with jobs, and the score of the full listing. |
| UploadFilter.ExtName | server/routes.ts:19 | The extension is a proper suffix of the name that starts with its last dot and has a non-empty stem; dotfiles and dotless names have none. |
| UploadFilter.ExtNameOfSplit | server/routes.ts:19 | A non-empty stem followed by a dot and a dot-free tail has exactly that tail as extension. |
| UploadFilter.AllowedShape | server/routes.ts:18 | Every allowed extension is a dot followed by a dot-free tail. |
| UploadFilter.FileFilterAcceptsIff | server/routes.ts:17-26 | A name is accepted iff it ends, ignoring letter case, in an allowed extension with something before it. |
| UploadFilter.Upload | server/routes.ts:12-27 | The filter runs first; a file that passes is kept iff it has at most 10 × 1024 × 1024 bytes. |
| UploadFilter.FilterIgnoresCase | server/routes.ts:19-21 | `Licence.PDF` is accepted. |
| UploadFilter.FilterLooksAtLastDot | server/routes.ts:19-21 | `scan.pdf.exe` is refused. |
| UploadFilter.FilterRefusesBareNames | server/routes.ts:19-21 | `.pdf` and `pdf` are refused. |
| OtpCode.GenerateCode | server/routes.ts:290 | The drawn code lies in 100000..999999. |
| OtpCode.EveryCodeReachable | server/routes.ts:290 | Every code in 100000..999999 is drawn by some random number in [0, 1). |
| OtpCode.DecimalString | server/routes.ts:290 | `toString()` gives at least one decimal digit. |
| OtpCode.DecimalRoundTrip | server/routes.ts:290 | Reading the digits back gives the number, so distinct codes have distinct strings. |
| OtpCode.DecimalLength | server/routes.ts:290 | A number of `k` digits renders as `k` characters. |
| OtpCode.CodeStringIsSixDigits | server/routes.ts:290 | The stored code is six decimal digits. |
| Routes.OtpRequest | server/routes.ts:290-298 | The stored row has a six-digit code and expires 600000 ms after the send. |
| Routes.SendOtp | server/routes.ts:281-309 | A falsy identifier or type gives 400 and stores nothing; otherwise exactly one code row is appended and the reply is 200. |
| Routes.SentCodeLifetime | server/routes.ts:290-298 | A code sent at `t` is accepted at `now` iff `now <= t + 600000`. |
| Routes.VerifyOtpRoute | server/routes.ts:311-330 | A missing field gives 400 with no change; otherwise the ledger's verify runs and gives 200 on success, 400 "Invalid or expired OTP" on failure. |
| Routes.PostJobApplication | server/routes.ts:223-253 | A body without `jobId` gives 400; a repeat application gives 400 with no insert and no log; otherwise one insert, then one `apply_job` entry; at most one application per pair is kept. |
| Routes.PostProfile | server/routes.ts:57-87 | An existing profile is updated and `update_profile` logged; otherwise one is created and `create_profile` logged; a missing user gives 500 with no change. |
| Routes.CredentialData | server/routes.ts:109-115 | Parsing fails iff a required text field is missing; otherwise the row carries the caller, `/uploads/` plus the stored name, and the original name and size. |
| Routes.PostCredential | server/routes.ts:101-136 | A refused file gives the error page; no file gives 400; invalid data gives 400; otherwise one credential and one `upload_credential` entry are appended; no other reply changes the store. |
| Routes.UploadKeepsClaimedStatus | server/routes.ts:109-115 | The stored verification status is the one the client sent, "pending" only when absent. |
| Routes.SelfClaimedVerificationCounts | server/routes.ts:109-117 | An upload claiming a verified white card without expiry scores 30 on its own. |
| Routes.PutCredential | server/routes.ts:138-155 | No ownership check: any existing id is patched and returned with 200; an unknown id gives 404 with no change. |
| Routes.DeleteCredentialRoute | server/routes.ts:157-181 | When nothing matched, 404 with no log and no change; otherwise the soft delete, then one `delete_credential` entry and 200. |
| OtpInput.KeepLast | client/src/components/OTPInput.tsx:30-32 | Multi-character input keeps only its last character. |
| OtpInput.Completion | client/src/components/OTPInput.tsx:21-26 | `onComplete` gets the joined code iff every box is filled and the code is `length` long. |
| OtpInput.JoinFilled | client/src/components/OTPInput.tsx:23-24 | Joining one-character boxes gives their characters in order. |
| OtpInput.JoinBound | client/src/components/OTPInput.tsx:23 | Joining boxes of at most one character is no longer than the box count, and shorter when one is empty. |
| OtpInput.CompleteIffFilled | client/src/components/OTPInput.tsx:23 | With well-formed boxes the code is complete iff every box is filled, and it is then all digits. |
| OtpInput.PasteResult | client/src/components/OTPInput.tsx:78-85 | A paste keeps the buffer's length. |
| OtpInput.FirstEmpty | client/src/components/OTPInput.tsx:90 | The first empty box, or -1 iff none is empty. |
| OtpInput.FullPasteCompletes | client/src/components/OTPInput.tsx:78-87 | A digit paste at least as long as the buffer fills it and completes it with the pasted prefix. |
| OtpInput.OtpBuffer.constructor | client/src/components/OTPInput.tsx:11-19 | `length` empty boxes, the first focused. |
| OtpInput.OtpBuffer.Focus | client/src/components/OTPInput.tsx:45 | Only an existing box takes the focus. |
| OtpInput.OtpBuffer.HandleChange | client/src/components/OTPInput.tsx:28-47 | A non-digit changes nothing; otherwise only box `index` changes, focus moves on after a digit, and completion is re-checked. |
| OtpInput.OtpBuffer.HandleKeyDown | client/src/components/OTPInput.tsx:49-67 | Backspace on an empty box past the first clears the previous box and focuses it; the arrows move the focus within bounds; nothing else changes. |
| OtpInput.OtpBuffer.HandlePaste | client/src/components/OTPInput.tsx:69-93 | A non-digit or empty paste changes nothing; otherwise the leading boxes take the digits, the rest keep theirs, and focus goes to the first empty box or the last. |
| FileUpload.LastSegment | client/src/components/FileUpload.tsx:57 | A dot-free suffix of the name, the whole name when it has no dot. |
| FileUpload.FileExtension | client/src/components/FileUpload.tsx:57 | A dot followed by the lowercased last segment. |
| FileUpload.ValidFiles | client/src/components/FileUpload.tsx:56-72 | Exactly the given files that pass the type and size test, each as often as it was given, in their original order. |
| FileUpload.RemoveAt | client/src/components/FileUpload.tsx:110-112 | One element fewer when the index names one; otherwise the same length. |
| FileUpload.RemoveAtSplices | client/src/components/FileUpload.tsx:110-112 | Removing index `i` leaves the elements before and after it in order; an index naming no element changes nothing. |
| FileUpload.ClientExtensionAgreesWithServer | client/src/components/FileUpload.tsx:57-58 | For a name with a dot after its first character, the client's type test and the server filter agree on the default extensions. |
| FileUpload.ClientCheckMatchesServer | client/src/components/FileUpload.tsx:56-72 | For such names and the default props, the client keeps a file iff the server stores it. |
| FileUpload.BareNameDisagreement | client/src/components/FileUpload.tsx:57 | `pdf` passes the client but not the server. |
| FileUpload.Uploader.constructor | client/src/components/FileUpload.tsx:13-21 | The list starts empty. |
| FileUpload.Uploader.HandleFiles | client/src/components/FileUpload.tsx:55-79 | With at least one valid file, the valid files are appended and handed to `onUpload`; otherwise nothing changes and `onUpload` is not called. |
| FileUpload.Uploader.RemoveFile | client/src/components/FileUpload.tsx:110-112 | The list loses exactly element `index` and keeps the rest in order. |
| ReadinessMeter.ScoreColor | client/src/components/WorkReadinessMeter.tsx:22-27 | Green iff ≥ 90, blue iff in [75, 90), yellow iff in [60, 75), red iff below 60. |
| ReadinessMeter.ScoreLabel | client/src/components/WorkReadinessMeter.tsx:29-34 | "Excellent" iff ≥ 90, "Good" iff in [75, 90), "Fair" iff in [60, 75), "Needs Work" iff below 60. |
| ReadinessMeter.LabelAndColorAgree | client/src/components/WorkReadinessMeter.tsx:22-34 | Two scores share a label iff they share a colour. |
| ReadinessMeter.LabelMonotone | client/src/components/WorkReadinessMeter.tsx:29-34 | A higher score never shows a worse label. |
| Registration.ChannelType | client/src/pages/registration.tsx:53 | The type sent is "email" for the email channel and "sms" for the SMS channel. |
| Registration.OtpIdentifier | client/src/pages/registration.tsx:118-119 | The email for the email channel, the phone otherwise. |
| Registration.StepForward | client/src/pages/registration.tsx:107-143 | A rendered control keeps the step in 1..4 and never lowers it; the step changes only by a valid submit, a verified code or the documents step. |
| Registration.RunMovesForward | client/src/pages/registration.tsx:51-143 | Along any sequence of user actions the step stays in range and never decreases. |
| Registration.LeavingStepOneNeedsValidForm | client/src/pages/registration.tsx:107-115 | Leaving step 1 takes a submit of a form that passes validation. |
| Registration.DocumentsNeedVerification | client/src/pages/registration.tsx:91-92 | Reaching the documents step from an earlier one takes a verified code. |
| Registration.ProgressQuarters | client/src/pages/registration.tsx:145 | The progress is 25 × step: 25, 50, 75 or 100. |
| Registration.StepMarker | client/src/pages/registration.tsx:178 | A step shows a check mark iff the current step is past it. |
| Registration.RegistrationFlow.constructor | client/src/pages/registration.tsx:51-53 | Step 1, no code sent, email channel. |
| Registration.RegistrationFlow.HandleNextStep | client/src/pages/registration.tsx:107-115 | On step 1 a valid form moves to step 2; otherwise nothing changes. |
| Registration.RegistrationFlow.SelectMethod | client/src/pages/registration.tsx:341-355 | The channel becomes the chosen one. |
| Registration.RegistrationFlow.SendOtpRequest | client/src/pages/registration.tsx:117-125 | The request names the channel's identifier and type. |
| Registration.RegistrationFlow.VerifyOtpRequest | client/src/pages/registration.tsx:127-136 | The request names the same identifier and type as the send, with the entered code. |
| Registration.RegistrationFlow.OnSendOtpSuccess | client/src/pages/registration.tsx:71-72 | A successful send sets `otpSent`. |
| Registration.RegistrationFlow.ChangeVerificationMethod | client/src/pages/registration.tsx:395 | "Change Verification Method" clears `otpSent`. |
| Registration.RegistrationFlow.OnVerifyOtpSuccess | client/src/pages/registration.tsx:91-92 | A successful verify moves to step 3. |
| Registration.RegistrationFlow.HandleDocumentUpload | client/src/pages/registration.tsx:138-143 | An upload or a skip moves to step 4. |

## Left out

- Postgres, Drizzle, Express and multer are foreign libraries. Tables are in-memory sequences, queries are functions over them, and routes return a status and a body instead of writing a response.
- The unique constraint on `users.email` is not modelled; only primary keys and the `user_id` and `job_id` foreign keys are.
- Rows that a query returns without ORDER BY (the first row of a select, the row returned by an update) are taken in table order. The database promises no order.
- Serial values are drawn even by an insert that fails its foreign key, as Postgres sequences are not rolled back; the exact numbers are otherwise an implementation choice.
- `Date.now()`, `new Date()` and `Math.random()` are parameters. Date strings, `toISOString().split('T')[0]` and time zones are reduced to integer days and milliseconds.
- `Math.floor(100000 + Math.random() * 900000)` is computed over exact reals; floating-point rounding is not modelled.
- `path.extname` is modelled for names without a directory part.
- `toLowerCase` is modelled for ASCII letters only; other characters are left as they are. No non-ASCII character lowercases to a character of the four allowed extensions, so the extension tests are unaffected.
- A non-numeric `:id` (`parseInt` giving `NaN`) is not modelled; the id is an integer.
- The validation library's type errors are not modelled: only a missing required field fails a parse. The e-mail format check is a parameter.
- Exceptions other than foreign-key failures are not modelled, and neither are the routes' 500 replies for them. A multer error reaches Express's default error handler, which is modelled as a 500 error page.
- The authentication middleware is not modelled: the caller's id is a parameter.
- The hourly `setInterval` purge, `Promise.all` in the dashboard read, and the race between the duplicate-application check and the insert are timers and concurrency. The model is sequential.
- `console.log` of the code, `res.json` transport, static serving of `/uploads` and the toasts are I/O.
- Routes.PutCredential: the route passes the untyped JSON body to `.set`, so a body with an `id` key rewrites the primary key and a JSON `null` clears a nullable column. The model's patch is the declared `Partial<InsertCredential>`: it has no `id` or `createdAt` field, and an absent field (`None`) means "keep". Updates that change a row's id or set a column to null are not modelled.
- Routes.PostProfile: a JSON `null` for a nullable profile column passes the insert schema and would clear that column on update; the model's profile patch cannot set a column to null, only keep or replace it.
- OtpInput.Completion: the completion effect depends on `onComplete`, and the registration page passes a new closure on every render. While all boxes are full, every re-render therefore calls `onComplete` again and repeats the verify request with the same code, which fails once the code is used. The model checks completion once per box update (`HandleChange`, `HandlePaste`); re-renders are not modelled.
- The read-only routes (`GET` of user, profile, credentials, jobs, job applications, dashboard, activity) and `getJobs`/`getJob` only forward a storage read.
- `FileUpload`'s `simulateUpload` (random progress on intervals), `formatFileSize` (`Math.log`), the drag highlighting, and the stale handler captured by `useCallback` are left out. The props are constant, so that capture does not change the outcome.
- The readiness meter's SVG arc geometry (`Math.PI`) and its delayed animation are left out.
- The code input's `disabled` prop and the `isPending` flags of the mutations only disable controls; they are not modelled.
- The landing, marketing, dashboard and home pages are presentation only.
- Which controls the registration page renders in each state is stated as a predicate over events (`Enabled`), from the page's conditional markup. The handlers themselves (`RegistrationFlow`) do what they do whenever they are called, as written.
