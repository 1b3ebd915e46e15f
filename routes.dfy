/** The handler logic of the API routes: each handler validates its input, reads the
    store, branches, writes, and logs, in the order the route does.  The authenticated
    caller's id, the clock, `Math.random` and multer's generated file name are parameters;
    an HTTP reply is a status code with a message or a body. */
module Routes {
  import opened Wrappers
  import opened Schema
  import opened Seqs
  import opened Text
  import opened OtpLedger
  import opened CredentialTable
  import opened Queries
  import opened Storage
  import opened UploadFilter
  import opened OtpCode
  import opened Scoring

  datatype Body =
    | Message(text: string)
    | ProfileBody(profile: Option<UserProfile>)
    | CredentialBody(credential: Credential)
    | ApplicationBody(application: JobApplication)
    /** Express's default error handler, reached when a middleware fails before the route. */
    | ErrorPage(error: string)

  datatype Reply = Reply(status: int, body: Body)

  /** `!x` of a request field: absent or the empty string. */
  predicate Falsy(x: Option<string>)
  {
    x.None? || x.value == ""
  }

  // -------------------------------------------------------------- send-otp

  /** The row `/api/send-otp` stores for a code drawn with `random` at `now`. */
  function OtpRequest(identifier: string, kind: string, random: real, now: int): (o: InsertOtpVerification)
    requires 0.0 <= random < 1.0
    ensures |o.code| == 6 && AllDigits(o.code)
    ensures o.expiresAt == now + 600000 && o.isUsed.None?
  {
    CodeStringIsSixDigits(random);
    InsertOtpVerification(identifier, DecimalString(GenerateCode(random)), kind, ExpiresAt(now), None)
  }

  /** `POST /api/send-otp`. */
  method SendOtp(store: DatabaseStorage, identifier: Option<string>, kind: Option<string>, random: real, now: int)
    returns (reply: Reply)
    requires store.Valid() && 0.0 <= random < 1.0
    modifies store`otpVerifications, store`nextOtpId
    ensures store.Valid()
    ensures Falsy(identifier) || Falsy(kind) ==>
              reply == Reply(400, Message("Identifier and type are required"))
              && store.otpVerifications == old(store.otpVerifications) && store.nextOtpId == old(store.nextOtpId)
    ensures !Falsy(identifier) && !Falsy(kind) ==>
              reply == Reply(200, Message("OTP sent successfully"))
              && store.otpVerifications == old(store.otpVerifications)
                   + [NewOtpVerification(OtpRequest(identifier.value, kind.value, random, now), old(store.nextOtpId), now)]
  {
    if Falsy(identifier) || Falsy(kind) {
      return Reply(400, Message("Identifier and type are required"));
    }
    var _ := store.CreateOtpVerification(OtpRequest(identifier.value, kind.value, random, now), now);
    reply := Reply(200, Message("OTP sent successfully"));
  }

  /** A code sent at `t` verifies at any `now` up to ten minutes later, and not after. */
  lemma SentCodeLifetime(rows: seq<OtpVerification>, identifier: string, kind: string, random: real,
                         id: nat, t: int, now: int)
    requires 0.0 <= random < 1.0
    requires forall i :: 0 <= i < |rows| ==> rows[i].identifier != identifier
    ensures var o := OtpRequest(identifier, kind, random, t);
      Verify(Issue(rows, o, id, t), Attempt(identifier, o.code, kind, now)).0 <==> now <= t + 10 * 60 * 1000
  {
    var o := OtpRequest(identifier, kind, random, t);
    var issued := Issue(rows, o, id, t);
    var a := Attempt(identifier, o.code, kind, now);
    if now <= t + CodeLifetimeMs {
      IssueThenVerify(rows, identifier, o.code, kind, id, t, now);
    } else {
      assert forall i :: 0 <= i < |issued| ==> !Matches(issued[i], a) by {
        forall i | 0 <= i < |issued| ensures !Matches(issued[i], a) {
          if i < |rows| { assert issued[i] == rows[i]; }
        }
      }
    }
  }

  // ------------------------------------------------------------ verify-otp

  /** `POST /api/verify-otp`. */
  method VerifyOtpRoute(store: DatabaseStorage, identifier: Option<string>, code: Option<string>,
                        kind: Option<string>, now: int) returns (reply: Reply)
    requires store.Valid()
    modifies store`otpVerifications
    ensures store.Valid()
    ensures Falsy(identifier) || Falsy(code) || Falsy(kind) ==>
              reply == Reply(400, Message("Identifier, code, and type are required"))
              && store.otpVerifications == old(store.otpVerifications)
    ensures !Falsy(identifier) && !Falsy(code) && !Falsy(kind) ==>
              var v := Verify(old(store.otpVerifications), Attempt(identifier.value, code.value, kind.value, now));
              store.otpVerifications == v.1
              && reply == if v.0 then Reply(200, Message("OTP verified successfully"))
                          else Reply(400, Message("Invalid or expired OTP"))
  {
    if Falsy(identifier) || Falsy(code) || Falsy(kind) {
      return Reply(400, Message("Identifier, code, and type are required"));
    }
    var ok := store.VerifyOtp(identifier.value, code.value, kind.value, now);
    if !ok {
      return Reply(400, Message("Invalid or expired OTP"));
    }
    reply := Reply(200, Message("OTP verified successfully"));
  }

  // ------------------------------------------------------ job-applications

  /** The request body of `POST /api/job-applications` (before `userId` is added). */
  datatype ApplicationForm = ApplicationForm(jobId: Option<int>, status: Option<string>, matchScore: Option<int>)

  function ApplyJobEntry(userId: string, jobId: int, applicationId: int): InsertUserActivity
  {
    InsertUserActivity(userId, "apply_job", Some("Applied to job"),
                       Some(JObject([("jobId", JNumber(jobId)), ("applicationId", JNumber(applicationId))])))
  }

  /** `POST /api/job-applications`: reject a repeat application, else insert, then log. */
  method PostJobApplication(store: DatabaseStorage, userId: string, form: ApplicationForm, now: int)
    returns (reply: Reply)
    requires store.Valid()
    modifies store`jobApplications, store`nextApplicationId, store`userActivity, store`nextActivityId
    ensures store.Valid()
    ensures OneApplicationPerPair(old(store.jobApplications)) ==> OneApplicationPerPair(store.jobApplications)
    ensures form.jobId.None? ==>
              reply == Reply(400, Message("Invalid application data"))
              && store.jobApplications == old(store.jobApplications) && store.userActivity == old(store.userActivity)
    ensures form.jobId.Some? && GetJobApplication(old(store.jobApplications), userId, form.jobId.value).Some? ==>
              reply == Reply(400, Message("Already applied to this job"))
              && store.jobApplications == old(store.jobApplications) && store.userActivity == old(store.userActivity)
    ensures form.jobId.Some? && GetJobApplication(old(store.jobApplications), userId, form.jobId.value).None?
            && !(HasUser(store.users, userId) && HasJob(store.jobs, form.jobId.value)) ==>
              reply == Reply(500, Message("Failed to create job application"))
              && store.jobApplications == old(store.jobApplications) && store.userActivity == old(store.userActivity)
    ensures form.jobId.Some? && GetJobApplication(old(store.jobApplications), userId, form.jobId.value).None?
            && HasUser(store.users, userId) && HasJob(store.jobs, form.jobId.value) ==>
              var app := NewJobApplication(InsertJobApplication(userId, form.jobId.value, form.status, form.matchScore),
                                           old(store.nextApplicationId), now);
              reply == Reply(200, ApplicationBody(app))
              && store.jobApplications == old(store.jobApplications) + [app]
              && store.userActivity == old(store.userActivity)
                   + [NewUserActivity(ApplyJobEntry(userId, form.jobId.value, app.id), old(store.nextActivityId), now)]
  {
    if form.jobId.None? {
      return Reply(400, Message("Invalid application data"));
    }
    var data := InsertJobApplication(userId, form.jobId.value, form.status, form.matchScore);
    var existing := GetJobApplication(store.jobApplications, userId, data.jobId);
    if existing.Some? {
      return Reply(400, Message("Already applied to this job"));
    }
    ghost var before := store.jobApplications;
    var application := store.CreateJobApplication(data, now);
    if application.Err? {
      return Reply(500, Message("Failed to create job application"));
    }
    if OneApplicationPerPair(before) {
      GuardedInsertKeepsPairsUnique(before, data, application.value.id, now);
    }
    var logged := store.LogActivity(ApplyJobEntry(userId, data.jobId, application.value.id), now);
    if logged.Err? {
      return Reply(500, Message("Failed to create job application"));
    }
    reply := Reply(200, ApplicationBody(application.value));
  }

  // ----------------------------------------------------------------- profile

  /** The activity logged by `POST /api/profile`. */
  function ProfileEntry(userId: string, existed: bool): InsertUserActivity
  {
    InsertUserActivity(userId, if existed then "update_profile" else "create_profile",
                       Some("User profile updated"), None)
  }

  /** `POST /api/profile`: update the caller's profile if there is one, else create it; then log. */
  method PostProfile(store: DatabaseStorage, userId: string, form: InsertUserProfile, now: int) returns (reply: Reply)
    requires store.Valid()
    modifies store`userProfiles, store`nextProfileId, store`userActivity, store`nextActivityId
    ensures store.Valid()
    ensures !HasUser(store.users, userId) ==>
              reply == Reply(500, Message("Failed to save profile"))
              && store.userProfiles == old(store.userProfiles) && store.userActivity == old(store.userActivity)
    ensures HasUser(store.users, userId) ==>
              var p := form.(userId := userId);
              var existed := GetUserProfile(old(store.userProfiles), userId).Some?;
              store.userActivity == old(store.userActivity)
                + [NewUserActivity(ProfileEntry(userId, existed), old(store.nextActivityId), now)]
              && (existed ==>
                    var u := Queries.UpdateUserProfile(old(store.userProfiles), userId, p, now);
                    store.userProfiles == u.1 && reply == Reply(200, ProfileBody(u.0)))
              && (!existed ==>
                    var created := NewUserProfile(p, old(store.nextProfileId), now);
                    store.userProfiles == old(store.userProfiles) + [created]
                    && reply == Reply(200, ProfileBody(Some(created))))
  {
    var p := form.(userId := userId);
    var existing := GetUserProfile(store.userProfiles, userId);
    var profile: Option<UserProfile>;
    if existing.Some? {
      var updated := store.UpdateUserProfile(userId, p, now);
      if updated.Err? {
        return Reply(500, Message("Failed to save profile"));
      }
      profile := updated.value;
    } else {
      var created := store.CreateUserProfile(p, now);
      if created.Err? {
        return Reply(500, Message("Failed to save profile"));
      }
      profile := Some(created.value);
    }
    var logged := store.LogActivity(ProfileEntry(userId, existing.Some?), now);
    if logged.Err? {
      return Reply(500, Message("Failed to save profile"));
    }
    reply := Reply(200, ProfileBody(profile));
  }

  // ------------------------------------------------------------- credentials

  /** The text fields of the multipart form of `POST /api/credentials`. */
  datatype CredentialForm = CredentialForm(
    kind: Option<string>,
    category: Option<string>,
    name: Option<string>,
    issuingAuthority: Option<string>,
    issueDate: Option<int>,
    expiryDate: Option<int>,
    certificateNumber: Option<string>,
    verificationStatus: Option<string>,
    verificationNotes: Option<string>,
    isActive: Option<bool>)

  /** `insertCredentialSchema.parse({ ...req.body, userId, fileUrl, fileName, fileSize })`:
      fails when a required text field is missing. */
  function CredentialData(userId: string, form: CredentialForm, file: UploadedFile, storedName: string): (r: Option<InsertCredential>)
    ensures r.None? <==> form.kind.None? || form.category.None? || form.name.None?
    ensures r.Some? ==> r.value.userId == userId && r.value.fileUrl == Some("/uploads/" + storedName)
                        && r.value.fileName == Some(file.originalName) && r.value.fileSize == Some(file.size)
                        && r.value.name == form.name.value && r.value.kind == form.kind.value
  {
    if form.kind.None? || form.category.None? || form.name.None? then None
    else Some(InsertCredential(userId, form.kind.value, form.category.value, form.name.value,
                               form.issuingAuthority, form.issueDate, form.expiryDate, form.certificateNumber,
                               Some("/uploads/" + storedName), Some(file.originalName), Some(file.size),
                               form.verificationStatus, form.verificationNotes, form.isActive))
  }

  /** The activity logged after an upload. */
  function UploadEntry(c: Credential): InsertUserActivity
  {
    InsertUserActivity(c.userId, "upload_credential", Some("Uploaded " + c.name),
                       Some(JObject([("credentialId", JNumber(c.id)), ("type", JText(c.kind))])))
  }

  /** `POST /api/credentials`: multer's filter and size limit, then the handler. */
  method PostCredential(store: DatabaseStorage, userId: string, file: Option<UploadedFile>, storedName: string,
                        form: CredentialForm, now: int) returns (reply: Reply)
    requires store.Valid()
    modifies store`credentials, store`nextCredentialId, store`userActivity, store`nextActivityId
    ensures store.Valid()
    ensures reply.status != 200 ==> store.credentials == old(store.credentials) && store.userActivity == old(store.userActivity)
    ensures file.Some? && Upload(file.value).Err? ==> reply == Reply(500, ErrorPage(UploadErrorMessage(Upload(file.value).error)))
    ensures file.None? ==> reply == Reply(400, Message("No file uploaded"))
    ensures file.Some? && Upload(file.value).Ok? && CredentialData(userId, form, file.value, storedName).None? ==>
              reply == Reply(400, Message("Invalid credential data"))
    ensures file.Some? && Upload(file.value).Ok? && CredentialData(userId, form, file.value, storedName).Some? ==>
              var c := NewCredential(CredentialData(userId, form, file.value, storedName).value, old(store.nextCredentialId), now);
              if HasUser(store.users, userId) then
                reply == Reply(200, CredentialBody(c))
                && store.credentials == old(store.credentials) + [c]
                && store.userActivity == old(store.userActivity) + [NewUserActivity(UploadEntry(c), old(store.nextActivityId), now)]
              else reply == Reply(500, Message("Failed to upload credential"))
  {
    if file.Some? && Upload(file.value).Err? {
      return Reply(500, ErrorPage(UploadErrorMessage(Upload(file.value).error)));
    }
    if file.None? {
      return Reply(400, Message("No file uploaded"));
    }
    var data := CredentialData(userId, form, file.value, storedName);
    if data.None? {
      return Reply(400, Message("Invalid credential data"));
    }
    var credential := store.CreateCredential(data.value, now);
    if credential.Err? {
      return Reply(500, Message("Failed to upload credential"));
    }
    var logged := store.LogActivity(UploadEntry(credential.value), now);
    if logged.Err? {
      return Reply(500, Message("Failed to upload credential"));
    }
    reply := Reply(200, CredentialBody(credential.value));
  }

  /** The uploaded status field is stored as sent: nothing in the route keeps a client from
      registering a credential as already verified. */
  lemma UploadKeepsClaimedStatus(userId: string, form: CredentialForm, file: UploadedFile, storedName: string, id: nat, now: int)
    requires CredentialData(userId, form, file, storedName).Some?
    ensures NewCredential(CredentialData(userId, form, file, storedName).value, id, now).verificationStatus
            == form.verificationStatus.GetOr(DefaultVerificationStatus)
  {
  }

  /** A consequence: a single upload that claims `verified` for a white card counts towards
      the work-readiness score at once. */
  lemma SelfClaimedVerificationCounts(userId: string, form: CredentialForm, file: UploadedFile, storedName: string,
                                      id: nat, now: int)
    requires CredentialData(userId, form, file, storedName).Some?
    requires form.kind == Some("white_card") && form.verificationStatus == Some("verified") && form.expiryDate.None?
    ensures WorkReadinessScore([NewCredential(CredentialData(userId, form, file, storedName).value, id, now)], now) == 30
  {
    var c := NewCredential(CredentialData(userId, form, file, storedName).value, id, now);
    assert Scoring.IsValid(c, now);
    assert HasValid([c], "white_card", now);
    assert !HasValid([c], "first_aid", now);
    var bonus := Filter([c], Scoring.IsValidBonus, now);
    assert c !in bonus;
    assert |bonus| == 0;
  }

  /** `PUT /api/credentials/:id`: no ownership check. */
  method PutCredential(store: DatabaseStorage, id: int, patch: CredentialPatch, now: int) returns (reply: Reply)
    requires store.Valid()
    modifies store`credentials
    ensures store.Valid()
    ensures var u := CredentialTable.UpdateCredential(old(store.credentials), id, patch, now);
      if u.0.Some? && patch.userId.Some? && !HasUser(store.users, patch.userId.value) then
        reply == Reply(500, Message("Failed to update credential")) && store.credentials == old(store.credentials)
      else if u.0.None? then
        reply == Reply(404, Message("Credential not found")) && store.credentials == old(store.credentials)
      else
        reply == Reply(200, CredentialBody(u.0.value)) && store.credentials == u.1
  {
    var credential := store.UpdateCredential(id, patch, now);
    if credential.Err? {
      return Reply(500, Message("Failed to update credential"));
    }
    if credential.value.None? {
      return Reply(404, Message("Credential not found"));
    }
    reply := Reply(200, CredentialBody(credential.value.value));
  }

  function DeleteEntry(userId: string, credentialId: int): InsertUserActivity
  {
    InsertUserActivity(userId, "delete_credential", Some("Deleted credential"),
                       Some(JObject([("credentialId", JNumber(credentialId))])))
  }

  /** `DELETE /api/credentials/:id`: soft delete of the caller's row; 404 and no log otherwise. */
  method DeleteCredentialRoute(store: DatabaseStorage, userId: string, id: int, now: int) returns (reply: Reply)
    requires store.Valid()
    modifies store`credentials, store`userActivity, store`nextActivityId
    ensures store.Valid()
    ensures var d := CredentialTable.DeleteCredential(old(store.credentials), id, userId, now);
      store.credentials == d.1
      && (!d.0 ==> reply == Reply(404, Message("Credential not found")) && store.userActivity == old(store.userActivity)
                   && store.credentials == old(store.credentials))
      && (d.0 && HasUser(store.users, userId) ==>
            reply == Reply(200, Message("Credential deleted successfully"))
            && store.userActivity == old(store.userActivity) + [NewUserActivity(DeleteEntry(userId, id), old(store.nextActivityId), now)])
      && (d.0 && !HasUser(store.users, userId) ==>
            reply == Reply(500, Message("Failed to delete credential")) && store.userActivity == old(store.userActivity))
  {
    var success := store.DeleteCredential(id, userId, now);
    if !success {
      return Reply(404, Message("Credential not found"));
    }
    var logged := store.LogActivity(DeleteEntry(userId, id), now);
    if logged.Err? {
      return Reply(500, Message("Failed to delete credential"));
    }
    reply := Reply(200, Message("Credential deleted successfully"));
  }
}
