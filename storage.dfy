/** `DatabaseStorage`: the store behind the route handlers, one sequence of rows per table,
    with the serial-id counters that the database would keep.  Writes are methods that
    change only the tables they touch; reads are the functions of `Queries`,
    `CredentialTable` and `OtpLedger` over the current rows. */
module Storage {
  import opened Wrappers
  import opened Schema
  import opened Seqs
  import opened Scoring
  import opened OtpLedger
  import opened CredentialTable
  import opened Queries

  /** The expiry window of the dashboard's `getExpiringCredentials` call, in days. */
  const DashboardExpiryWindowDays: int := 60
  /** The `limit` of the dashboard's `getUserActivity` call. */
  const DashboardActivityLimit: nat := 10

  /** Why a storage call fails: the dashboard's "User not found", or a row whose `user_id`
      or `job_id` names no row of `users` or `jobs` (the database rejects the statement). */
  datatype StorageError = UserNotFound | ForeignKeyViolation

  /** The `user_id` foreign key is satisfied. */
  predicate HasUser(users: seq<User>, id: string)
  {
    exists i :: 0 <= i < |users| && users[i].id == id
  }

  /** The `job_id` foreign key is satisfied. */
  predicate HasJob(jobs: seq<Job>, id: int)
  {
    exists i :: 0 <= i < |jobs| && jobs[i].id == id
  }

  function ProfileId(p: UserProfile): int { p.id }
  function CredentialId(c: Credential): int { c.id }
  function JobId(j: Job): int { j.id }
  function ApplicationId(a: JobApplication): int { a.id }
  function ActivityId(a: UserActivity): int { a.id }
  function OtpId(o: OtpVerification): int { o.id }

  /** What `getUserDashboardData` returns. */
  datatype Dashboard = Dashboard(
    user: User,
    profile: Option<UserProfile>,
    credentials: seq<Credential>,
    expiringCredentials: seq<Credential>,
    recentActivity: seq<UserActivity>,
    jobApplications: seq<ApplicationWithJob>,
    workReadinessScore: int)

  class DatabaseStorage {
    var users: seq<User>
    var userProfiles: seq<UserProfile>
    var credentials: seq<Credential>
    var jobs: seq<Job>
    var jobApplications: seq<JobApplication>
    var userActivity: seq<UserActivity>
    var otpVerifications: seq<OtpVerification>

    var nextProfileId: nat
    var nextCredentialId: nat
    var nextJobId: nat
    var nextApplicationId: nat
    var nextActivityId: nat
    var nextOtpId: nat

    /** Primary keys are unique: user ids, and the serial ids of the other tables, each
        below its counter. */
    ghost predicate Valid()
      reads this
    {
      UniqueUserIds(users)
      && Serial(userProfiles, ProfileId, nextProfileId)
      && Serial(credentials, CredentialId, nextCredentialId)
      && Serial(jobs, JobId, nextJobId)
      && Serial(jobApplications, ApplicationId, nextApplicationId)
      && Serial(userActivity, ActivityId, nextActivityId)
      && Serial(otpVerifications, OtpId, nextOtpId)
    }

    /** Empty tables; serial columns start at 1. */
    constructor ()
      ensures Valid()
      ensures users == [] && userProfiles == [] && credentials == [] && jobs == []
      ensures jobApplications == [] && userActivity == [] && otpVerifications == []
      ensures nextProfileId == 1 && nextCredentialId == 1 && nextJobId == 1
      ensures nextApplicationId == 1 && nextActivityId == 1 && nextOtpId == 1
    {
      users, userProfiles, credentials, jobs := [], [], [], [];
      jobApplications, userActivity, otpVerifications := [], [], [];
      nextProfileId, nextCredentialId, nextJobId := 1, 1, 1;
      nextApplicationId, nextActivityId, nextOtpId := 1, 1, 1;
    }

    // ---------------------------------------------------------------- users

    /** `upsertUser`. */
    method UpsertUser(u: UpsertUser, now: int) returns (user: User)
      requires Valid()
      modifies this`users
      ensures Valid()
      ensures (users, user) == Queries.UpsertUser(old(users), u, now)
      ensures user.id == u.id && GetUser(users, u.id) == Some(user)
    {
      var r := Queries.UpsertUser(users, u, now);
      users, user := r.0, r.1;
      var i :| 0 <= i < |users| && users[i] == user;
      assert forall j :: 0 <= j < i ==> users[j].id != u.id;
    }

    // -------------------------------------------------------- user_profiles

    /** `createUserProfile`.  The serial value is drawn before the foreign key is checked,
        so a rejected insert still consumes one. */
    method CreateUserProfile(p: InsertUserProfile, now: int) returns (r: Result<UserProfile, StorageError>)
      requires Valid()
      modifies this`userProfiles, this`nextProfileId
      ensures Valid()
      ensures nextProfileId == old(nextProfileId) + 1
      ensures !HasUser(users, p.userId) ==> r == Err(ForeignKeyViolation) && userProfiles == old(userProfiles)
      ensures HasUser(users, p.userId) ==>
                (r == Ok(NewUserProfile(p, old(nextProfileId), now)) && userProfiles == old(userProfiles) + [r.value])
    {
      if HasUser(users, p.userId) {
        var profile := NewUserProfile(p, nextProfileId, now);
        SerialAppend(userProfiles, ProfileId, nextProfileId, profile);
        userProfiles := Queries.CreateUserProfile(userProfiles, p, nextProfileId, now);
        r := Ok(profile);
      } else {
        r := Err(ForeignKeyViolation);
      }
      nextProfileId := nextProfileId + 1;
    }

    /** `updateUserProfile`: rejected when a matched row would be moved to a missing user. */
    method UpdateUserProfile(userId: string, p: InsertUserProfile, now: int) returns (r: Result<Option<UserProfile>, StorageError>)
      requires Valid()
      modifies this`userProfiles
      ensures Valid()
      ensures var u := Queries.UpdateUserProfile(old(userProfiles), userId, p, now);
        if u.0.Some? && !HasUser(users, p.userId)
        then r == Err(ForeignKeyViolation) && userProfiles == old(userProfiles)
        else r == Ok(u.0) && userProfiles == u.1
    {
      var u := Queries.UpdateUserProfile(userProfiles, userId, p, now);
      if u.0.Some? && !HasUser(users, p.userId) {
        r := Err(ForeignKeyViolation);
      } else {
        UpdateUserProfileScope(userProfiles, userId, p, now);
        SerialSameKeys(userProfiles, u.1, ProfileId, nextProfileId);
        r, userProfiles := Ok(u.0), u.1;
      }
    }

    // ---------------------------------------------------------- credentials

    /** `createCredential`. */
    method CreateCredential(c: InsertCredential, now: int) returns (r: Result<Credential, StorageError>)
      requires Valid()
      modifies this`credentials, this`nextCredentialId
      ensures Valid()
      ensures nextCredentialId == old(nextCredentialId) + 1
      ensures !HasUser(users, c.userId) ==> r == Err(ForeignKeyViolation) && credentials == old(credentials)
      ensures HasUser(users, c.userId) ==>
                (r == Ok(NewCredential(c, old(nextCredentialId), now)) && credentials == old(credentials) + [r.value])
    {
      if HasUser(users, c.userId) {
        var credential := NewCredential(c, nextCredentialId, now);
        SerialAppend(credentials, CredentialId, nextCredentialId, credential);
        credentials := CredentialTable.CreateCredential(credentials, c, nextCredentialId, now);
        r := Ok(credential);
      } else {
        r := Err(ForeignKeyViolation);
      }
      nextCredentialId := nextCredentialId + 1;
    }

    /** `updateCredential`: found by id alone; exactly that row is patched, unless the patch
        moves it to a missing user. */
    method UpdateCredential(id: int, p: CredentialPatch, now: int) returns (r: Result<Option<Credential>, StorageError>)
      requires Valid()
      modifies this`credentials
      ensures Valid()
      ensures var u := CredentialTable.UpdateCredential(old(credentials), id, p, now);
        if u.0.Some? && p.userId.Some? && !HasUser(users, p.userId.value)
        then r == Err(ForeignKeyViolation) && credentials == old(credentials)
        else r == Ok(u.0) && credentials == u.1
      ensures r == Ok(None) <==> forall i :: 0 <= i < |old(credentials)| ==> old(credentials)[i].id != id
      ensures r.Ok? && r.value.Some? ==> exists j :: (0 <= j < |old(credentials)| && old(credentials)[j].id == id
        && r.value == Some(PatchedCredential(old(credentials)[j], p, now))
        && credentials == old(credentials)[j := PatchedCredential(old(credentials)[j], p, now)])
    {
      var u := CredentialTable.UpdateCredential(credentials, id, p, now);
      if u.0.Some? && p.userId.Some? && !HasUser(users, p.userId.value) {
        r := Err(ForeignKeyViolation);
      } else {
        if u.0.Some? {
          UpdateChangesOnlyThatRow(credentials, id, p, now);
          var j := Find(credentials, HasId, id).value;
          SerialSameKeys(credentials, u.1, CredentialId, nextCredentialId);
        }
        r, credentials := Ok(u.0), u.1;
      }
    }

    /** `deleteCredential`: a soft delete of the caller's own row. */
    method DeleteCredential(id: int, userId: string, now: int) returns (ok: bool)
      requires Valid()
      modifies this`credentials
      ensures Valid()
      ensures (ok, credentials) == CredentialTable.DeleteCredential(old(credentials), id, userId, now)
      ensures ok <==> exists i :: 0 <= i < |old(credentials)| && old(credentials)[i].id == id
                                  && old(credentials)[i].userId == userId
      ensures !ok ==> credentials == old(credentials)
      ensures |credentials| == |old(credentials)|
    {
      var r := CredentialTable.DeleteCredential(credentials, id, userId, now);
      if !r.0 {
        DeleteNotOwnedUnchanged(credentials, id, userId, now);
      }
      SerialSameKeys(credentials, r.1, CredentialId, nextCredentialId);
      ok, credentials := r.0, r.1;
    }

    // ----------------------------------------------------------------- jobs

    /** `createJob`. */
    method CreateJob(j: InsertJob, now: int) returns (job: Job)
      requires Valid()
      modifies this`jobs, this`nextJobId
      ensures Valid()
      ensures job == NewJob(j, old(nextJobId), now)
      ensures jobs == old(jobs) + [job]
      ensures nextJobId == old(nextJobId) + 1
    {
      job := NewJob(j, nextJobId, now);
      SerialAppend(jobs, JobId, nextJobId, job);
      jobs := Queries.CreateJob(jobs, j, nextJobId, now);
      nextJobId := nextJobId + 1;
    }

    // ----------------------------------------------------- job_applications

    /** `createJobApplication`: an insert with no duplicate check (that check is the
        route's); both the user and the job must exist. */
    method CreateJobApplication(a: InsertJobApplication, now: int) returns (r: Result<JobApplication, StorageError>)
      requires Valid()
      modifies this`jobApplications, this`nextApplicationId
      ensures Valid()
      ensures nextApplicationId == old(nextApplicationId) + 1
      ensures !(HasUser(users, a.userId) && HasJob(jobs, a.jobId)) ==>
                (r == Err(ForeignKeyViolation) && jobApplications == old(jobApplications))
      ensures HasUser(users, a.userId) && HasJob(jobs, a.jobId) ==>
                (r == Ok(NewJobApplication(a, old(nextApplicationId), now))
                 && jobApplications == old(jobApplications) + [r.value])
    {
      if HasUser(users, a.userId) && HasJob(jobs, a.jobId) {
        var application := NewJobApplication(a, nextApplicationId, now);
        SerialAppend(jobApplications, ApplicationId, nextApplicationId, application);
        jobApplications := Queries.CreateJobApplication(jobApplications, a, nextApplicationId, now);
        r := Ok(application);
      } else {
        r := Err(ForeignKeyViolation);
      }
      nextApplicationId := nextApplicationId + 1;
    }

    // -------------------------------------------------------- user_activity

    /** `logActivity`. */
    method LogActivity(a: InsertUserActivity, now: int) returns (r: Result<UserActivity, StorageError>)
      requires Valid()
      modifies this`userActivity, this`nextActivityId
      ensures Valid()
      ensures nextActivityId == old(nextActivityId) + 1
      ensures !HasUser(users, a.userId) ==> r == Err(ForeignKeyViolation) && userActivity == old(userActivity)
      ensures HasUser(users, a.userId) ==>
                (r == Ok(NewUserActivity(a, old(nextActivityId), now)) && userActivity == old(userActivity) + [r.value])
    {
      if HasUser(users, a.userId) {
        var activity := NewUserActivity(a, nextActivityId, now);
        SerialAppend(userActivity, ActivityId, nextActivityId, activity);
        userActivity := Queries.LogActivity(userActivity, a, nextActivityId, now);
        r := Ok(activity);
      } else {
        r := Err(ForeignKeyViolation);
      }
      nextActivityId := nextActivityId + 1;
    }

    // ---------------------------------------------------- otp_verifications

    /** `createOtpVerification`. */
    method CreateOtpVerification(o: InsertOtpVerification, now: int) returns (otp: OtpVerification)
      requires Valid()
      modifies this`otpVerifications, this`nextOtpId
      ensures Valid()
      ensures otp == NewOtpVerification(o, old(nextOtpId), now)
      ensures otpVerifications == old(otpVerifications) + [otp]
      ensures nextOtpId == old(nextOtpId) + 1
    {
      otp := NewOtpVerification(o, nextOtpId, now);
      SerialAppend(otpVerifications, OtpId, nextOtpId, otp);
      otpVerifications := Issue(otpVerifications, o, nextOtpId, now);
      nextOtpId := nextOtpId + 1;
    }

    /** `verifyOtp`: true iff an unused, unexpired row matches; that first row is consumed
        and nothing else changes. */
    method VerifyOtp(identifier: string, code: string, kind: string, now: int) returns (ok: bool)
      requires Valid()
      modifies this`otpVerifications
      ensures Valid()
      ensures (ok, otpVerifications) == Verify(old(otpVerifications), Attempt(identifier, code, kind, now))
      ensures ok <==> exists i :: 0 <= i < |old(otpVerifications)| && Matches(old(otpVerifications)[i], Attempt(identifier, code, kind, now))
      ensures !ok ==> otpVerifications == old(otpVerifications)
      ensures ok ==> exists j :: (0 <= j < |old(otpVerifications)|
        && Matches(old(otpVerifications)[j], Attempt(identifier, code, kind, now))
        && otpVerifications == old(otpVerifications)[j := old(otpVerifications)[j].(isUsed := true)])
    {
      var a := Attempt(identifier, code, kind, now);
      var r := Verify(otpVerifications, a);
      if r.0 {
        VerifyConsumesOne(otpVerifications, a);
        var j := Find(otpVerifications, Matches, a).value;
        SerialSameKeys(otpVerifications, r.1, OtpId, nextOtpId);
      }
      ok, otpVerifications := r.0, r.1;
    }

    /** `cleanupExpiredOtps`: deletes the rows with `expiresAt <= now`. */
    method CleanupExpiredOtps(now: int)
      requires Valid()
      modifies this`otpVerifications
      ensures Valid()
      ensures otpVerifications == Cleanup(old(otpVerifications), now)
      ensures forall o :: o in otpVerifications <==> o in old(otpVerifications) && o.expiresAt > now
    {
      SerialFilter(otpVerifications, Survives, now, OtpId, nextOtpId);
      otpVerifications := Cleanup(otpVerifications, now);
    }

    // ------------------------------------------------------------ dashboard

    /** `getUserDashboardData`: fails for an unknown user; otherwise the five reads, and the
        score of the full active credential list. */
    method GetUserDashboardData(userId: string, now: int) returns (r: Result<Dashboard, StorageError>)
      ensures r.Err? <==> forall i :: 0 <= i < |users| ==> users[i].id != userId
      ensures r.Err? ==> r.error == UserNotFound
      ensures r.Ok? ==> r.value.user in users && r.value.user.id == userId
      ensures r.Ok? ==> r.value.profile == GetUserProfile(userProfiles, userId)
      ensures r.Ok? ==> r.value.credentials == UserCredentials(credentials, userId)
      ensures r.Ok? ==> r.value.expiringCredentials == ExpiringCredentials(credentials, userId, DashboardExpiryWindowDays, now)
      ensures r.Ok? ==> r.value.recentActivity == UserActivityFeed(userActivity, userId, DashboardActivityLimit)
      ensures r.Ok? ==> r.value.jobApplications == UserJobApplications(jobApplications, jobs, userId)
      ensures r.Ok? ==> r.value.workReadinessScore == WorkReadinessScore(r.value.credentials, now)
      ensures r.Ok? ==> |r.value.recentActivity| <= 10 && 0 <= r.value.workReadinessScore <= 100
    {
      var user := GetUser(users, userId);
      if user.None? {
        return Err(UserNotFound);
      }
      var creds := UserCredentials(credentials, userId);
      r := Ok(Dashboard(
        user.value,
        GetUserProfile(userProfiles, userId),
        creds,
        ExpiringCredentials(credentials, userId, DashboardExpiryWindowDays, now),
        UserActivityFeed(userActivity, userId, DashboardActivityLimit),
        UserJobApplications(jobApplications, jobs, userId),
        WorkReadinessScore(creds, now)));
    }
  }
}
