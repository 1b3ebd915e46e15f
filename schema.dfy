/** Table shapes of the relational schema, with their not-null columns, column defaults and
    insert schemas.  A nullable column is an `Option`; a column with a default holds the
    defaulted value; the `type` column is called `kind` (a Dafny keyword).  Timestamps are
    integers (milliseconds since the epoch) and `date` columns are day numbers (days since
    the epoch). */
module Schema {
  import opened Wrappers

  const MsPerDay: int := 86400000

  /** The calendar day (UTC) holding instant `ms`: `toISOString().split('T')[0]`. */
  function DayOf(ms: int): int
  {
    ms / MsPerDay
  }

  /** `new Date(day)` for a date column: midnight UTC at the start of `day`. */
  function DayStart(day: int): int
  {
    day * MsPerDay
  }

  /** A `jsonb` value. */
  datatype Json =
    | JNull
    | JBool(b: bool)
    | JNumber(n: int)
    | JText(t: string)
    | JList(items: seq<Json>)
    | JObject(fields: seq<(string, Json)>)

  // ---------------------------------------------------------------- users

  datatype User = User(
    id: string,
    email: Option<string>,
    firstName: Option<string>,
    lastName: Option<string>,
    profileImageUrl: Option<string>,
    phone: Option<string>,
    role: Option<string>,
    experienceLevel: Option<string>,
    isEmailVerified: bool,
    isPhoneVerified: bool,
    workReadinessScore: int,
    createdAt: int,
    updatedAt: int)

  /** The insert shape of `users`: only the primary key is required. */
  datatype UpsertUser = UpsertUser(
    id: string,
    email: Option<string>,
    firstName: Option<string>,
    lastName: Option<string>,
    profileImageUrl: Option<string>,
    phone: Option<string>,
    role: Option<string>,
    experienceLevel: Option<string>,
    isEmailVerified: Option<bool>,
    isPhoneVerified: Option<bool>,
    workReadinessScore: Option<int>)

  function NewUser(u: UpsertUser, now: int): (r: User)
    ensures WritesGiven(r, u, now) && r.createdAt == now
  {
    User(u.id, u.email, u.firstName, u.lastName, u.profileImageUrl, u.phone, u.role,
         u.experienceLevel, u.isEmailVerified.GetOr(false), u.isPhoneVerified.GetOr(false),
         u.workReadinessScore.GetOr(0), now, now)
  }

  /** Every field the upsert gives is written, under its id, stamped `now`. */
  predicate WritesGiven(row: User, u: UpsertUser, now: int)
  {
    row.id == u.id
    && (u.email.Some? ==> row.email == u.email)
    && (u.firstName.Some? ==> row.firstName == u.firstName)
    && (u.lastName.Some? ==> row.lastName == u.lastName)
    && (u.profileImageUrl.Some? ==> row.profileImageUrl == u.profileImageUrl)
    && (u.phone.Some? ==> row.phone == u.phone)
    && (u.role.Some? ==> row.role == u.role)
    && (u.experienceLevel.Some? ==> row.experienceLevel == u.experienceLevel)
    && (u.isEmailVerified.Some? ==> row.isEmailVerified == u.isEmailVerified.value)
    && (u.isPhoneVerified.Some? ==> row.isPhoneVerified == u.isPhoneVerified.value)
    && (u.workReadinessScore.Some? ==> row.workReadinessScore == u.workReadinessScore.value)
    && row.updatedAt == now
  }

  /** Every field the upsert leaves out keeps the stored value, and so does `createdAt`. */
  predicate KeepsAbsent(row: User, prior: User, u: UpsertUser)
  {
    (u.email.None? ==> row.email == prior.email)
    && (u.firstName.None? ==> row.firstName == prior.firstName)
    && (u.lastName.None? ==> row.lastName == prior.lastName)
    && (u.profileImageUrl.None? ==> row.profileImageUrl == prior.profileImageUrl)
    && (u.phone.None? ==> row.phone == prior.phone)
    && (u.role.None? ==> row.role == prior.role)
    && (u.experienceLevel.None? ==> row.experienceLevel == prior.experienceLevel)
    && (u.isEmailVerified.None? ==> row.isEmailVerified == prior.isEmailVerified)
    && (u.isPhoneVerified.None? ==> row.isPhoneVerified == prior.isPhoneVerified)
    && (u.workReadinessScore.None? ==> row.workReadinessScore == prior.workReadinessScore)
    && row.createdAt == prior.createdAt
  }

  /** One column of `set({ ...userData })`: a given value replaces the stored one. */
  function Given<T>(given: Option<T>, stored: T): (r: T)
    ensures given.Some? ==> r == given.value
    ensures given.None? ==> r == stored
  {
    if given.Some? then given.value else stored
  }

  /** The same for a nullable column, where the given value is itself optional. */
  function GivenOpt<T>(given: Option<T>, stored: Option<T>): (r: Option<T>)
    ensures given.Some? ==> r == given
    ensures given.None? ==> r == stored
  {
    if given.Some? then given else stored
  }

  /** `onConflictDoUpdate({ set: { ...userData, updatedAt } })`: the given fields replace the stored ones. */
  function UpsertedUser(old_: User, u: UpsertUser, now: int): (r: User)
    ensures WritesGiven(r, u, now) && KeepsAbsent(r, old_, u)
  {
    User(u.id,
         GivenOpt(u.email, old_.email),
         GivenOpt(u.firstName, old_.firstName),
         GivenOpt(u.lastName, old_.lastName),
         GivenOpt(u.profileImageUrl, old_.profileImageUrl),
         GivenOpt(u.phone, old_.phone),
         GivenOpt(u.role, old_.role),
         GivenOpt(u.experienceLevel, old_.experienceLevel),
         Given(u.isEmailVerified, old_.isEmailVerified),
         Given(u.isPhoneVerified, old_.isPhoneVerified),
         Given(u.workReadinessScore, old_.workReadinessScore),
         old_.createdAt, now)
  }

  lemma NewUserDefaults(u: UpsertUser, now: int)
    requires u.isEmailVerified.None? && u.isPhoneVerified.None? && u.workReadinessScore.None?
    ensures NewUser(u, now).workReadinessScore == 0
    ensures !NewUser(u, now).isEmailVerified && !NewUser(u, now).isPhoneVerified
    ensures NewUser(u, now).createdAt == now && NewUser(u, now).updatedAt == now
  {
  }

  // -------------------------------------------------------- user_profiles

  datatype UserProfile = UserProfile(
    id: nat,
    userId: string,
    trade: Option<string>,
    yearsExperience: Option<int>,
    location: Option<string>,
    availabilityStatus: string,
    hourlyRate: Option<string>,
    bio: Option<string>,
    skills: Option<Json>,
    preferences: Option<Json>,
    createdAt: int,
    updatedAt: int)

  /** `insertUserProfileSchema`: `userId` is required; `id`, `createdAt`, `updatedAt` are omitted. */
  datatype InsertUserProfile = InsertUserProfile(
    userId: string,
    trade: Option<string>,
    yearsExperience: Option<int>,
    location: Option<string>,
    availabilityStatus: Option<string>,
    hourlyRate: Option<string>,
    bio: Option<string>,
    skills: Option<Json>,
    preferences: Option<Json>)

  const DefaultAvailability: string := "available"

  function NewUserProfile(p: InsertUserProfile, id: nat, now: int): UserProfile
  {
    UserProfile(id, p.userId, p.trade, p.yearsExperience, p.location,
                p.availabilityStatus.GetOr(DefaultAvailability), p.hourlyRate, p.bio,
                p.skills, p.preferences, now, now)
  }

  /** `set({ ...updates, updatedAt })`: fields absent from the update keep their stored value. */
  function PatchedUserProfile(r: UserProfile, p: InsertUserProfile, now: int): UserProfile
  {
    r.(userId := p.userId,
       trade := if p.trade.Some? then p.trade else r.trade,
       yearsExperience := if p.yearsExperience.Some? then p.yearsExperience else r.yearsExperience,
       location := if p.location.Some? then p.location else r.location,
       availabilityStatus := p.availabilityStatus.GetOr(r.availabilityStatus),
       hourlyRate := if p.hourlyRate.Some? then p.hourlyRate else r.hourlyRate,
       bio := if p.bio.Some? then p.bio else r.bio,
       skills := if p.skills.Some? then p.skills else r.skills,
       preferences := if p.preferences.Some? then p.preferences else r.preferences,
       updatedAt := now)
  }

  function UserProfileAsInsert(r: UserProfile): InsertUserProfile
  {
    InsertUserProfile(r.userId, r.trade, r.yearsExperience, r.location, Some(r.availabilityStatus),
                      r.hourlyRate, r.bio, r.skills, r.preferences)
  }

  /** The insert schema omits exactly the server-assigned `id` and timestamps. */
  lemma UserProfileInsertRoundTrip(r: UserProfile)
    requires r.createdAt == r.updatedAt
    ensures NewUserProfile(UserProfileAsInsert(r), r.id, r.createdAt) == r
  {
  }

  lemma UserProfileDefaults(p: InsertUserProfile, id: nat, now: int)
    requires p.availabilityStatus.None?
    ensures NewUserProfile(p, id, now).availabilityStatus == "available"
  {
  }

  // ---------------------------------------------------------- credentials

  datatype Credential = Credential(
    id: nat,
    userId: string,
    kind: string,
    category: string,
    name: string,
    issuingAuthority: Option<string>,
    issueDate: Option<int>,
    expiryDate: Option<int>,
    certificateNumber: Option<string>,
    fileUrl: Option<string>,
    fileName: Option<string>,
    fileSize: Option<int>,
    verificationStatus: string,
    verificationNotes: Option<string>,
    isActive: bool,
    createdAt: int,
    updatedAt: int)

  /** `insertCredentialSchema`: `userId`, `type`, `category`, `name` are required. */
  datatype InsertCredential = InsertCredential(
    userId: string,
    kind: string,
    category: string,
    name: string,
    issuingAuthority: Option<string>,
    issueDate: Option<int>,
    expiryDate: Option<int>,
    certificateNumber: Option<string>,
    fileUrl: Option<string>,
    fileName: Option<string>,
    fileSize: Option<int>,
    verificationStatus: Option<string>,
    verificationNotes: Option<string>,
    isActive: Option<bool>)

  /** `Partial<InsertCredential>`: every field may be absent. */
  datatype CredentialPatch = CredentialPatch(
    userId: Option<string>,
    kind: Option<string>,
    category: Option<string>,
    name: Option<string>,
    issuingAuthority: Option<string>,
    issueDate: Option<int>,
    expiryDate: Option<int>,
    certificateNumber: Option<string>,
    fileUrl: Option<string>,
    fileName: Option<string>,
    fileSize: Option<int>,
    verificationStatus: Option<string>,
    verificationNotes: Option<string>,
    isActive: Option<bool>)

  const DefaultVerificationStatus: string := "pending"

  function NewCredential(c: InsertCredential, id: nat, now: int): Credential
  {
    Credential(id, c.userId, c.kind, c.category, c.name, c.issuingAuthority, c.issueDate,
               c.expiryDate, c.certificateNumber, c.fileUrl, c.fileName, c.fileSize,
               c.verificationStatus.GetOr(DefaultVerificationStatus), c.verificationNotes,
               c.isActive.GetOr(true), now, now)
  }

  function PatchedCredential(r: Credential, p: CredentialPatch, now: int): Credential
  {
    r.(userId := p.userId.GetOr(r.userId),
       kind := p.kind.GetOr(r.kind),
       category := p.category.GetOr(r.category),
       name := p.name.GetOr(r.name),
       issuingAuthority := if p.issuingAuthority.Some? then p.issuingAuthority else r.issuingAuthority,
       issueDate := if p.issueDate.Some? then p.issueDate else r.issueDate,
       expiryDate := if p.expiryDate.Some? then p.expiryDate else r.expiryDate,
       certificateNumber := if p.certificateNumber.Some? then p.certificateNumber else r.certificateNumber,
       fileUrl := if p.fileUrl.Some? then p.fileUrl else r.fileUrl,
       fileName := if p.fileName.Some? then p.fileName else r.fileName,
       fileSize := if p.fileSize.Some? then p.fileSize else r.fileSize,
       verificationStatus := p.verificationStatus.GetOr(r.verificationStatus),
       verificationNotes := if p.verificationNotes.Some? then p.verificationNotes else r.verificationNotes,
       isActive := p.isActive.GetOr(r.isActive),
       updatedAt := now)
  }

  function CredentialAsInsert(r: Credential): InsertCredential
  {
    InsertCredential(r.userId, r.kind, r.category, r.name, r.issuingAuthority, r.issueDate,
                     r.expiryDate, r.certificateNumber, r.fileUrl, r.fileName, r.fileSize,
                     Some(r.verificationStatus), r.verificationNotes, Some(r.isActive))
  }

  lemma CredentialInsertRoundTrip(r: Credential)
    requires r.createdAt == r.updatedAt
    ensures NewCredential(CredentialAsInsert(r), r.id, r.createdAt) == r
  {
  }

  lemma CredentialDefaults(c: InsertCredential, id: nat, now: int)
    requires c.verificationStatus.None? && c.isActive.None?
    ensures NewCredential(c, id, now).verificationStatus == "pending"
    ensures NewCredential(c, id, now).isActive
  {
  }

  /** A patch never changes the row's identity or creation time, and stamps `updatedAt`. */
  lemma PatchKeepsIdentity(r: Credential, p: CredentialPatch, now: int)
    ensures PatchedCredential(r, p, now).id == r.id
    ensures PatchedCredential(r, p, now).createdAt == r.createdAt
    ensures PatchedCredential(r, p, now).updatedAt == now
  {
  }

  // ----------------------------------------------------------------- jobs

  datatype Job = Job(
    id: nat,
    title: string,
    company: string,
    location: string,
    description: Option<string>,
    requirements: Option<Json>,
    payRange: Option<string>,
    startDate: Option<int>,
    endDate: Option<int>,
    jobType: Option<string>,
    isActive: bool,
    createdAt: int,
    updatedAt: int)

  datatype InsertJob = InsertJob(
    title: string,
    company: string,
    location: string,
    description: Option<string>,
    requirements: Option<Json>,
    payRange: Option<string>,
    startDate: Option<int>,
    endDate: Option<int>,
    jobType: Option<string>,
    isActive: Option<bool>)

  function NewJob(j: InsertJob, id: nat, now: int): Job
  {
    Job(id, j.title, j.company, j.location, j.description, j.requirements, j.payRange,
        j.startDate, j.endDate, j.jobType, j.isActive.GetOr(true), now, now)
  }

  function JobAsInsert(r: Job): InsertJob
  {
    InsertJob(r.title, r.company, r.location, r.description, r.requirements, r.payRange,
              r.startDate, r.endDate, r.jobType, Some(r.isActive))
  }

  lemma JobInsertRoundTrip(r: Job)
    requires r.createdAt == r.updatedAt
    ensures NewJob(JobAsInsert(r), r.id, r.createdAt) == r
  {
  }

  // ----------------------------------------------------- job_applications

  datatype JobApplication = JobApplication(
    id: nat,
    userId: string,
    jobId: int,
    status: string,
    matchScore: Option<int>,
    appliedAt: int,
    updatedAt: int)

  /** `insertJobApplicationSchema`: omits `id`, `appliedAt`, `updatedAt`. */
  datatype InsertJobApplication = InsertJobApplication(
    userId: string,
    jobId: int,
    status: Option<string>,
    matchScore: Option<int>)

  const DefaultApplicationStatus: string := "pending"

  function NewJobApplication(a: InsertJobApplication, id: nat, now: int): JobApplication
  {
    JobApplication(id, a.userId, a.jobId, a.status.GetOr(DefaultApplicationStatus), a.matchScore, now, now)
  }

  function JobApplicationAsInsert(r: JobApplication): InsertJobApplication
  {
    InsertJobApplication(r.userId, r.jobId, Some(r.status), r.matchScore)
  }

  lemma JobApplicationInsertRoundTrip(r: JobApplication)
    requires r.appliedAt == r.updatedAt
    ensures NewJobApplication(JobApplicationAsInsert(r), r.id, r.appliedAt) == r
  {
  }

  lemma JobApplicationDefaults(a: InsertJobApplication, id: nat, now: int)
    requires a.status.None?
    ensures NewJobApplication(a, id, now).status == "pending"
    ensures NewJobApplication(a, id, now).matchScore == a.matchScore
  {
  }

  // -------------------------------------------------------- user_activity

  datatype UserActivity = UserActivity(
    id: nat,
    userId: string,
    action: string,
    description: Option<string>,
    metadata: Option<Json>,
    createdAt: int)

  datatype InsertUserActivity = InsertUserActivity(
    userId: string,
    action: string,
    description: Option<string>,
    metadata: Option<Json>)

  function NewUserActivity(a: InsertUserActivity, id: nat, now: int): UserActivity
  {
    UserActivity(id, a.userId, a.action, a.description, a.metadata, now)
  }

  function UserActivityAsInsert(r: UserActivity): InsertUserActivity
  {
    InsertUserActivity(r.userId, r.action, r.description, r.metadata)
  }

  lemma UserActivityInsertRoundTrip(r: UserActivity)
    ensures NewUserActivity(UserActivityAsInsert(r), r.id, r.createdAt) == r
  {
  }

  // ---------------------------------------------------- otp_verifications

  datatype OtpVerification = OtpVerification(
    id: nat,
    identifier: string,
    code: string,
    kind: string,
    expiresAt: int,
    isUsed: bool,
    createdAt: int)

  /** `insertOtpVerificationSchema`: identifier, code, type and expiresAt are required. */
  datatype InsertOtpVerification = InsertOtpVerification(
    identifier: string,
    code: string,
    kind: string,
    expiresAt: int,
    isUsed: Option<bool>)

  function NewOtpVerification(o: InsertOtpVerification, id: nat, now: int): OtpVerification
  {
    OtpVerification(id, o.identifier, o.code, o.kind, o.expiresAt, o.isUsed.GetOr(false), now)
  }

  function OtpVerificationAsInsert(r: OtpVerification): InsertOtpVerification
  {
    InsertOtpVerification(r.identifier, r.code, r.kind, r.expiresAt, Some(r.isUsed))
  }

  lemma OtpVerificationInsertRoundTrip(r: OtpVerification)
    ensures NewOtpVerification(OtpVerificationAsInsert(r), r.id, r.createdAt) == r
  {
  }

  lemma OtpVerificationDefaults(o: InsertOtpVerification, id: nat, now: int)
    requires o.isUsed.None?
    ensures !NewOtpVerification(o, id, now).isUsed
  {
  }
}
