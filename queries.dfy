/** Reads and writes of the `users`, `user_profiles`, `job_applications`, `jobs` and
    `user_activity` tables used by the route handlers and the dashboard. */
module Queries {
  import opened Wrappers
  import opened Schema
  import opened Seqs

  // ------------------------------------------------------------------ users

  predicate HasUserId(u: User, id: string)
  {
    u.id == id
  }

  ghost predicate UniqueUserIds(users: seq<User>)
  {
    forall i, j :: 0 <= i < j < |users| ==> users[i].id != users[j].id
  }

  /** `getUser`. */
  function GetUser(users: seq<User>, id: string): (r: Option<User>)
    ensures r.None? <==> forall i :: 0 <= i < |users| ==> users[i].id != id
    ensures r.Some? ==> r.value in users && r.value.id == id
  {
    First(users, HasUserId, id)
  }

  /** `upsertUser`: insert, or on a conflicting id update the stored row. */
  function UpsertUser(users: seq<User>, u: UpsertUser, now: int): (r: (seq<User>, User))
    ensures r.1.id == u.id && r.1 in r.0
    ensures WritesGiven(r.1, u, now)
    ensures UniqueUserIds(users) ==> UniqueUserIds(r.0)
    ensures forall v :: v in r.0 && v.id != u.id ==> v in users
    ensures forall v :: v in users && v.id != u.id ==> v in r.0
    ensures (forall i :: 0 <= i < |users| ==> users[i].id != u.id) ==>
              r.1 == NewUser(u, now) && r.0 == users + [r.1]
    ensures forall i :: 0 <= i < |users| && users[i].id == u.id && (forall k :: 0 <= k < i ==> users[k].id != u.id) ==>
              KeepsAbsent(r.1, users[i], u) && r.0 == users[i := r.1]
  {
    match Find(users, HasUserId, u.id)
    case None =>
      var row := NewUser(u, now);
      assert (users + [row])[|users|] == row;
      (users + [row], row)
    case Some(i) =>
      var row := UpsertedUser(users[i], u, now);
      assert users[i := row][i] == row;
      forall v | v in users && v.id != u.id ensures v in users[i := row] {
        var j :| 0 <= j < |users| && users[j] == v;
        assert users[i := row][j] == v;
      }
      (users[i := row], row)
  }

  // ---------------------------------------------------------- user_profiles

  predicate ProfileOf(p: UserProfile, userId: string)
  {
    p.userId == userId
  }

  /** `getUserProfile`. */
  function GetUserProfile(profiles: seq<UserProfile>, userId: string): (r: Option<UserProfile>)
    ensures r.None? <==> forall i :: 0 <= i < |profiles| ==> profiles[i].userId != userId
    ensures r.Some? ==> r.value in profiles && r.value.userId == userId
  {
    First(profiles, ProfileOf, userId)
  }

  /** `createUserProfile`. */
  function CreateUserProfile(profiles: seq<UserProfile>, p: InsertUserProfile, id: nat, now: int): seq<UserProfile>
  {
    profiles + [NewUserProfile(p, id, now)]
  }

  /** `updateUserProfile`: every row of the user is patched (the column is not unique);
      the first updated row is returned. */
  function UpdateUserProfile(profiles: seq<UserProfile>, userId: string, p: InsertUserProfile, now: int): (r: (Option<UserProfile>, seq<UserProfile>))
    ensures r.0.None? <==> forall i :: 0 <= i < |profiles| ==> profiles[i].userId != userId
    ensures r.0.None? ==> r.1 == profiles
    ensures r.0.Some? ==> r.0.value in r.1 && r.0.value.userId == p.userId && r.0.value.updatedAt == now
    ensures |r.1| == |profiles|
  {
    var rows := seq(|profiles|, i requires 0 <= i < |profiles| =>
      if profiles[i].userId == userId then PatchedUserProfile(profiles[i], p, now) else profiles[i]);
    match Find(profiles, ProfileOf, userId)
    case None =>
      assert rows == profiles;
      (None, rows)
    case Some(i) => (Some(rows[i]), rows)
  }

  /** An update touches no other user's profile, keeps each row's id and creation time,
      and stamps every row of the user with the new owner and `updatedAt`. */
  lemma UpdateUserProfileScope(profiles: seq<UserProfile>, userId: string, p: InsertUserProfile, now: int)
    ensures var after := UpdateUserProfile(profiles, userId, p, now).1;
      forall i :: 0 <= i < |profiles| ==>
        after[i].id == profiles[i].id && after[i].createdAt == profiles[i].createdAt
        && (profiles[i].userId != userId ==> after[i] == profiles[i])
        && (profiles[i].userId == userId ==> after[i].userId == p.userId && after[i].updatedAt == now)
  {
  }

  // ------------------------------------------------------------------- jobs

  predicate JobHasId(j: Job, id: int)
  {
    j.id == id
  }

  /** `createJob`. */
  function CreateJob(jobs: seq<Job>, j: InsertJob, id: nat, now: int): seq<Job>
  {
    jobs + [NewJob(j, id, now)]
  }

  // ------------------------------------------------------- job_applications

  predicate AppliedBy(a: JobApplication, key: (string, int))
  {
    a.userId == key.0 && a.jobId == key.1
  }

  /** The duplicate-free invariant that the application route maintains. */
  ghost predicate OneApplicationPerPair(apps: seq<JobApplication>)
  {
    forall i, j :: 0 <= i < j < |apps| ==> !(apps[i].userId == apps[j].userId && apps[i].jobId == apps[j].jobId)
  }

  /** `getJobApplication(userId, jobId)`. */
  function GetJobApplication(apps: seq<JobApplication>, userId: string, jobId: int): (r: Option<JobApplication>)
    ensures r.None? <==> forall i :: 0 <= i < |apps| ==> !(apps[i].userId == userId && apps[i].jobId == jobId)
    ensures r.Some? ==> r.value in apps && r.value.userId == userId && r.value.jobId == jobId
  {
    First(apps, AppliedBy, (userId, jobId))
  }

  /** `createJobApplication`. */
  function CreateJobApplication(apps: seq<JobApplication>, a: InsertJobApplication, id: nat, now: int): seq<JobApplication>
  {
    apps + [NewJobApplication(a, id, now)]
  }

  /** Inserting only when no application for the pair exists keeps one row per pair. */
  lemma GuardedInsertKeepsPairsUnique(apps: seq<JobApplication>, a: InsertJobApplication, id: nat, now: int)
    requires OneApplicationPerPair(apps)
    requires GetJobApplication(apps, a.userId, a.jobId).None?
    ensures OneApplicationPerPair(CreateJobApplication(apps, a, id, now))
  {
  }

  /** An application joined with its job (`JobApplication & { job: Job }`). */
  datatype ApplicationWithJob = ApplicationWithJob(application: JobApplication, job: Job)

  /** One application paired with each of the given jobs, in their order. */
  function PairWith(a: JobApplication, js: seq<Job>): (r: seq<ApplicationWithJob>)
    ensures |r| == |js|
    ensures forall i :: 0 <= i < |js| ==> r[i] == ApplicationWithJob(a, js[i])
    ensures forall x :: multiset(r)[x] == if x.application == a then multiset(js)[x.job] else 0
    decreases |js|
  {
    if |js| == 0 then []
    else
      assert js == [js[0]] + js[1..];
      [ApplicationWithJob(a, js[0])] + PairWith(a, js[1..])
  }

  /** How often an inner join lists a pair: once per copy of the application times once per
      copy of a job with the referenced id. */
  function JoinCount(apps: seq<JobApplication>, jobs: seq<Job>, x: ApplicationWithJob): nat
  {
    if x.job.id == x.application.jobId then multiset(apps)[x.application] * multiset(jobs)[x.job] else 0
  }

  /** `innerJoin(jobs, eq(jobApplications.jobId, jobs.id))`. */
  function JoinJobs(apps: seq<JobApplication>, jobs: seq<Job>): (r: seq<ApplicationWithJob>)
    ensures forall x :: multiset(r)[x] == JoinCount(apps, jobs, x)
    ensures forall x :: x in r <==> x.application in apps && x.job in jobs && x.job.id == x.application.jobId
    decreases |apps|
  {
    if |apps| == 0 then []
    else
      assert apps == [apps[0]] + apps[1..];
      var head := PairWith(apps[0], Filter(jobs, JobHasId, apps[0].jobId));
      var rest := JoinJobs(apps[1..], jobs);
      forall x ensures multiset(head + rest)[x] == JoinCount(apps, jobs, x) {
        JoinCountStep(apps, jobs, x);
      }
      forall x ensures x in head + rest <==> x.application in apps && x.job in jobs && x.job.id == x.application.jobId {
        assert x in head + rest <==> multiset(head + rest)[x] > 0;
        JoinCountPositive(apps, jobs, x);
      }
      head + rest
  }

  /** Splitting off the first application splits the count of a pair. */
  lemma JoinCountStep(apps: seq<JobApplication>, jobs: seq<Job>, x: ApplicationWithJob)
    requires |apps| > 0
    ensures JoinCount(apps, jobs, x) ==
      (if x.application == apps[0] && x.job.id == apps[0].jobId then multiset(jobs)[x.job] else 0)
      + JoinCount(apps[1..], jobs, x)
  {
    assert apps == [apps[0]] + apps[1..];
    var k := multiset(jobs)[x.job];
    var m := multiset(apps[1..])[x.application];
    if x.application == apps[0] {
      assert multiset(apps)[x.application] == 1 + m;
      assert (1 + m) * k == k + m * k;
    } else {
      assert multiset(apps)[x.application] == m;
    }
  }

  /** A pair is counted exactly when both halves are present and the ids match. */
  lemma JoinCountPositive(apps: seq<JobApplication>, jobs: seq<Job>, x: ApplicationWithJob)
    ensures JoinCount(apps, jobs, x) > 0 <==> x.application in apps && x.job in jobs && x.job.id == x.application.jobId
  {
    var m, k := multiset(apps)[x.application], multiset(jobs)[x.job];
    assert x.application in apps <==> m > 0;
    assert x.job in jobs <==> k > 0;
    assert m > 0 && k > 0 ==> m * k > 0;
  }

  predicate ApplicationOf(a: JobApplication, userId: string)
  {
    a.userId == userId
  }

  function LatestFirst(x: ApplicationWithJob): int
  {
    -x.application.appliedAt
  }

  /** `getUserJobApplications`: the user's applications with their jobs, newest first; each
      pair appears as often as the inner join lists it. */
  function UserJobApplications(apps: seq<JobApplication>, jobs: seq<Job>, userId: string): (r: seq<ApplicationWithJob>)
    ensures forall x :: multiset(r)[x] == if x.application.userId == userId then JoinCount(apps, jobs, x) else 0
    ensures forall x :: x in r <==> x.application in apps && x.application.userId == userId
                                    && x.job in jobs && x.job.id == x.application.jobId
    ensures forall i, j :: 0 <= i < j < |r| ==> r[i].application.appliedAt >= r[j].application.appliedAt
  {
    UserJoinCount(apps, jobs, userId);
    UserJoinMembers(apps, jobs, userId);
    UserJoinOrder(apps, jobs, userId);
    UserJoinRows(apps, jobs, userId)
  }

  /** The joined rows of the user, newest application first. */
  function UserJoinRows(apps: seq<JobApplication>, jobs: seq<Job>, userId: string): seq<ApplicationWithJob>
  {
    SortBy(JoinJobs(Filter(apps, ApplicationOf, userId), jobs), LatestFirst)
  }

  /** Joining only the user's applications counts the user's pairs as the full join does and
      lists no pair of another user. */
  lemma UserJoinCount(apps: seq<JobApplication>, jobs: seq<Job>, userId: string)
    ensures forall x :: multiset(UserJoinRows(apps, jobs, userId))[x]
                        == if x.application.userId == userId then JoinCount(apps, jobs, x) else 0
  {
    var mine := Filter(apps, ApplicationOf, userId);
    forall x ensures multiset(JoinJobs(mine, jobs))[x] == if x.application.userId == userId then JoinCount(apps, jobs, x) else 0 {
      assert multiset(mine)[x.application] == if ApplicationOf(x.application, userId) then multiset(apps)[x.application] else 0;
    }
  }

  lemma UserJoinMembers(apps: seq<JobApplication>, jobs: seq<Job>, userId: string)
    ensures forall x :: x in UserJoinRows(apps, jobs, userId) <==>
              x.application in apps && x.application.userId == userId && x.job in jobs && x.job.id == x.application.jobId
  {
    var r := UserJoinRows(apps, jobs, userId);
    UserJoinCount(apps, jobs, userId);
    forall x ensures x in r <==> x.application in apps && x.application.userId == userId
                                 && x.job in jobs && x.job.id == x.application.jobId {
      assert x in r <==> multiset(r)[x] > 0;
      JoinCountPositive(apps, jobs, x);
    }
  }

  lemma UserJoinOrder(apps: seq<JobApplication>, jobs: seq<Job>, userId: string)
    ensures var r := UserJoinRows(apps, jobs, userId);
      forall i, j :: 0 <= i < j < |r| ==> r[i].application.appliedAt >= r[j].application.appliedAt
  {
    var r := UserJoinRows(apps, jobs, userId);
    assert forall i, j :: 0 <= i < j < |r| ==> LatestFirst(r[i]) <= LatestFirst(r[j]);
  }

  /** Distinct keys allow at most one copy of each row. */
  lemma {:induction false} DistinctKeysSingleCopy<T>(s: seq<T>, key: T -> int, x: T)
    requires forall i, j :: 0 <= i < j < |s| ==> key(s[i]) != key(s[j])
    ensures multiset(s)[x] <= 1
    decreases |s|
  {
    if |s| > 0 {
      assert s == [s[0]] + s[1..];
      DistinctKeysSingleCopy(s[1..], key, x);
      if x == s[0] {
        assert forall k :: 0 <= k < |s[1..]| ==> s[1..][k] != x by {
          forall k | 0 <= k < |s[1..]| ensures s[1..][k] != x {
            assert key(s[0]) != key(s[k + 1]);
          }
        }
        assert multiset(s[1..])[x] == 0;
      }
    }
  }

  /** Two equal positions give two copies. */
  lemma TwoCopies<T>(r: seq<T>, i: nat, j: nat)
    requires i < j < |r| && r[i] == r[j]
    ensures multiset(r)[r[i]] >= 2
  {
    assert r == r[..j] + r[j..];
    assert r[i] == r[..j][i] && r[j] == r[j..][0];
    assert multiset(r)[r[i]] == multiset(r[..j])[r[i]] + multiset(r[j..])[r[i]];
  }

  /** With unique ids on both tables the inner join lists every pair at most once. */
  lemma JoinCountAtMostOne(apps: seq<JobApplication>, jobs: seq<Job>, x: ApplicationWithJob)
    requires forall p, q :: 0 <= p < q < |apps| ==> apps[p].id != apps[q].id
    requires forall p, q :: 0 <= p < q < |jobs| ==> jobs[p].id != jobs[q].id
    ensures JoinCount(apps, jobs, x) <= 1
  {
    DistinctKeysSingleCopy(apps, (a: JobApplication) => a.id, x.application);
    DistinctKeysSingleCopy(jobs, (b: Job) => b.id, x.job);
    var m, k := multiset(apps)[x.application], multiset(jobs)[x.job];
    assert m * k <= 1 by {
      assert m <= 1 && k <= 1;
    }
  }

  /** With serial ids on both tables the dashboard lists no application/job pair twice. */
  lemma UserJobApplicationsNoRepeats(apps: seq<JobApplication>, jobs: seq<Job>, userId: string, i: nat, j: nat)
    requires forall p, q :: 0 <= p < q < |apps| ==> apps[p].id != apps[q].id
    requires forall p, q :: 0 <= p < q < |jobs| ==> jobs[p].id != jobs[q].id
    requires i < j < |UserJobApplications(apps, jobs, userId)|
    ensures UserJobApplications(apps, jobs, userId)[i] != UserJobApplications(apps, jobs, userId)[j]
  {
    var r := UserJobApplications(apps, jobs, userId);
    if r[i] == r[j] {
      TwoCopies(r, i, j);
      JoinCountAtMostOne(apps, jobs, r[i]);
      assert false;
    }
  }

  // ---------------------------------------------------------- user_activity

  predicate ActivityOf(a: UserActivity, userId: string)
  {
    a.userId == userId
  }

  function NewestActivityFirst(a: UserActivity): int
  {
    -a.createdAt
  }

  /** The user's full activity history, newest first (before the limit is applied). */
  function ActivityHistory(rows: seq<UserActivity>, userId: string): (r: seq<UserActivity>)
    ensures forall a :: multiset(r)[a] == if a.userId == userId then multiset(rows)[a] else 0
    ensures forall i, j :: 0 <= i < j < |r| ==> r[i].createdAt >= r[j].createdAt
  {
    var r := SortBy(Filter(rows, ActivityOf, userId), NewestActivityFirst);
    assert forall i, j :: 0 <= i < j < |r| ==> NewestActivityFirst(r[i]) <= NewestActivityFirst(r[j]);
    r
  }

  /** `getUserActivity(userId, limit)`: at most `limit` of the user's entries, newest first. */
  function UserActivityFeed(rows: seq<UserActivity>, userId: string, limit: nat): (r: seq<UserActivity>)
    ensures |r| <= limit
    ensures |r| == if limit < |ActivityHistory(rows, userId)| then limit else |ActivityHistory(rows, userId)|
    ensures r == ActivityHistory(rows, userId)[..|r|]
    ensures forall a :: a in r ==> a in rows && a.userId == userId
    ensures forall i, j :: 0 <= i < j < |r| ==> r[i].createdAt >= r[j].createdAt
  {
    var h := ActivityHistory(rows, userId);
    var r := Take(h, limit);
    forall a | a in r ensures a in rows && a.userId == userId {
      assert a in h;
      assert multiset(h)[a] > 0;
    }
    r
  }

  /** The feed holds the most recent entries: an entry of the user left out of it is no
      newer than any entry in it. */
  lemma FeedIsMostRecent(rows: seq<UserActivity>, userId: string, limit: nat, x: UserActivity)
    requires x.userId == userId
    requires multiset(UserActivityFeed(rows, userId, limit))[x] < multiset(rows)[x]
    ensures forall a :: a in UserActivityFeed(rows, userId, limit) ==> x.createdAt <= a.createdAt
  {
    var h := ActivityHistory(rows, userId);
    var r := UserActivityFeed(rows, userId, limit);
    assert r == h[..|r|];
    assert multiset(h)[x] == multiset(rows)[x];
    SortedPrefixBefore(h, NewestActivityFirst, |r|, x);
    forall a | a in r ensures x.createdAt <= a.createdAt {
      var i :| 0 <= i < |r| && r[i] == a;
      assert NewestActivityFirst(h[i]) <= NewestActivityFirst(x);
    }
  }

  /** `logActivity`. */
  function LogActivity(rows: seq<UserActivity>, a: InsertUserActivity, id: nat, now: int): seq<UserActivity>
  {
    rows + [NewUserActivity(a, id, now)]
  }
}
