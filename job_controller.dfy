// The job handlers of backend/controllers/jobController.js over the store:
// create, list with filters and per-viewer annotations, get by id, the
// ownership-guarded update, delete and toggle-close, and the employer listing.

module JobController {
  import opened Wrappers
  import opened JsBuiltins
  import opened Store

  // ---------------------------------------------------------------------------
  // Reading the Job collection

  /** Every stored job sits under its own id. */
  ghost predicate IdsConsistent(jobs: map<Id, Job>) {
    forall id :: id in jobs ==> jobs[id].id == id
  }

  /** The jobs with an id below n that `keep` selects, in id (insertion) order:
      what `Job.find(filter)` returns from the store. */
  function Collect(jobs: map<Id, Job>, n: nat, keep: Job -> bool): (r: seq<Job>)
    ensures |r| <= n
  {
    if n == 0 then []
    else Collect(jobs, n - 1, keep) + (if n - 1 in jobs && keep(jobs[n - 1]) then [jobs[n - 1]] else [])
  }

  /** A job is found exactly when it is stored, below the bound, and selected;
      the results come in strictly increasing id order, so none is repeated. */
  lemma CollectExactly(jobs: map<Id, Job>, n: nat, keep: Job -> bool)
    requires IdsConsistent(jobs)
    ensures forall j :: j in Collect(jobs, n, keep) <==> j.id < n && j.id in jobs && jobs[j.id] == j && keep(j)
    ensures forall a, b :: 0 <= a < b < |Collect(jobs, n, keep)| ==>
              Collect(jobs, n, keep)[a].id < Collect(jobs, n, keep)[b].id
  {
    CollectMembers(jobs, n, keep);
    CollectIncreasing(jobs, n, keep);
  }

  lemma {:induction false} CollectMembers(jobs: map<Id, Job>, n: nat, keep: Job -> bool)
    requires IdsConsistent(jobs)
    ensures forall j :: j in Collect(jobs, n, keep) <==> j.id < n && j.id in jobs && jobs[j.id] == j && keep(j)
  {
    if n > 0 {
      CollectMembers(jobs, n - 1, keep);
    }
  }

  lemma {:induction false} CollectIncreasing(jobs: map<Id, Job>, n: nat, keep: Job -> bool)
    requires IdsConsistent(jobs)
    ensures forall a, b :: 0 <= a < b < |Collect(jobs, n, keep)| ==>
              Collect(jobs, n, keep)[a].id < Collect(jobs, n, keep)[b].id
  {
    if n > 0 {
      CollectIncreasing(jobs, n - 1, keep);
      CollectMembers(jobs, n - 1, keep);
      var prev := Collect(jobs, n - 1, keep);
      var r := Collect(jobs, n, keep);
      forall a, b | 0 <= a < b < |r| ensures r[a].id < r[b].id {
        if b >= |prev| {
          assert r[a] == prev[a] && prev[a] in prev;
        }
      }
    }
  }

  // ---------------------------------------------------------------------------
  // createJob

  /** The job `Job.create({ ...req.body, company: req.user._id })` stores: the
      body's fields over blank values (open, empty strings, no salary), then the
      company. */
  function NewJob(id: Id, body: JobPatch, owner: Id): (j: Job)
    ensures j.id == id && j.company == owner
    ensures j.isClosed == body.isClosed.GetOr(false)
    ensures j.title == body.title.GetOr("") && j.location == body.location.GetOr("")
    ensures j.description == body.description.GetOr("") && j.requirements == body.requirements.GetOr("")
    ensures j.category == body.category.GetOr("") && j.jobType == body.jobType.GetOr("")
    ensures j.salaryMin == body.salaryMin && j.salaryMax == body.salaryMax
  {
    ApplyPatch(Job(id, "", "", "", "", "", "", None, None, false, owner), body).(company := owner)
  }

  /** A company supplied in the body never overrides the acting user. */
  lemma CreateForcesOwner(id: Id, body: JobPatch, owner: Id)
    requires body.company.Some? && body.company.value != owner
    ensures NewJob(id, body, owner).company == owner
    ensures NewJob(id, body, owner) == NewJob(id, body.(company := None), owner)
  {
  }

  method CreateJob(db: Db, user: User, body: JobPatch) returns (r: Response<Job>)
    requires db.Valid()
    modifies db
    ensures db.Valid()
    ensures user.role != EmployerRole ==>
              r == Message(403, "Only employers can post jobs") && unchanged(db)
    ensures user.role == EmployerRole ==>
              && r == Ok(201, NewJob(old(db.nextJobId), body, user.id))
              && old(db.nextJobId) !in old(db.jobs)
              && db.jobs == old(db.jobs)[old(db.nextJobId) := r.body]
              && db.nextJobId == old(db.nextJobId) + 1
              && db.applications == old(db.applications) && db.savedJobs == old(db.savedJobs)
  {
    if user.role != EmployerRole {
      return Message(403, "Only employers can post jobs");
    }
    var job := NewJob(db.nextJobId, body, user.id);
    db.jobs := db.jobs[db.nextJobId := job];
    db.nextJobId := db.nextJobId + 1;
    r := Ok(201, job);
  }

  // ---------------------------------------------------------------------------
  // getJobs: the query object

  /** The query parameters; a missing or empty string parameter is "", and a
      salary bound is present when its parameter is a non-empty numeric string. */
  datatype JobSearch = JobSearch(
    keyword: string,
    location: string,
    category: string,
    jobType: string,
    minSalary: Option<int>,
    maxSalary: Option<int>,
    userId: Option<Id>)

  datatype SalaryBound = SalaryMaxAtLeast(bound: int) | SalaryMinAtMost(bound: int)

  /** The MongoDB filter document: `isClosed`, the optional keys, and `$and`. */
  datatype JobQuery = JobQuery(
    isClosed: bool,
    title: Option<string>,
    location: Option<string>,
    category: Option<string>,
    jobType: Option<string>,
    and: Option<seq<SalaryBound>>)

  predicate SatisfiesBound(job: Job, b: SalaryBound) {
    match b
    case SalaryMaxAtLeast(n) => job.salaryMax.Some? && job.salaryMax.value >= n
    case SalaryMinAtMost(n) => job.salaryMin.Some? && job.salaryMin.value <= n
  }

  /** How the database evaluates the filter on one document; `$regex` with
      option "i" is a case-insensitive literal substring match. */
  predicate Matches(job: Job, q: JobQuery) {
    && job.isClosed == q.isClosed
    && (q.title.Some? ==> IncludesIgnoreCase(job.title, q.title.value))
    && (q.location.Some? ==> IncludesIgnoreCase(job.location, q.location.value))
    && (q.category.Some? ==> job.category == q.category.value)
    && (q.jobType.Some? ==> job.jobType == q.jobType.value)
    && (q.and.Some? ==> forall b :: b in q.and.value ==> SatisfiesBound(job, b))
  }

  /** The listing rule stated directly on the parameters: open jobs only, and
      each supplied parameter constrains its own field. */
  predicate Wanted(job: Job, p: JobSearch) {
    && !job.isClosed
    && (p.keyword != "" ==> IncludesIgnoreCase(job.title, p.keyword))
    && (p.location != "" ==> IncludesIgnoreCase(job.location, p.location))
    && (p.category != "" ==> job.category == p.category)
    && (p.jobType != "" ==> job.jobType == p.jobType)
    && (p.minSalary.Some? ==> job.salaryMax.Some? && job.salaryMax.value >= p.minSalary.value)
    && (p.maxSalary.Some? ==> job.salaryMin.Some? && job.salaryMin.value <= p.maxSalary.value)
  }

  /** Builds the filter the way the handler does, key by key and push by push. */
  method BuildQuery(p: JobSearch) returns (q: JobQuery)
    ensures !q.isClosed
    ensures q.and.None? <==> p.minSalary.None? && p.maxSalary.None?
    ensures q.and.Some? ==> 1 <= |q.and.value| <= 2
    ensures forall job :: Matches(job, q) <==> Wanted(job, p)
  {
    q := JobQuery(false,
      if p.keyword != "" then Some(p.keyword) else None,
      if p.location != "" then Some(p.location) else None,
      if p.category != "" then Some(p.category) else None,
      if p.jobType != "" then Some(p.jobType) else None,
      None);
    if p.minSalary.Some? || p.maxSalary.Some? {
      var and: seq<SalaryBound> := [];
      if p.minSalary.Some? {
        and := and + [SalaryMaxAtLeast(p.minSalary.value)];
      }
      if p.maxSalary.Some? {
        and := and + [SalaryMinAtMost(p.maxSalary.value)];
      }
      assert and == (if p.minSalary.Some? then [SalaryMaxAtLeast(p.minSalary.value)] else [])
                    + (if p.maxSalary.Some? then [SalaryMinAtMost(p.maxSalary.value)] else []);
      q := q.(and := if |and| == 0 then None else Some(and));
    }
    forall job ensures Matches(job, q) <==> Wanted(job, p) {
      SalaryPart(job, p, q.and);
    }
  }

  /** The `$and` list as built holds exactly the supplied salary bounds. */
  lemma SalaryPart(job: Job, p: JobSearch, and: Option<seq<SalaryBound>>)
    requires and == if p.minSalary.None? && p.maxSalary.None? then None
                    else Some((if p.minSalary.Some? then [SalaryMaxAtLeast(p.minSalary.value)] else [])
                              + (if p.maxSalary.Some? then [SalaryMinAtMost(p.maxSalary.value)] else []))
    ensures (and.Some? ==> forall b :: b in and.value ==> SatisfiesBound(job, b)) <==>
            && (p.minSalary.Some? ==> job.salaryMax.Some? && job.salaryMax.value >= p.minSalary.value)
            && (p.maxSalary.Some? ==> job.salaryMin.Some? && job.salaryMin.value <= p.maxSalary.value)
  {
    if p.minSalary.Some? && p.maxSalary.Some? {
      var lo, hi := SalaryMaxAtLeast(p.minSalary.value), SalaryMinAtMost(p.maxSalary.value);
      assert and.value == [lo, hi];
      assert (forall b :: b in [lo, hi] ==> SatisfiesBound(job, b)) <==>
             SatisfiesBound(job, lo) && SatisfiesBound(job, hi);
    } else if p.minSalary.Some? {
      var lo := SalaryMaxAtLeast(p.minSalary.value);
      assert and.value == [lo];
      assert (forall b :: b in [lo] ==> SatisfiesBound(job, b)) <==> SatisfiesBound(job, lo);
    } else if p.maxSalary.Some? {
      var hi := SalaryMinAtMost(p.maxSalary.value);
      assert and.value == [hi];
      assert (forall b :: b in [hi] ==> SatisfiesBound(job, b)) <==> SatisfiesBound(job, hi);
    }
  }

  // ---------------------------------------------------------------------------
  // getJobs: the viewer's saved jobs and application statuses

  /** `SavedJob.find({ jobseeker: userId }).select("job")`, as job ids. */
  function SavedJobIds(saved: seq<SavedJob>, user: Id): (r: seq<Id>)
    ensures forall j :: j in r <==> SavedJob(j, user) in saved
  {
    if saved == [] then []
    else (if saved[0].jobseeker == user then [saved[0].job] else []) + SavedJobIds(saved[1..], user)
  }

  /** `Application.find({ applicant: userId })`, in natural order. */
  function ApplicationsOf(apps: seq<Application>, user: Id): (r: seq<Application>)
    ensures forall a :: a in r <==> a in apps && a.applicant == user
  {
    if apps == [] then []
    else (if apps[0].applicant == user then [apps[0]] else []) + ApplicationsOf(apps[1..], user)
  }

  /** The status the last application in `apps` for `job` carries. */
  function LastStatus(apps: seq<Application>, job: Id): Option<string> {
    if apps == [] then None
    else if apps[|apps| - 1].job == job then Some(apps[|apps| - 1].status)
    else LastStatus(apps[..|apps| - 1], job)
  }

  /** LastStatus is the status of an application for the job after which no
      other application for that job comes. */
  lemma {:induction false} LastStatusMeaning(apps: seq<Application>, job: Id, s: string)
    ensures LastStatus(apps, job) == Some(s) <==>
            exists i :: 0 <= i < |apps| && apps[i].job == job && apps[i].status == s &&
                        forall k :: i < k < |apps| ==> apps[k].job != job
  {
    if apps != [] {
      var n := |apps| - 1;
      var init := apps[..n];
      LastStatusMeaning(init, job, s);
      if apps[n].job != job {
        if LastStatus(apps, job) == Some(s) {
          var i :| 0 <= i < |init| && init[i].job == job && init[i].status == s &&
                   forall k :: i < k < |init| ==> init[k].job != job;
          assert forall k :: i < k < |apps| ==> apps[k].job != job by {
            forall k | i < k < |apps| ensures apps[k].job != job {
              if k < n { assert apps[k] == init[k]; }
            }
          }
        } else {
          forall i | 0 <= i < |apps| && apps[i].job == job && apps[i].status == s
            ensures exists k :: i < k < |apps| && apps[k].job == job
          {
            if forall k :: i < k < |apps| ==> apps[k].job != job {
              assert false;
            }
          }
        }
      }
    }
  }

  /** The loop `applications.forEach(app => map[app.job] = app.status)`:
      later applications overwrite earlier ones. */
  method StatusMap(apps: seq<Application>) returns (m: map<Id, string>)
    ensures forall j :: j in m <==> LastStatus(apps, j).Some?
    ensures forall j :: j in m ==> Some(m[j]) == LastStatus(apps, j)
  {
    m := map[];
    var i := 0;
    while i < |apps|
      invariant 0 <= i <= |apps|
      invariant forall j :: j in m <==> LastStatus(apps[..i], j).Some?
      invariant forall j :: j in m ==> Some(m[j]) == LastStatus(apps[..i], j)
    {
      assert apps[..i + 1][..i] == apps[..i];
      m := m[apps[i].job := apps[i].status];
      i := i + 1;
    }
    assert apps[..|apps|] == apps;
  }

  /** A job as returned by the listing: the document plus the two annotations. */
  datatype JobView = JobView(job: Job, isSaved: bool, applicationStatus: Option<string>)

  /** The `jobs.map(...)` step: annotate each found job, keep its fields. */
  function Annotate(found: seq<Job>, savedIds: seq<Id>, statuses: map<Id, string>): (r: seq<JobView>)
    ensures |r| == |found|
    ensures forall i :: 0 <= i < |r| ==> r[i].job == found[i]
  {
    if found == [] then []
    else
      var job := found[0];
      [JobView(job, job.id in savedIds,
               OrNull(if job.id in statuses then Some(statuses[job.id]) else None))]
      + Annotate(found[1..], savedIds, statuses)
  }

  lemma {:induction false} AnnotateAt(found: seq<Job>, savedIds: seq<Id>, statuses: map<Id, string>, i: nat)
    requires i < |found|
    ensures Annotate(found, savedIds, statuses)[i].isSaved == (found[i].id in savedIds)
    ensures Annotate(found, savedIds, statuses)[i].applicationStatus ==
            OrNull(if found[i].id in statuses then Some(statuses[found[i].id]) else None)
  {
    if i > 0 {
      AnnotateAt(found[1..], savedIds, statuses, i - 1);
    }
  }

  /** GET /api/jobs. */
  method GetJobs(db: Db, p: JobSearch) returns (r: seq<JobView>)
    requires db.Valid()
    requires NoRegexMeta(p.keyword) && NoRegexMeta(p.location)
    ensures |r| == |Collect(db.jobs, db.nextJobId, job => Wanted(job, p))|
    ensures forall i :: 0 <= i < |r| ==>
              && r[i].job == Collect(db.jobs, db.nextJobId, job => Wanted(job, p))[i]
              && r[i].isSaved == (p.userId.Some? && SavedJob(r[i].job.id, p.userId.value) in db.savedJobs)
              && r[i].applicationStatus ==
                   (if p.userId.None? then None
                    else OrNull(LastStatus(ApplicationsOf(db.applications, p.userId.value), r[i].job.id)))
  {
    var q := BuildQuery(p);
    assert forall job :: Matches(job, q) == Wanted(job, p);
    var found := Collect(db.jobs, db.nextJobId, job => Matches(job, q));
    assert found == Collect(db.jobs, db.nextJobId, job => Wanted(job, p)) by {
      CollectSameFilter(db.jobs, db.nextJobId, job => Matches(job, q), job => Wanted(job, p));
    }
    var savedIds: seq<Id> := [];
    var statuses: map<Id, string> := map[];
    if p.userId.Some? {
      savedIds := SavedJobIds(db.savedJobs, p.userId.value);
      statuses := StatusMap(ApplicationsOf(db.applications, p.userId.value));
    }
    r := Annotate(found, savedIds, statuses);
    forall i | 0 <= i < |r|
      ensures r[i].isSaved == (p.userId.Some? && SavedJob(r[i].job.id, p.userId.value) in db.savedJobs)
      ensures r[i].applicationStatus ==
                (if p.userId.None? then None
                 else OrNull(LastStatus(ApplicationsOf(db.applications, p.userId.value), r[i].job.id)))
    {
      AnnotateAt(found, savedIds, statuses, i);
    }
  }

  lemma {:induction false} CollectSameFilter(jobs: map<Id, Job>, n: nat, f: Job -> bool, g: Job -> bool)
    requires forall job :: f(job) == g(job)
    ensures Collect(jobs, n, f) == Collect(jobs, n, g)
  {
    if n > 0 {
      CollectSameFilter(jobs, n - 1, f, g);
    }
  }

  /** Whatever the parameters, no closed job is listed, and every listed job
      satisfies each supplied filter. */
  lemma ListingMeetsFilters(jobs: map<Id, Job>, n: nat, p: JobSearch, j: Job)
    requires IdsConsistent(jobs)
    requires j in Collect(jobs, n, job => Wanted(job, p))
    ensures !j.isClosed
    ensures p.keyword != "" ==> IncludesIgnoreCase(j.title, p.keyword)
    ensures p.location != "" ==> IncludesIgnoreCase(j.location, p.location)
    ensures p.category != "" ==> j.category == p.category
    ensures p.jobType != "" ==> j.jobType == p.jobType
    ensures p.minSalary.Some? ==> j.salaryMax.Some? && j.salaryMax.value >= p.minSalary.value
    ensures p.maxSalary.Some? ==> j.salaryMin.Some? && j.salaryMin.value <= p.maxSalary.value
  {
    CollectExactly(jobs, n, job => Wanted(job, p));
  }

  /** Conversely, every stored job that satisfies all supplied filters is listed. */
  lemma ListingIsComplete(jobs: map<Id, Job>, n: nat, p: JobSearch, id: Id)
    requires IdsConsistent(jobs)
    requires id in jobs && id < n && Wanted(jobs[id], p)
    ensures jobs[id] in Collect(jobs, n, job => Wanted(job, p))
  {
    CollectExactly(jobs, n, job => Wanted(job, p));
  }

  /** With no parameter at all, the listing is the set of open jobs. */
  lemma NoFilterListsOpenJobs(jobs: map<Id, Job>, n: nat, j: Job)
    requires IdsConsistent(jobs)
    ensures var none := JobSearch("", "", "", "", None, None, None);
            j in Collect(jobs, n, job => Wanted(job, none)) <==>
            j.id < n && j.id in jobs && jobs[j.id] == j && !j.isClosed
  {
    var none := JobSearch("", "", "", "", None, None, None);
    CollectExactly(jobs, n, job => Wanted(job, none));
  }

  // ---------------------------------------------------------------------------
  // getJobById

  /** `Application.findOne({ job, applicant })`: the first matching application. */
  function FirstStatus(apps: seq<Application>, job: Id, user: Id): (r: Option<string>)
    ensures r.Some? ==> Application(job, user, r.value) in apps
    ensures r.None? ==> forall a :: a in apps ==> a.job != job || a.applicant != user
  {
    if apps == [] then None
    else if apps[0].job == job && apps[0].applicant == user then Some(apps[0].status)
    else FirstStatus(apps[1..], job, user)
  }

  datatype JobDetail = JobDetail(job: Job, applicationStatus: Option<string>)

  /** GET /api/jobs/:id. */
  method GetJobById(db: Db, id: Id, userId: Option<Id>) returns (r: Response<JobDetail>)
    ensures id !in db.jobs ==> r == Message(404, "Job not found")
    ensures id in db.jobs ==>
              r == Ok(200, JobDetail(db.jobs[id],
                                     if userId.Some? then FirstStatus(db.applications, id, userId.value) else None))
  {
    if id !in db.jobs {
      return Message(404, "Job not found");
    }
    var job := db.jobs[id];
    var status: Option<string> := None;
    if userId.Some? {
      status := FirstStatus(db.applications, id, userId.value);
    }
    r := Ok(200, JobDetail(job, status));
  }

  /** At most one application per (job, applicant). */
  ghost predicate OneApplicationPerPair(apps: seq<Application>) {
    forall i, k :: 0 <= i < k < |apps| ==> apps[i].job != apps[k].job || apps[i].applicant != apps[k].applicant
  }

  /** The listing (last application wins) and get-by-id (first application wins)
      find the same stored status when no applicant applied twice to one job.
      What they answer then differs only for a stored empty status: the
      listing's `|| null` turns it into null, get-by-id returns "". */
  lemma {:induction false} StatusLookupsAgree(apps: seq<Application>, job: Id, user: Id)
    requires OneApplicationPerPair(apps)
    ensures LastStatus(ApplicationsOf(apps, user), job) == FirstStatus(apps, job, user)
    ensures FirstStatus(apps, job, user) != Some("") ==>
              OrNull(LastStatus(ApplicationsOf(apps, user), job)) == FirstStatus(apps, job, user)
    ensures FirstStatus(apps, job, user) == Some("") ==>
              OrNull(LastStatus(ApplicationsOf(apps, user), job)) == None
  {
    if apps != [] {
      UniqueTail(apps);
      StatusLookupsAgree(apps[1..], job, user);
      if apps[0].applicant != user {
        AgreeOnOtherApplicant(apps, job, user);
      } else if apps[0].job == job {
        NoPairInTail(apps);
        AgreeOnMatch(apps, job, user);
      } else {
        AgreeOnOtherJob(apps, job, user);
      }
    }
  }

  /** The steps of `StatusLookupsAgree`, by what the first application is. */
  lemma AgreeOnOtherApplicant(apps: seq<Application>, job: Id, user: Id)
    requires apps != [] && apps[0].applicant != user
    requires LastStatus(ApplicationsOf(apps[1..], user), job) == FirstStatus(apps[1..], job, user)
    ensures LastStatus(ApplicationsOf(apps, user), job) == FirstStatus(apps, job, user)
  {
    assert ApplicationsOf(apps, user) == ApplicationsOf(apps[1..], user);
  }

  lemma AgreeOnMatch(apps: seq<Application>, job: Id, user: Id)
    requires apps != [] && apps[0].applicant == user && apps[0].job == job
    requires forall b :: b in apps[1..] ==> b.job != job || b.applicant != user
    ensures LastStatus(ApplicationsOf(apps, user), job) == FirstStatus(apps, job, user)
  {
    var a, mine := apps[0], ApplicationsOf(apps[1..], user);
    assert ApplicationsOf(apps, user) == [a] + mine;
    NoLaterStatus(apps[1..], job, user);
    LastStatusAfterPrefix([a], mine, job);
    assert LastStatus([a], job) == Some(a.status);
  }

  lemma AgreeOnOtherJob(apps: seq<Application>, job: Id, user: Id)
    requires apps != [] && apps[0].applicant == user && apps[0].job != job
    requires LastStatus(ApplicationsOf(apps[1..], user), job) == FirstStatus(apps[1..], job, user)
    ensures LastStatus(ApplicationsOf(apps, user), job) == FirstStatus(apps, job, user)
  {
    var a, mine := apps[0], ApplicationsOf(apps[1..], user);
    assert ApplicationsOf(apps, user) == [a] + mine;
    LastStatusSkipsOtherJob([a], mine, job);
  }

  lemma UniqueTail(apps: seq<Application>)
    requires apps != [] && OneApplicationPerPair(apps)
    ensures OneApplicationPerPair(apps[1..])
  {
    var rest := apps[1..];
    forall i, k | 0 <= i < k < |rest|
      ensures rest[i].job != rest[k].job || rest[i].applicant != rest[k].applicant
    {
      assert rest[i] == apps[i + 1] && rest[k] == apps[k + 1];
    }
  }

  lemma NoPairInTail(apps: seq<Application>)
    requires apps != [] && OneApplicationPerPair(apps)
    ensures forall b :: b in apps[1..] ==> b.job != apps[0].job || b.applicant != apps[0].applicant
  {
    forall b | b in apps[1..] ensures b.job != apps[0].job || b.applicant != apps[0].applicant {
      var k :| 0 <= k < |apps[1..]| && apps[1..][k] == b;
      assert apps[k + 1] == b;
    }
  }

  lemma NoLaterStatus(apps: seq<Application>, job: Id, user: Id)
    requires forall b :: b in apps ==> b.job != job || b.applicant != user
    ensures LastStatus(ApplicationsOf(apps, user), job) == None
  {
    var mine := ApplicationsOf(apps, user);
    if LastStatus(mine, job).Some? {
      LastStatusMeaning(mine, job, LastStatus(mine, job).value);
    }
  }

  lemma {:induction false} LastStatusAfterPrefix(pre: seq<Application>, post: seq<Application>, job: Id)
    requires LastStatus(post, job) == None
    ensures LastStatus(pre + post, job) == LastStatus(pre, job)
    decreases |post|
  {
    if post != [] {
      var n := |post| - 1;
      assert (pre + post)[..|pre + post| - 1] == pre + post[..n];
      LastStatusAfterPrefix(pre, post[..n], job);
    } else {
      assert pre + post == pre;
    }
  }

  lemma {:induction false} LastStatusSkipsOtherJob(pre: seq<Application>, post: seq<Application>, job: Id)
    requires forall a :: a in pre ==> a.job != job
    ensures LastStatus(pre + post, job) == LastStatus(post, job)
    decreases |post|
  {
    if post != [] {
      var n := |post| - 1;
      assert (pre + post)[..|pre + post| - 1] == pre + post[..n];
      LastStatusSkipsOtherJob(pre, post[..n], job);
    } else {
      assert pre + post == pre;
      LastStatusNone(pre, job);
    }
  }

  lemma {:induction false} LastStatusNone(apps: seq<Application>, job: Id)
    requires forall a :: a in apps ==> a.job != job
    ensures LastStatus(apps, job) == None
  {
    if apps != [] {
      var n := |apps| - 1;
      assert apps[n] in apps;
      assert forall a :: a in apps[..n] ==> a in apps;
      LastStatusNone(apps[..n], job);
    }
  }

  /** When an applicant did apply twice, the two handlers disagree. */
  lemma StatusLookupsDisagreeOnDuplicates()
    ensures var apps := [Application(7, 1, "Applied"), Application(7, 1, "Hired")];
            LastStatus(ApplicationsOf(apps, 1), 7) == Some("Hired") &&
            FirstStatus(apps, 7, 1) == Some("Applied")
  {
    var apps := [Application(7, 1, "Applied"), Application(7, 1, "Hired")];
    assert ApplicationsOf(apps, 1) == apps by {
      assert apps[1..] == [Application(7, 1, "Hired")];
    }
  }

  // ---------------------------------------------------------------------------
  // The ownership guard, updateJob, deleteJob, toggleCloseJob

  datatype Action = Update | Delete | Close

  function Forbidden(a: Action): string {
    match a
    case Update => "Not authorized to update this job"
    case Delete => "Not authorized to delete this job"
    case Close => "Not authorized to close this job"
  }

  /** The check the three mutating handlers share: None lets the handler proceed. */
  function Guard(jobs: map<Id, Job>, id: Id, user: Id, a: Action): (r: Option<Response<()>>)
    ensures r.None? <==> id in jobs && jobs[id].company == user
    ensures r.Some? ==> r.value.Message? && r.value.code in {403, 404}
    ensures id !in jobs ==> r == Some(Message(404, "Job not found"))
  {
    if id !in jobs then Some(Message(404, "Job not found"))
    else if jobs[id].company != user then Some(Message(403, Forbidden(a)))
    else None
  }

  /** A missing job is reported as 404 to every user, owner check or not;
      a present job owned by someone else is 403 for whatever action. */
  lemma GuardOrder(jobs: map<Id, Job>, id: Id, user: Id, other: Id, a: Action)
    ensures id !in jobs ==> Guard(jobs, id, user, a) == Guard(jobs, id, other, a)
    ensures id in jobs && jobs[id].company != user ==> Guard(jobs, id, user, a).value.code == 403
  {
  }

  /** `Object.assign(job, req.body)`: every supplied field overwrites, the rest stay. */
  function ApplyPatch(j: Job, p: JobPatch): (r: Job)
    ensures r.id == j.id
  {
    Job(j.id,
        p.title.GetOr(j.title),
        p.description.GetOr(j.description),
        p.requirements.GetOr(j.requirements),
        p.location.GetOr(j.location),
        p.category.GetOr(j.category),
        p.jobType.GetOr(j.jobType),
        if p.salaryMin.Some? then p.salaryMin else j.salaryMin,
        if p.salaryMax.Some? then p.salaryMax else j.salaryMax,
        p.isClosed.GetOr(j.isClosed),
        p.company.GetOr(j.company))
  }

  /** Field by field: a field the body supplies takes the body's value, a field
      it leaves out keeps the job's. */
  lemma ApplyPatchFields(j: Job, p: JobPatch)
    ensures var r := ApplyPatch(j, p);
      && (p.title.Some? ==> r.title == p.title.value) && (p.title.None? ==> r.title == j.title)
      && (p.description.Some? ==> r.description == p.description.value)
      && (p.description.None? ==> r.description == j.description)
      && (p.requirements.Some? ==> r.requirements == p.requirements.value)
      && (p.requirements.None? ==> r.requirements == j.requirements)
      && (p.location.Some? ==> r.location == p.location.value) && (p.location.None? ==> r.location == j.location)
      && (p.category.Some? ==> r.category == p.category.value) && (p.category.None? ==> r.category == j.category)
      && (p.jobType.Some? ==> r.jobType == p.jobType.value) && (p.jobType.None? ==> r.jobType == j.jobType)
      && (p.salaryMin.Some? ==> r.salaryMin == p.salaryMin) && (p.salaryMin.None? ==> r.salaryMin == j.salaryMin)
      && (p.salaryMax.Some? ==> r.salaryMax == p.salaryMax) && (p.salaryMax.None? ==> r.salaryMax == j.salaryMax)
      && (p.isClosed.Some? ==> r.isClosed == p.isClosed.value) && (p.isClosed.None? ==> r.isClosed == j.isClosed)
      && (p.company.Some? ==> r.company == p.company.value) && (p.company.None? ==> r.company == j.company)
  {
  }

  /** Applying a body twice is applying it once; an empty body changes nothing;
      a later body wins on the fields it supplies. */
  lemma ApplyPatchLaws(j: Job, p: JobPatch, p2: JobPatch)
    ensures ApplyPatch(ApplyPatch(j, p), p) == ApplyPatch(j, p)
    ensures ApplyPatch(j, EmptyPatch) == j
    ensures p2.title.Some? ==> ApplyPatch(ApplyPatch(j, p), p2).title == p2.title.value
    ensures p2.title.None? ==> ApplyPatch(ApplyPatch(j, p), p2).title == ApplyPatch(j, p).title
  {
  }

  /** A body that names the title only leaves every other field alone. */
  lemma ApplyTitleOnly(j: Job, t: string)
    ensures ApplyPatch(j, EmptyPatch.(title := Some(t))) == j.(title := t)
  {
  }

  method UpdateJob(db: Db, id: Id, user: User, body: JobPatch) returns (r: Response<Job>)
    requires db.Valid()
    modifies db
    ensures db.Valid()
    ensures Guard(old(db.jobs), id, user.id, Update).Some? ==>
              r == Message(Guard(old(db.jobs), id, user.id, Update).value.code,
                         Guard(old(db.jobs), id, user.id, Update).value.message)
              && unchanged(db)
    ensures Guard(old(db.jobs), id, user.id, Update).None? ==>
              && r == Ok(200, ApplyPatch(old(db.jobs)[id], body))
              && db.jobs == old(db.jobs)[id := r.body]
              && db.nextJobId == old(db.nextJobId)
              && db.applications == old(db.applications) && db.savedJobs == old(db.savedJobs)
  {
    var g := Guard(db.jobs, id, user.id, Update);
    if g.Some? {
      return Message(g.value.code, g.value.message);
    }
    var updated := ApplyPatch(db.jobs[id], body);
    db.jobs := db.jobs[id := updated];
    r := Ok(200, updated);
  }

  method DeleteJob(db: Db, id: Id, user: User) returns (r: Response<()>)
    requires db.Valid()
    modifies db
    ensures db.Valid()
    ensures Guard(old(db.jobs), id, user.id, Delete).Some? ==>
              r == Guard(old(db.jobs), id, user.id, Delete).value && unchanged(db)
    ensures Guard(old(db.jobs), id, user.id, Delete).None? ==>
              && r == Message(200, "Job deleted successfully")
              && db.jobs == old(db.jobs) - {id}
              && db.nextJobId == old(db.nextJobId)
              && db.applications == old(db.applications) && db.savedJobs == old(db.savedJobs)
  {
    var g := Guard(db.jobs, id, user.id, Delete);
    if g.Some? {
      return g.value;
    }
    db.jobs := db.jobs - {id};
    r := Message(200, "Job deleted successfully");
  }

  /** `job.isClosed = !job.isClosed`. */
  function ToggleClosed(j: Job): (r: Job)
    ensures r.isClosed == !j.isClosed
    ensures r == j.(isClosed := r.isClosed)
  {
    j.(isClosed := !j.isClosed)
  }

  lemma ToggleTwice(j: Job)
    ensures ToggleClosed(ToggleClosed(j)) == j
  {
  }

  method ToggleCloseJob(db: Db, id: Id, user: User) returns (r: Response<()>)
    requires db.Valid()
    modifies db
    ensures db.Valid()
    ensures Guard(old(db.jobs), id, user.id, Close).Some? ==>
              r == Guard(old(db.jobs), id, user.id, Close).value && unchanged(db)
    ensures Guard(old(db.jobs), id, user.id, Close).None? ==>
              && r == Message(200, "Job marked as closed")
              && db.jobs == old(db.jobs)[id := ToggleClosed(old(db.jobs)[id])]
              && db.nextJobId == old(db.nextJobId)
              && db.applications == old(db.applications) && db.savedJobs == old(db.savedJobs)
  {
    var g := Guard(db.jobs, id, user.id, Close);
    if g.Some? {
      return g.value;
    }
    db.jobs := db.jobs[id := ToggleClosed(db.jobs[id])];
    r := Message(200, "Job marked as closed");
  }

  // ---------------------------------------------------------------------------
  // getJobsEmployer

  /** `Application.countDocuments({ job })`. */
  function CountApplications(apps: seq<Application>, job: Id): (c: nat)
    ensures c <= |apps|
    ensures c == 0 <==> forall a :: a in apps ==> a.job != job
  {
    if apps == [] then 0
    else (if apps[0].job == job then 1 else 0) + CountApplications(apps[1..], job)
  }

  datatype JobWithCount = JobWithCount(job: Job, applicationCount: nat)

  /** GET /api/jobs/get-jobs-employer; the `Promise.all` over the owner's jobs
      becomes a sequential loop. */
  method GetJobsEmployer(db: Db, user: User) returns (r: Response<seq<JobWithCount>>)
    ensures user.role != EmployerRole ==> r == Message(403, "Access denied. Employers only.")
    ensures user.role == EmployerRole ==>
              && r.Ok? && r.code == 200
              && |r.body| == |Collect(db.jobs, db.nextJobId, (job: Job) => job.company == user.id)|
              && forall i :: 0 <= i < |r.body| ==>
                   && r.body[i].job == Collect(db.jobs, db.nextJobId, (job: Job) => job.company == user.id)[i]
                   && r.body[i].applicationCount == CountApplications(db.applications, r.body[i].job.id)
  {
    if user.role != EmployerRole {
      return Message(403, "Access denied. Employers only.");
    }
    var owned := Collect(db.jobs, db.nextJobId, (job: Job) => job.company == user.id);
    var withCounts: seq<JobWithCount> := [];
    var i := 0;
    while i < |owned|
      invariant 0 <= i <= |owned|
      invariant |withCounts| == i
      invariant forall k :: 0 <= k < i ==>
                  withCounts[k] == JobWithCount(owned[k], CountApplications(db.applications, owned[k].id))
    {
      withCounts := withCounts + [JobWithCount(owned[i], CountApplications(db.applications, owned[i].id))];
      i := i + 1;
    }
    r := Ok(200, withCounts);
  }

  /** The employer listing holds exactly the stored jobs of that company. */
  lemma EmployerListingExactly(jobs: map<Id, Job>, n: nat, user: Id, j: Job)
    requires IdsConsistent(jobs)
    ensures j in Collect(jobs, n, (job: Job) => job.company == user) <==>
            j.id < n && j.id in jobs && jobs[j.id] == j && j.company == user
  {
    CollectExactly(jobs, n, (job: Job) => job.company == user);
  }
}
