// The handlers of backend/controllers/savedJobController.js: save is a
// check-then-insert on the SavedJob collection, unsave a delete-if-present,
// and the listing returns the acting user's records.

module SavedJobController {
  import opened Wrappers
  import opened Store

  /** The collection after a save of `p`: appended unless already present. */
  function AfterSave(s: seq<SavedJob>, p: SavedJob): (r: seq<SavedJob>)
    ensures p in r
    ensures multiset(r)[p] == if p in s then multiset(s)[p] else 1
  {
    if p in s then s else s + [p]
  }

  /** `findOneAndDelete`: the first record equal to `p`, if any, is removed. */
  function RemoveFirst(s: seq<SavedJob>, p: SavedJob): (r: seq<SavedJob>)
    ensures multiset(r) == multiset(s) - multiset{p}
    ensures |r| == if p in s then |s| - 1 else |s|
  {
    if s == [] then []
    else
      assert s == [s[0]] + s[1..];
      if s[0] == p then s[1..] else [s[0]] + RemoveFirst(s[1..], p)
  }

  /** Deleting an absent pair leaves the collection as it was. */
  lemma {:induction false} RemoveAbsent(s: seq<SavedJob>, p: SavedJob)
    requires p !in s
    ensures RemoveFirst(s, p) == s
  {
    if s != [] {
      RemoveAbsent(s[1..], p);
    }
  }

  /** Neither a save nor an unsave of `p` changes how many records another pair has. */
  lemma OtherPairsUntouched(s: seq<SavedJob>, p: SavedJob, q: SavedJob)
    requires q != p
    ensures multiset(AfterSave(s, p))[q] == multiset(s)[q]
    ensures multiset(RemoveFirst(s, p))[q] == multiset(s)[q]
  {
  }

  /** Saving an absent pair adds exactly one record for it and nothing else. */
  lemma SaveAbsentAddsOne(s: seq<SavedJob>, p: SavedJob)
    requires p !in s
    ensures AfterSave(s, p) == s + [p]
    ensures multiset(AfterSave(s, p))[p] == 1
  {
  }

  /** Unsaving removes the pair's record when at most one existed. */
  lemma UnsaveRemovesPair(s: seq<SavedJob>, p: SavedJob)
    requires AtMostOnePerPair(s)
    ensures p !in RemoveFirst(s, p)
    ensures AtMostOnePerPair(RemoveFirst(s, p))
  {
    assert multiset(RemoveFirst(s, p))[p] == 0;
  }

  /** Under the invariant, unsaving twice leaves what unsaving once left. */
  lemma UnsaveIdempotent(s: seq<SavedJob>, p: SavedJob)
    requires AtMostOnePerPair(s)
    ensures RemoveFirst(RemoveFirst(s, p), p) == RemoveFirst(s, p)
  {
    UnsaveRemovesPair(s, p);
    RemoveAbsent(RemoveFirst(s, p), p);
  }

  /** Without the invariant a second unsave does change the collection. */
  lemma UnsaveNotIdempotentOnDuplicates(p: SavedJob)
    ensures RemoveFirst(RemoveFirst([p, p], p), p) != RemoveFirst([p, p], p)
  {
    assert RemoveFirst([p, p], p) == [p];
  }

  lemma SavePreservesInvariant(s: seq<SavedJob>, p: SavedJob)
    requires AtMostOnePerPair(s)
    ensures AtMostOnePerPair(AfterSave(s, p))
  {
    forall q ensures multiset(AfterSave(s, p))[q] <= 1 {
      if q != p { OtherPairsUntouched(s, p, q); }
    }
  }

  /** One request of a jobseeker against the collection. */
  datatype SavedJobOp = Save(job: Id, user: Id) | Unsave(job: Id, user: Id)

  function Step(s: seq<SavedJob>, op: SavedJobOp): seq<SavedJob> {
    match op
    case Save(j, u) => AfterSave(s, SavedJob(j, u))
    case Unsave(j, u) => RemoveFirst(s, SavedJob(j, u))
  }

  function Run(s: seq<SavedJob>, ops: seq<SavedJobOp>): seq<SavedJob>
    decreases |ops|
  {
    if ops == [] then s else Run(Step(s, ops[0]), ops[1..])
  }

  /** Any sequence of saves and unsaves keeps at most one record per pair. */
  lemma {:induction false} RunPreservesInvariant(s: seq<SavedJob>, ops: seq<SavedJobOp>)
    requires AtMostOnePerPair(s)
    ensures AtMostOnePerPair(Run(s, ops))
    decreases |ops|
  {
    if ops != [] {
      match ops[0] {
        case Save(j, u) => SavePreservesInvariant(s, SavedJob(j, u));
        case Unsave(j, u) => UnsaveRemovesPair(s, SavedJob(j, u));
      }
      RunPreservesInvariant(Step(s, ops[0]), ops[1..]);
    }
  }

  /** `SavedJob.find({ jobseeker: user })`, in natural order. */
  function Mine(s: seq<SavedJob>, user: Id): (r: seq<SavedJob>)
    ensures forall x :: multiset(r)[x] == if x.jobseeker == user then multiset(s)[x] else 0
  {
    if s == [] then []
    else
      assert s == [s[0]] + s[1..];
      (if s[0].jobseeker == user then [s[0]] else []) + Mine(s[1..], user)
  }

  /** After saving job J as user U, U's list holds exactly one record for J. */
  lemma SaveThenListOnce(s: seq<SavedJob>, job: Id, user: Id)
    requires AtMostOnePerPair(s)
    ensures var listed := Mine(AfterSave(s, SavedJob(job, user)), user);
            multiset(listed)[SavedJob(job, user)] == 1 &&
            forall x :: x in listed && x.job == job ==> x == SavedJob(job, user)
  {
    var listed := Mine(AfterSave(s, SavedJob(job, user)), user);
    forall x | x in listed && x.job == job ensures x == SavedJob(job, user) {
      assert multiset(listed)[x] > 0;
    }
  }

  // ---------------------------------------------------------------------------
  // The handlers over the store

  /** POST /api/saved-jobs/:jobId. */
  method SaveJob(db: Db, jobId: Id, user: User) returns (r: Response<SavedJob>)
    requires db.Valid()
    modifies db
    ensures db.Valid()
    ensures SavedJob(jobId, user.id) in old(db.savedJobs) ==>
              r == Message(400, "Job already saved") && unchanged(db)
    ensures SavedJob(jobId, user.id) !in old(db.savedJobs) ==>
              && r == Ok(201, SavedJob(jobId, user.id))
              && db.savedJobs == old(db.savedJobs) + [SavedJob(jobId, user.id)]
              && db.jobs == old(db.jobs) && db.nextJobId == old(db.nextJobId)
              && db.applications == old(db.applications)
  {
    var p := SavedJob(jobId, user.id);
    if p in db.savedJobs {
      return Message(400, "Job already saved");
    }
    SavePreservesInvariant(db.savedJobs, p);
    db.savedJobs := db.savedJobs + [p];
    r := Ok(201, p);
  }

  /** DELETE /api/saved-jobs/:jobId: succeeds whether or not the pair was saved. */
  method UnsaveJob(db: Db, jobId: Id, user: User) returns (r: Response<()>)
    requires db.Valid()
    modifies db
    ensures db.Valid()
    ensures r == Message(200, "Job removed from saved list")
    ensures db.savedJobs == RemoveFirst(old(db.savedJobs), SavedJob(jobId, user.id))
    ensures SavedJob(jobId, user.id) !in db.savedJobs
    ensures db.jobs == old(db.jobs) && db.nextJobId == old(db.nextJobId)
    ensures db.applications == old(db.applications)
  {
    var p := SavedJob(jobId, user.id);
    UnsaveRemovesPair(db.savedJobs, p);
    db.savedJobs := RemoveFirst(db.savedJobs, p);
    r := Message(200, "Job removed from saved list");
  }

  /** A saved record with its job populated; a job deleted since shows as null. */
  datatype SavedJobView = SavedJobView(record: SavedJob, job: Option<Job>)

  function Populate(recs: seq<SavedJob>, jobs: map<Id, Job>): (r: seq<SavedJobView>)
    ensures |r| == |recs|
    ensures forall i :: 0 <= i < |r| ==>
              r[i].record == recs[i] &&
              r[i].job == if recs[i].job in jobs then Some(jobs[recs[i].job]) else None
  {
    if recs == [] then []
    else [SavedJobView(recs[0], if recs[0].job in jobs then Some(jobs[recs[0].job]) else None)]
         + Populate(recs[1..], jobs)
  }

  /** GET /api/saved-jobs/my. */
  method GetMySavedJobs(db: Db, user: User) returns (r: seq<SavedJobView>)
    ensures |r| == |Mine(db.savedJobs, user.id)|
    ensures forall i :: 0 <= i < |r| ==> r[i].record.jobseeker == user.id
    ensures forall x :: x in db.savedJobs && x.jobseeker == user.id ==>
              exists i :: 0 <= i < |r| && r[i].record == x
    ensures forall i :: 0 <= i < |r| ==>
              r[i].job == if r[i].record.job in db.jobs then Some(db.jobs[r[i].record.job]) else None
  {
    var mine := Mine(db.savedJobs, user.id);
    r := Populate(mine, db.jobs);
    forall i | 0 <= i < |r| ensures r[i].record.jobseeker == user.id {
      assert multiset(mine)[mine[i]] > 0;
    }
    forall x | x in db.savedJobs && x.jobseeker == user.id
      ensures exists i :: 0 <= i < |r| && r[i].record == x
    {
      assert x in multiset(mine);
      var i :| 0 <= i < |mine| && mine[i] == x;
      assert r[i].record == x;
    }
  }
}
