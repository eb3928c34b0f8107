// The persistence layer seen by the two backend controllers, modelled as an
// in-memory store: the Job collection keyed by id, and the Application and
// SavedJob collections as sequences in their natural (insertion) order.

module Store {
  import opened Wrappers

  /** An ObjectId, compared as its string form. */
  type Id = nat

  /** `req.user` as set by the authentication middleware. */
  datatype User = User(id: Id, role: string)

  const EmployerRole := "employer"

  /** A Job document. A string field the request never supplied is "". */
  datatype Job = Job(
    id: Id,
    title: string,
    description: string,
    requirements: string,
    location: string,
    category: string,
    jobType: string,
    salaryMin: Option<int>,
    salaryMax: Option<int>,
    isClosed: bool,
    company: Id)

  /** A request body: the fields it supplies, each one optional. */
  datatype JobPatch = JobPatch(
    title: Option<string>,
    description: Option<string>,
    requirements: Option<string>,
    location: Option<string>,
    category: Option<string>,
    jobType: Option<string>,
    salaryMin: Option<int>,
    salaryMax: Option<int>,
    isClosed: Option<bool>,
    company: Option<Id>)

  const EmptyPatch := JobPatch(None, None, None, None, None, None, None, None, None, None)

  /** An Application document: which applicant applied to which job, and its status. */
  datatype Application = Application(job: Id, applicant: Id, status: string)

  /** A SavedJob document: a bookmark of a job by a jobseeker. */
  datatype SavedJob = SavedJob(job: Id, jobseeker: Id)

  /** An HTTP reply: a status code with a JSON document, or with a `{ message }` body
      (used for both errors and the plain success messages). */
  datatype Response<T> = Ok(code: int, body: T) | Message(code: int, message: string)

  /** At most one SavedJob record per (job, jobseeker) pair. */
  ghost predicate AtMostOnePerPair(s: seq<SavedJob>) {
    forall p :: multiset(s)[p] <= 1
  }

  class Db {
    var jobs: map<Id, Job>
    /** The id the database gives the next created job; ids grow with insertion. */
    var nextJobId: nat
    /** Written by the application collaborator, read-only here. */
    var applications: seq<Application>
    var savedJobs: seq<SavedJob>

    ghost predicate Valid()
      reads this
    {
      && (forall id :: id in jobs ==> id < nextJobId && jobs[id].id == id)
      && AtMostOnePerPair(savedJobs)
    }

    constructor ()
      ensures Valid()
      ensures jobs == map[] && nextJobId == 0 && applications == [] && savedJobs == []
    {
      jobs := map[];
      nextJobId := 0;
      applications := [];
      savedJobs := [];
    }
  }
}
