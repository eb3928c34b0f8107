# Career-Connect job board: a Dafny model of its rules

Career-Connect is a job board. Employers post, edit, close and delete jobs.
Jobseekers search open jobs, save them and apply. Employers review the
applications. This project models the deterministic rules the application
applies, and proves what they guarantee.

- **Backend job handlers** (`JobController`, over the store in `Store`). The
  database is an in-memory store: a map from id to job, an id counter, and
  sequences of application and saved-job records. The modelled handlers are:
  - create, restricted to employers, with the owner forced to the acting user;
  - the job listing: the query object, its evaluation, and the per-viewer
    `isSaved`/`applicationStatus` annotation;
  - get-by-id;
  - the shared 404-then-403 ownership guard;
  - update (`Object.assign`), delete and toggle-close;
  - the employer listing with application counts.
- **Saved-job handlers** (`SavedJobController`): check-then-insert save,
  delete-if-present unsave, and the user's own list.
- **Employer job table** (`ManageJobs`):
  - formatting of the fetched jobs;
  - search and status filters;
  - the comparator sort, done in place on an array;
  - pagination by 8, the results counter, and the Previous/Next buttons;
  - the sort-direction toggle, the page clamp and reset, and removal after delete.
- **Job posting form** (`JobPostingForm`):
  - field validation into an error map, and form validity;
  - input changes and the errors they clear;
  - the submit decision (create or update) and the payload mapping;
  - the reset after success, and prefill from a fetched job.
- **Application viewer** (`ApplicationViewer`): the filter and grouping fold,
  the resume-URL precedence and the default status.
- **Small helpers**: salary text and card decisions (`JobCard`), initials
  (`ApplicantCard`), image URLs (`ImageHelper`), route protection
  (`ProtectedRoute`).
- **JavaScript built-ins** the rules depend on (`JsBuiltins`): ASCII case
  mapping, `includes`, `startsWith`, `split`/`join`, `trim`, `parseInt` and
  integer-to-string.

The backend handlers are modelled as methods over a `Db` object that they
update in place. The store enumerates jobs in id order. Ids come from the
store's counter, so id order is insertion order.

The frontend state of the job table and of the form are classes whose
methods update their fields. Everything else is functions with lemmas.

Where the code and the written design of the system differ, the model follows
the code:
- With no viewer, the listing gives every job `isSaved = false` and
  `applicationStatus = null`, not absent fields.
- For the listing, the viewer's status is the status of the viewer's *last*
  application to that job, because later ones overwrite earlier ones in a map.
  Get-by-id uses the *first* application instead.
  `JobController.StatusLookupsAgree` shows the two find the same stored status
  when nobody applies twice to one job. What they answer then differs only for
  a stored empty status: the listing's `|| null` makes it null, while
  get-by-id returns "".
  `JobController.StatusLookupsDisagreeOnDuplicates` shows they differ otherwise.
- A duplicate save answers 400 "Job already saved", not a distinct conflict
  status.
- Toggle-close answers "Job marked as closed" even when it reopens a job.

## Model

| member | source | states |
|---|---|---|
| JobController.CollectExactly | backend/controllers/jobController.js:47 | a find returns exactly the stored jobs the filter selects, in strictly increasing id order, with no repeats |
| JobController.NewJob | backend/controllers/jobController.js:13 | the created job has the new id and the acting user as company; every other field comes from the body, or is blank (open, empty strings, no salary) when the body leaves it out |
| JobController.CreateForcesOwner | backend/controllers/jobController.js:13 | a company in the body never overrides the acting user; the job is the same as if the body had none |
| JobController.CreateJob | backend/controllers/jobController.js:7-18 | a non-employer gets 403 "Only employers can post jobs" and the store is unchanged; an employer gets 201 with the new job, stored under a fresh id, the counter advanced, nothing else changed |
| JobController.BuildQuery | backend/controllers/jobController.js:22-44 | the query excludes closed jobs; `$and` is present iff a salary bound is supplied and then holds one or two bounds; a job matches the query iff it is open and meets every supplied filter |
| JobController.SalaryPart | backend/controllers/jobController.js:32-44 | the `$and` list as pushed holds exactly the supplied bounds: salaryMax at least minSalary, salaryMin at most maxSalary |
| JobController.SavedJobIds | backend/controllers/jobController.js:54-55 | a job id is in the viewer's list iff the viewer has a saved record for it |
| JobController.ApplicationsOf | backend/controllers/jobController.js:58 | exactly the viewer's applications |
| JobController.LastStatusMeaning | backend/controllers/jobController.js:59-61 | the stored status is that of an application for the job with no later application for the same job |
| JobController.StatusMap | backend/controllers/jobController.js:59-61 | the map has a key iff some application is for that job, and it holds the last such application's status |
| JsBuiltins.OrNull | backend/controllers/jobController.js:70 | `\|\| null` turns a missing or empty status into null and keeps any other |
| JsBuiltins.OrNullLaws | backend/controllers/jobController.js:70 | `\|\| null` is idempotent, and it changes a value only when that value is "" |
| JobController.Annotate | backend/controllers/jobController.js:65-72 | one annotated entry per found job, in order, with the job's fields unchanged |
| JobController.AnnotateAt | backend/controllers/jobController.js:69-70 | entry i is saved iff its id is in the saved list, and carries the map's status or null |
| JobController.GetJobs | backend/controllers/jobController.js:21-78 | exactly the open jobs meeting the filters, in id order; each is saved iff the viewer saved it; each carries the viewer's last non-empty status, or null; with no viewer, not saved and null |
| JobController.CollectSameFilter | backend/controllers/jobController.js:47 | two filters that agree on every job find the same list |
| JobController.ListingMeetsFilters | backend/controllers/jobController.js:25-44 | a listed job is never closed, and satisfies each supplied keyword, location, category, type and salary constraint |
| JobController.ListingIsComplete | backend/controllers/jobController.js:25-44 | every stored job that satisfies all supplied filters is listed |
| JobController.NoFilterListsOpenJobs | backend/controllers/jobController.js:24-25 | with no parameter the listing is exactly the open stored jobs |
| JobController.FirstStatus | backend/controllers/jobController.js:96-105 | a found status belongs to an application by that applicant for that job; none means no such application exists |
| JobController.GetJobById | backend/controllers/jobController.js:81-114 | a missing id gives 404 "Job not found"; otherwise 200 with the job and the viewer's first application status, or null without a viewer |
| JobController.StatusLookupsAgree | backend/controllers/jobController.js:59-61 | with at most one application per (job, applicant), the listing's last status equals get-by-id's first; after the listing's `\|\| null` the answers are equal unless the stored status is "", which the listing shows as null |
| JobController.StatusLookupsDisagreeOnDuplicates | backend/controllers/jobController.js:97-100 | with two applications by one applicant to one job, the listing shows the later status and get-by-id the earlier |
| JobController.Guard | backend/controllers/jobController.js:119-126 | the handler proceeds iff the job exists and its company is the acting user; otherwise 404 when missing, else 403 |
| JobController.GuardOrder | backend/controllers/jobController.js:138-145 | a missing job gives the same answer to every user, before any owner check; a job owned by another user gives 403 for every action |
| JobController.ApplyPatch | backend/controllers/jobController.js:128 | the id is never changed by the body |
| JobController.ApplyPatchFields | backend/controllers/jobController.js:128 | each field the body supplies takes the body's value; each field it leaves out keeps the job's |
| JobController.ApplyPatchLaws | backend/controllers/jobController.js:128 | applying a body twice equals once; an empty body changes nothing; a later body wins on the fields it supplies |
| JobController.ApplyTitleOnly | backend/controllers/jobController.js:128 | a body that supplies only the title changes only the title |
| JobController.UpdateJob | backend/controllers/jobController.js:117-134 | guard failures give 404/403 with the store unchanged; otherwise 200 with the patched job, which replaces the old one, and nothing else changes |
| JobController.DeleteJob | backend/controllers/jobController.js:136-152 | guard failures give 404/403 with the store unchanged; otherwise only that job is removed, with "Job deleted successfully" |
| JobController.ToggleClosed | backend/controllers/jobController.js:165 | `isClosed` is negated and no other field changes |
| JobController.ToggleTwice | backend/controllers/jobController.js:165 | two toggles restore the job |
| JobController.ToggleCloseJob | backend/controllers/jobController.js:154-172 | guard failures give 404/403 with the store unchanged; otherwise only that job's flag flips, with "Job marked as closed" |
| JobController.CountApplications | backend/controllers/jobController.js:194 | the count is at most the number of applications, and zero iff none references the job |
| JobController.GetJobsEmployer | backend/controllers/jobController.js:175-204 | a non-employer gets 403 "Access denied. Employers only."; otherwise 200 with the user's jobs in id order, each with its application count |
| JobController.EmployerListingExactly | backend/controllers/jobController.js:187 | the employer listing holds exactly the stored jobs whose company is the user |
| SavedJobController.AfterSave | backend/controllers/savedJobController.js:6-10 | the pair is present afterwards, with its old count if it was there and count one otherwise |
| SavedJobController.RemoveFirst | backend/controllers/savedJobController.js:18 | one occurrence of the pair is removed when present; the length drops by one exactly then |
| SavedJobController.RemoveAbsent | backend/controllers/savedJobController.js:18 | deleting an absent pair leaves the collection as it was |
| SavedJobController.OtherPairsUntouched | backend/controllers/savedJobController.js:6-18 | neither save nor unsave of a pair changes another pair's count |
| SavedJobController.SaveAbsentAddsOne | backend/controllers/savedJobController.js:9 | saving an absent pair appends exactly one record for it |
| SavedJobController.UnsaveRemovesPair | backend/controllers/savedJobController.js:18 | with at most one record per pair, unsave leaves none for the pair and keeps the invariant |
| SavedJobController.UnsaveIdempotent | backend/controllers/savedJobController.js:18 | under the invariant, unsaving twice leaves the same collection as once |
| SavedJobController.UnsaveNotIdempotentOnDuplicates | backend/controllers/savedJobController.js:18 | with a duplicated record, a second unsave changes the collection again |
| SavedJobController.SavePreservesInvariant | backend/controllers/savedJobController.js:6-10 | a save keeps at most one record per pair |
| SavedJobController.RunPreservesInvariant | backend/controllers/savedJobController.js:6-18 | any sequence of saves and unsaves keeps at most one record per pair |
| SavedJobController.Mine | backend/controllers/savedJobController.js:27 | exactly the user's records, each as often as stored |
| SavedJobController.SaveThenListOnce | backend/controllers/savedJobController.js:6-10 | after saving job J as U, U's list holds exactly one record for J |
| SavedJobController.SaveJob | backend/controllers/savedJobController.js:4-14 | an existing pair gives 400 "Job already saved" with the store unchanged; otherwise 201 with the record appended and nothing else changed |
| SavedJobController.UnsaveJob | backend/controllers/savedJobController.js:16-23 | always 200 "Job removed from saved list"; the pair's record is gone and nothing else changes |
| SavedJobController.Populate | backend/controllers/savedJobController.js:28-34 | each record keeps its position and carries its job, or null when the job no longer exists |
| SavedJobController.GetMySavedJobs | backend/controllers/savedJobController.js:25-40 | exactly the user's records, every one of them, each with its job or null |
| ManageJobs.FormatJob | frontend/src/pages/Employer/ManageJobs.jsx:158-167 | status is "Closed" iff the job is closed, else "Active"; applicants defaults to 0; id is `_id` else `id`; company is never empty ("—" fallback); title and logo are copied |
| ManageJobs.LoadedJobs | frontend/src/pages/Employer/ManageJobs.jsx:153-181 | a rejected request (no reply, or a status outside 200-299) keeps the previous rows; a resolved 200 gives one formatted row per fetched job, in order; any other resolved reply gives no rows |
| ManageJobs.FormatAll | frontend/src/pages/Employer/ManageJobs.jsx:158-167 | one formatted row per fetched job, in order |
| ManageJobs.FilterJobs | frontend/src/pages/Employer/ManageJobs.jsx:35-41 | exactly the jobs whose title or company contains the term case-insensitively and whose status matches ("All" matches any), each as often as in the input |
| ManageJobs.EmptySearchKeepsAll | frontend/src/pages/Employer/ManageJobs.jsx:36-39 | an empty term with "All" keeps every job, in order |
| ManageJobs.Compare | frontend/src/pages/Employer/ManageJobs.jsx:43-61 | the comparator answers -1, 0 or 1 |
| ManageJobs.StrLessTotal | frontend/src/pages/Employer/ManageJobs.jsx:57-59 | string `<` on the sort keys is total: equal or one way or the other |
| ManageJobs.CompareAntisymmetric | frontend/src/pages/Employer/ManageJobs.jsx:56-60 | swapping the arguments reverses a positive answer |
| ManageJobs.CompareTransitive | frontend/src/pages/Employer/ManageJobs.jsx:56-60 | "not after" is transitive, so the comparator is a consistent order |
| ManageJobs.AdjacentOrderedIsSorted | frontend/src/pages/Employer/ManageJobs.jsx:43-61 | if every neighbouring pair is in order, every pair is |
| ManageJobs.OrderedMeansMonotone | frontend/src/pages/Employer/ManageJobs.jsx:48-60 | in sorted output the keys never decrease for "asc" and never increase for "desc"; applicants compare as numbers, missing ones as 0 |
| ManageJobs.SortInPlace | frontend/src/pages/Employer/ManageJobs.jsx:43-61 | the array is a permutation of its old contents and sorted under the comparator |
| ManageJobs.FilteredAndSorted | frontend/src/pages/Employer/ManageJobs.jsx:34-64 | the result is a permutation of the filtered jobs and is sorted |
| ManageJobs.TotalPages | frontend/src/pages/Employer/ManageJobs.jsx:67 | at least one page; one for an empty list; otherwise the fewest pages of 8 that hold every item |
| ManageJobs.PageItems | frontend/src/pages/Employer/ManageJobs.jsx:68-69 | at most 8 items, taken consecutively from index (page-1)*8, as many as remain |
| ManageJobs.PagesPartitionList | frontend/src/pages/Employer/ManageJobs.jsx:67-69 | the pages 1..totalPages, concatenated, give back the whole list |
| ManageJobs.PagesArePrefix | frontend/src/pages/Employer/ManageJobs.jsx:68-69 | the first k pages, concatenated, are the list's first min(8k, n) items |
| ManageJobs.ResultsCountShownRows | frontend/src/pages/Employer/ManageJobs.jsx:190-191 | on a valid page of a non-empty list, "showing start to end" lies within the list and counts exactly the rows displayed |
| ManageJobs.PrevPage | frontend/src/pages/Employer/ManageJobs.jsx:394 | never below 1, and one back when possible |
| ManageJobs.NextPage | frontend/src/pages/Employer/ManageJobs.jsx:401 | never above the total, and one forward when possible |
| ManageJobs.ButtonsKeepPageInRange | frontend/src/pages/Employer/ManageJobs.jsx:394-401 | from a page in 1..totalPages both buttons stay in 1..totalPages |
| ManageJobs.Flip | frontend/src/pages/Employer/ManageJobs.jsx:83 | the direction always changes |
| ManageJobs.FlipTwice | frontend/src/pages/Employer/ManageJobs.jsx:83 | two flips restore the direction |
| ManageJobs.WithoutId | frontend/src/pages/Employer/ManageJobs.jsx:105 | no remaining row has the deleted id |
| ManageJobs.WithoutIdCounts | frontend/src/pages/Employer/ManageJobs.jsx:105 | exactly the rows with that id are removed; every other row keeps its count |
| ManageJobs.WithoutIdDistributes | frontend/src/pages/Employer/ManageJobs.jsx:105 | removal works piecewise over a concatenation, so the survivors keep their order |
| ManageJobs.WithoutAbsentId | frontend/src/pages/Employer/ManageJobs.jsx:105 | removing an id no row has changes nothing |
| ManageJobs.ManageJobsView.TotalPagesNow | frontend/src/pages/Employer/ManageJobs.jsx:67 | the current page count is at least 1 |
| ManageJobs.ManageJobsView.constructor | frontend/src/pages/Employer/ManageJobs.jsx:22-31 | no jobs, empty search, "All", page 1, sorted by title ascending |
| ManageJobs.ManageJobsView.HandleSort | frontend/src/pages/Employer/ManageJobs.jsx:77-88 | the same field flips the direction; a new field is set with "asc"; the page resets to 1; nothing else changes |
| ManageJobs.ManageJobsView.SetSearchTerm | frontend/src/pages/Employer/ManageJobs.jsx:77-79 | the term is set and the page reset to 1; the other state is kept |
| ManageJobs.ManageJobsView.SetStatusFilter | frontend/src/pages/Employer/ManageJobs.jsx:77-79 | the filter is set and the page reset to 1; the other state is kept |
| ManageJobs.ManageJobsView.Previous | frontend/src/pages/Employer/ManageJobs.jsx:394 | the page becomes the previous page, never below 1 |
| ManageJobs.ManageJobsView.Next | frontend/src/pages/Employer/ManageJobs.jsx:401 | the page becomes the next page, never beyond the last |
| ManageJobs.ManageJobsView.ClampPage | frontend/src/pages/Employer/ManageJobs.jsx:72-74 | the page ends within 1..totalPages: unchanged if it was in range, the last page if it was beyond |
| ManageJobs.ManageJobsView.RemoveDeleted | frontend/src/pages/Employer/ManageJobs.jsx:105 | the deleted job's rows are removed from the state |
| ManageJobs.ManageJobsView.Load | frontend/src/pages/Employer/ManageJobs.jsx:153-181 | the rows become those the fetch gives from the previous rows; a rejected request leaves them unchanged |
| ManageJobs.ManageJobsView.VisibleRows | frontend/src/pages/Employer/ManageJobs.jsx:34-69 | the full list is a permutation of the filtered jobs, ordered by the current column and direction; the rows shown are exactly its current page, at most 8, each passing the filters |
| JobPostingForm.With | frontend/src/pages/Employer/JobPostingForm.jsx:44-47 | only the named field takes the new value; every other field is kept |
| JobPostingForm.KeyNamesDistinct | frontend/src/pages/Employer/JobPostingForm.jsx:118-130 | the seven error keys have distinct names |
| JobPostingForm.ErrorsMeaning | frontend/src/pages/Employer/JobPostingForm.jsx:116-133 | each of title, location, category and type has an error iff empty; description and requirements iff blank after trim; the salary key says "Both …" iff a salary is empty, else "Maximum …" iff parseInt(min) ≥ parseInt(max) with both parsed |
| JobPostingForm.NoErrorsIffComplete | frontend/src/pages/Employer/JobPostingForm.jsx:135-138 | the error map is empty iff the form is complete |
| JobPostingForm.EqualSalariesRejected | frontend/src/pages/Employer/JobPostingForm.jsx:128-129 | equal minimum and maximum salaries are rejected |
| JobPostingForm.UnparsableSalariesPass | frontend/src/pages/Employer/JobPostingForm.jsx:126-130 | non-empty salaries that parseInt cannot read raise no salary error |
| JobPostingForm.ValidateForm | frontend/src/pages/Employer/JobPostingForm.jsx:116-133 | the map built check by check equals the specified error map |
| JobPostingForm.PayloadRoundTrip | frontend/src/pages/Employer/JobPostingForm.jsx:68-77 | the payload maps jobTitle to title and jobType to type and copies the rest; the prefill mapping inverts it in both directions |
| JobPostingForm.ClearError | frontend/src/pages/Employer/JobPostingForm.jsx:49-54 | the same keys remain; the changed field's error becomes empty and the others are kept |
| JobPostingForm.SalaryEditKeepsSalaryError | frontend/src/pages/Employer/JobPostingForm.jsx:49-54 | editing a salary field never clears the combined salary error |
| JobPostingForm.PostingForm.constructor | frontend/src/pages/Employer/JobPostingForm.jsx:25-38 | the form starts blank with no errors; the job id is the navigation state's job id when truthy, else null |
| JobPostingForm.PostingForm.HandleInputChange | frontend/src/pages/Employer/JobPostingForm.jsx:43-55 | the field takes the value and only that field's error is cleared |
| JobPostingForm.PostingForm.IsFormValid | frontend/src/pages/Employer/JobPostingForm.jsx:135-138 | valid iff the form is complete |
| JobPostingForm.PostingForm.HandleSubmit | frontend/src/pages/Employer/JobPostingForm.jsx:57-82 | an incomplete form only sets the errors and sends nothing; a complete one sends a PUT to the job id when there is one, else a POST, with the mapped payload |
| JobPostingForm.PostingForm.SubmitReplied | frontend/src/pages/Employer/JobPostingForm.jsx:84-98 | a 200 or 201 reply resets the form; any other keeps it |
| JobPostingForm.PostingForm.Prefill | frontend/src/pages/Employer/JobPostingForm.jsx:148-158 | a fetched job fills the form so that the payload gives the job back; no job leaves the form as it was |
| ApplicationViewer.Retain | frontend/src/pages/Employer/ApplicationViewer.jsx:52 | only applications that have a job with a title survive |
| ApplicationViewer.RetainCounts | frontend/src/pages/Employer/ApplicationViewer.jsx:52 | every application with a titled job survives, as often as it occurs |
| ApplicationViewer.RetainedKey | frontend/src/pages/Employer/ApplicationViewer.jsx:54 | a retained application is keyed by its job id, else its title, and the key is never empty |
| ApplicationViewer.WithKey | frontend/src/pages/Employer/ApplicationViewer.jsx:61 | the group of a key holds exactly the applications with that key |
| ApplicationViewer.Order | frontend/src/pages/Employer/ApplicationViewer.jsx:55-60 | the keys, without repeats, are exactly those that have an application |
| ApplicationViewer.WithKeySnoc | frontend/src/pages/Employer/ApplicationViewer.jsx:61 | one more application extends only its own key's group |
| ApplicationViewer.OrderSnoc | frontend/src/pages/Employer/ApplicationViewer.jsx:55-60 | one more application adds its key to the key order exactly when the key is new |
| ApplicationViewer.PushExisting | frontend/src/pages/Employer/ApplicationViewer.jsx:61 | pushing into an existing group keeps the accumulator equal to the grouping of the input read so far |
| ApplicationViewer.PushNew | frontend/src/pages/Employer/ApplicationViewer.jsx:55-61 | creating a new key's group with its job, then pushing, keeps the accumulator equal to the grouping of the input read so far |
| ApplicationViewer.AddToGroup | frontend/src/pages/Employer/ApplicationViewer.jsx:53-62 | one call of the reduce callback turns the grouping of the input read so far into the grouping of one application more |
| ApplicationViewer.GroupApplications | frontend/src/pages/Employer/ApplicationViewer.jsx:51-64 | one group per key, created on the key's first application; each group holds its applications in input order, is non-empty, and carries the first application's job |
| ApplicationViewer.SumSizesSnoc | frontend/src/pages/Employer/ApplicationViewer.jsx:61 | one more application adds one to its own group size only |
| ApplicationViewer.GroupSizesSum | frontend/src/pages/Employer/ApplicationViewer.jsx:53-62 | the group sizes add up to the number of retained applications |
| ApplicationViewer.GroupsDisjoint | frontend/src/pages/Employer/ApplicationViewer.jsx:54 | no application is in two groups |
| ApplicationViewer.FirstTruthy | frontend/src/pages/Employer/ApplicationViewer.jsx:72-75 | `a \|\| b \|\| c` yields a value iff one is truthy, and then the first truthy one |
| ApplicationViewer.DownloadResume | frontend/src/pages/Employer/ApplicationViewer.jsx:66-88 | falsy or non-string, non-object arguments give "No resume available"; a string opens as given; an object opens the first truthy of its resumeUrl, applicant.resume and applicant.resumeUrl, else no resume |
| ApplicationViewer.OwnResumeUrlWins | frontend/src/pages/Employer/ApplicationViewer.jsx:73 | an application's own resume URL takes precedence over the applicant's |
| ApplicationViewer.DisplayStatus | frontend/src/pages/Employer/ApplicationViewer.jsx:214 | status, else applicationStatus, else "Applied"; never empty |
| JobCard.RoundedThousands | frontend/src/components/Cards/JobCard.jsx:12 | `toFixed(0)` of num/1000 is the integer within half a thousand of the amount, rounding halves up |
| JobCard.FormatNumber | frontend/src/components/Cards/JobCard.jsx:10-14 | "N/A" iff the amount is falsy (absent or 0); otherwise text starting with "$" |
| JobCard.FormatNumberReadsBack | frontend/src/components/Cards/JobCard.jsx:12-13 | the digits after "$" read back as the exact amount below 1000, and otherwise as the thousands within 500 of it, followed by "k" |
| JobCard.FormatSalary | frontend/src/components/Cards/JobCard.jsx:9-16 | always ends in "/m"; a falsy max shows only the min part; otherwise min part, " - ", max part |
| JobCard.SalaryLineStartsWithMin | frontend/src/components/Cards/JobCard.jsx:15 | the min part is always the prefix of the line |
| JobCard.BookmarkOf | frontend/src/components/Cards/JobCard.jsx:53-66 | no bookmark when signed out; otherwise filled iff the listing or the page marks the job saved |
| JobCard.BookmarkAgreesWithRightSide | frontend/src/components/Cards/JobCard.jsx:53-143 | a saved card has a filled bookmark and nothing on the right; an outline bookmark with Apply not hidden always shows the badge or Apply |
| JobCard.RightSideOf | frontend/src/components/Cards/JobCard.jsx:122-143 | a saved card shows nothing; otherwise the status badge iff a non-empty status exists, else Apply unless hidden |
| JobCard.AppliedNeverOffersApply | frontend/src/components/Cards/JobCard.jsx:124-130 | a job already applied to never offers Apply |
| ApplicantCard.NonEmpty | frontend/src/components/Cards/ApplicantdashboardCard.jsx:8-9 | only non-empty segments remain, all from the input |
| ApplicantCard.FirstChars | frontend/src/components/Cards/ApplicantdashboardCard.jsx:9-10 | one character per non-empty segment, its first; empty segments contribute nothing |
| ApplicantCard.GetInitials | frontend/src/components/Cards/ApplicantdashboardCard.jsx:5-12 | a non-string or empty name gives "?"; otherwise the upper-cased first characters of the non-empty space-separated segments, one per segment |
| ApplicantCard.InitialsHaveNoSpace | frontend/src/components/Cards/ApplicantdashboardCard.jsx:7-11 | the initials of a name never contain a space |
| ApplicantCard.ApplicantName | frontend/src/components/Cards/ApplicantdashboardCard.jsx:14 | a present, non-empty name is kept; otherwise "No Name" |
| ApplicantCard.MissingNameInitials | frontend/src/components/Cards/ApplicantdashboardCard.jsx:14-21 | an applicant without a name shows "NN" |
| ImageHelper.BaseUrl | frontend/src/utils/apiPaths.js:1 | a configured non-empty `VITE_API_BASE_URL` is used as is; otherwise the base is the default, an http URL |
| ImageHelper.BaseUrlImagesIdempotent | frontend/src/utils/apiPaths.js:1 | with the default base or an http one, image URLs are stable under a second application of the helper |
| ImageHelper.GetImageUrl | frontend/src/utils/imageHelper.js:8-14 | a falsy path gives ""; a path starting with "http" or "blob:" is returned unchanged; any other gets the base prepended; a non-empty path always ends the result |
| ImageHelper.DefaultBaseIsHttp | frontend/src/utils/apiPaths.js:1 | the default base URL starts with "http" |
| ImageHelper.GetImageUrlIdempotent | frontend/src/utils/imageHelper.js:10-13 | with an http base, applying the helper to its own result changes nothing |
| ProtectedRoute.Decide | frontend/src/routes/ProtectedRoute.jsx:6-28 | loading gives the spinner; otherwise unauthenticated users go to /login carrying the location; a required role the user lacks sends them to "/"; the outlet renders exactly when not loading, authenticated, and the role is not required or matches |
| ProtectedRoute.NoRoleAnyAuthenticatedPasses | frontend/src/routes/ProtectedRoute.jsx:22-27 | without a required role any authenticated user passes |
| ProtectedRoute.MissingRoleRedirected | frontend/src/routes/ProtectedRoute.jsx:22-25 | a user without a role never reaches a page that requires one |
| JsBuiltins.ToLower | frontend/src/pages/Employer/ManageJobs.jsx:37-38 | `toLowerCase` keeps the length and lowers each ASCII capital |
| JsBuiltins.ToLowerIdempotent | frontend/src/pages/Employer/ManageJobs.jsx:37-38 | lowering twice is lowering once |
| JsBuiltins.ToUpper | frontend/src/components/Cards/ApplicantdashboardCard.jsx:11 | `toUpperCase` keeps the length and raises each ASCII lower-case letter |
| JsBuiltins.IncludesIffOccurs | frontend/src/pages/Employer/ManageJobs.jsx:37-38 | `includes` holds iff the substring occurs at some position |
| JsBuiltins.Split | frontend/src/components/Cards/ApplicantdashboardCard.jsx:8 | `split(" ")` gives at least one segment, and no segment contains the separator |
| JsBuiltins.SplitWord | frontend/src/components/Cards/ApplicantdashboardCard.jsx:8 | a word followed by the separator is split off as the first segment |
| JsBuiltins.JoinSplit | frontend/src/components/Cards/ApplicantdashboardCard.jsx:8-10 | joining the segments with the separator gives back the string, so empty segments are kept |
| JsBuiltins.TrimStart | frontend/src/pages/Employer/JobPostingForm.jsx:122 | the result is a suffix that starts with non-whitespace, and only whitespace was removed |
| JsBuiltins.TrimEnd | frontend/src/pages/Employer/JobPostingForm.jsx:122 | the result is a prefix that ends with non-whitespace, and only whitespace was removed |
| JsBuiltins.TrimEmptyIffBlank | frontend/src/pages/Employer/JobPostingForm.jsx:122-125 | `trim()` is empty iff the text is all whitespace |
| JsBuiltins.ParseIntNaN | frontend/src/pages/Employer/JobPostingForm.jsx:128 | `parseInt` fails (NaN) iff no decimal digit follows the leading whitespace and optional sign |
| JsBuiltins.IntToString | frontend/src/components/Cards/JobCard.jsx:12-13 | decimal text, with a minus sign for negatives |
| JsBuiltins.ParseIntOfIntToString | frontend/src/pages/Employer/JobPostingForm.jsx:128 | `parseInt` reads back any integer's decimal text, whatever non-digit text follows |

## Left out

- JobController.GetJobs: requires the keyword and location to hold no regular-expression metacharacters. Under that condition `$regex` with option "i" is a case-insensitive literal substring match. Full regular-expression semantics are not modelled.
- JobController.BuildQuery: the salary parameters arrive already converted to integers. A parameter that `Number` turns into NaN, and non-integer amounts, are not modelled.
- ManageJobs.SortInPlace: the proved result is a sorted permutation. The engine's `Array.prototype.sort` ordering among equal elements (stability) is not modelled.
- ManageJobs.FilteredAndSorted: same as `SortInPlace`; equal rows may come out in a different order than the engine's sort produces.
- ManageJobs.Compare: string `<` compares characters, not UTF-16 code units. The two agree on the Basic Multilingual Plane only.
- JsBuiltins.ToLower: ASCII case mapping only; Unicode case folding is not modelled. The same holds for `JsBuiltins.ToUpper`.
- JsBuiltins.ParseInt: reads decimal digits only. The hexadecimal `0x` prefix that `parseInt` accepts without a radix is not modelled, and whitespace is ASCII whitespace. The result is the exact integer: JavaScript's `parseInt` returns a double, so above 2^53 it rounds to the nearest double, and that rounding is not modelled.
- JsBuiltins.ParseIntOfIntToString: holds for the exact integer. In JavaScript it holds only up to 2^53 in magnitude; beyond that `parseInt` reads back the nearest double.
- JobPostingForm.ValidateForm: compares the two salaries as exact integers. Above 2^53 JavaScript compares rounded doubles, so "9007199254740992" and "9007199254740993" give the "Maximum salary must be greater than minimum salary" error there and no error here.
- JobController.NewJob: the blank values for fields the body leaves out stand for the Job schema's defaults. The schema (backend/models/Job.js) is not part of this model, and a required field missing from the body, for which `Job.create` answers 500, is not modelled.
- JsBuiltins.TrimStart: ASCII whitespace only; `JsBuiltins.TrimEnd` likewise.
- JobCard.FormatNumber: salaries are integers. Fractional amounts, and the exponent notation `toFixed` uses from 1e21 up, are not modelled.
- ApplicantCard.GetInitials: characters outside the Basic Multilingual Plane, where `n[0]` takes half a surrogate pair, are not modelled.
- ApplicationViewer.GroupApplications: `order` is the order in which keys were first added. A JavaScript object enumerates integer-like keys before the others, and that is not modelled.
- JobPostingForm.PostingForm.Prefill: fetched values are strings. A number or undefined from the server is not modelled, nor its effect on `.trim()` and truthiness during validation.
- Error paths through the database: the 500 answers and malformed ids that fail to cast. Ids are natural numbers from the store's counter.
- `populate`, `.lean()`, `toObject()`, `createdAt` and `moment` date formatting, including the `datePosted` column.
- The employer analytics controller is not part of this model. Only its route (backend/routes/analyticsRoutes.js:4) is visible.
- `Promise.all` in the employer listing is modelled as a sequential loop; its concurrency is I/O only.
- Races between concurrent requests are not modelled. An example is two simultaneous saves of one pair, which can leave a duplicate.
- HTTP and Express wiring, authentication middleware, the network client and its local-storage side effects.
- Toasts, navigation, `alert` and `window.open`. The resume button's effect is returned as an action value.
- The submitting and preview flags of the posting form.
- The title and company display fallbacks inside the job card.
- The callers that apply `getImageUrl` twice (the navigation bar and the profile menu) are not part of this model. `ImageHelper.GetImageUrlIdempotent` states why that is harmless.
