// The form logic of frontend/src/pages/Employer/JobPostingForm.jsx: the
// validation that builds an error map field by field, the input handler that
// updates one field and clears its error, and the mapping between the form's
// field names and the job document's.

module JobPostingForm {
  import opened Wrappers
  import opened JsBuiltins

  /** The eight inputs, as the strings the browser holds. */
  datatype FormData = FormData(
    jobTitle: string,
    location: string,
    category: string,
    jobType: string,
    description: string,
    requirements: string,
    salaryMin: string,
    salaryMax: string)

  const EmptyForm := FormData("", "", "", "", "", "", "", "")

  datatype Field = JobTitle | Location | Category | JobType | Description | Requirements | SalaryMin | SalaryMax

  /** The property name `handleInputChange` receives, also the key of the field's error. */
  function FieldName(f: Field): string {
    match f
    case JobTitle => "jobTitle"
    case Location => "location"
    case Category => "category"
    case JobType => "jobType"
    case Description => "description"
    case Requirements => "requirements"
    case SalaryMin => "salaryMin"
    case SalaryMax => "salaryMax"
  }

  function Get(d: FormData, f: Field): string {
    match f
    case JobTitle => d.jobTitle
    case Location => d.location
    case Category => d.category
    case JobType => d.jobType
    case Description => d.description
    case Requirements => d.requirements
    case SalaryMin => d.salaryMin
    case SalaryMax => d.salaryMax
  }

  /** `{ ...prev, [field]: value }`. */
  function With(d: FormData, f: Field, value: string): (r: FormData)
    ensures forall g :: Get(r, g) == if g == f then value else Get(d, g)
  {
    match f
    case JobTitle => d.(jobTitle := value)
    case Location => d.(location := value)
    case Category => d.(category := value)
    case JobType => d.(jobType := value)
    case Description => d.(description := value)
    case Requirements => d.(requirements := value)
    case SalaryMin => d.(salaryMin := value)
    case SalaryMax => d.(salaryMax := value)
  }

  // ---------------------------------------------------------------------------
  // Validation

  const MsgTitle := "Job title is required"
  const MsgLocation := "Location is required"
  const MsgCategory := "Category is required"
  const MsgJobType := "Job type is required"
  const MsgDescription := "Description is required"
  const MsgRequirements := "Requirements are required"
  const MsgSalaryMissing := "Both minimum and maximum salary are required"
  const MsgSalaryOrder := "Maximum salary must be greater than minimum salary"

  /** A key of the error object: a field's own name, or the one "salary" key
      the two salary inputs share. */
  datatype ErrorKey = FieldKey(field: Field) | SalaryKey

  function KeyName(k: ErrorKey): string {
    match k
    case FieldKey(f) => FieldName(f)
    case SalaryKey => "salary"
  }

  /** Distinct keys have distinct names, so the object's keys are modelled faithfully. */
  lemma KeyNamesDistinct(k: ErrorKey, l: ErrorKey)
    ensures KeyName(k) == KeyName(l) <==> k == l
  {
  }

  /** The keys validation may write. */
  const ErrorKeys: set<ErrorKey> :=
    {FieldKey(JobTitle), FieldKey(Location), FieldKey(Category), FieldKey(JobType),
     FieldKey(Description), FieldKey(Requirements), SalaryKey}

  /** JavaScript `a >= b` on two `parseInt` results: false when either is NaN. */
  predicate JsAtLeast(a: Option<int>, b: Option<int>) {
    a.Some? && b.Some? && a.value >= b.value
  }

  /** The message validation puts under `key`, if any. */
  function ErrorFor(d: FormData, key: ErrorKey): Option<string> {
    match key
    case FieldKey(JobTitle) => if d.jobTitle == "" then Some(MsgTitle) else None
    case FieldKey(Location) => if d.location == "" then Some(MsgLocation) else None
    case FieldKey(Category) => if d.category == "" then Some(MsgCategory) else None
    case FieldKey(JobType) => if d.jobType == "" then Some(MsgJobType) else None
    case FieldKey(Description) => if Trim(d.description) == "" then Some(MsgDescription) else None
    case FieldKey(Requirements) => if Trim(d.requirements) == "" then Some(MsgRequirements) else None
    case FieldKey(_) => None
    case SalaryKey =>
      if d.salaryMin == "" || d.salaryMax == "" then Some(MsgSalaryMissing)
      else if JsAtLeast(ParseInt(d.salaryMin), ParseInt(d.salaryMax)) then Some(MsgSalaryOrder)
      else None
  }

  /** The error map validation must produce: one entry per key that has a message. */
  function ExpectedErrors(d: FormData): map<ErrorKey, string> {
    ErrorsOver(d, ErrorKeys)
  }

  /** The entries for the keys in `ks`. */
  function ErrorsOver(d: FormData, ks: set<ErrorKey>): map<ErrorKey, string> {
    map k | k in ks && ErrorFor(d, k).Some? :: ErrorFor(d, k).value
  }

  /** Checking one more key adds its entry, if it has one, and nothing else. */
  lemma ErrorsOverAddKey(d: FormData, ks: set<ErrorKey>, k: ErrorKey)
    ensures ErrorsOver(d, ks + {k}) ==
              if ErrorFor(d, k).Some? then ErrorsOver(d, ks)[k := ErrorFor(d, k).value] else ErrorsOver(d, ks)
  {
  }

  /** A form that passes: every required input filled, the text areas not blank,
      and the salaries not in the wrong order. */
  predicate Complete(d: FormData) {
    && d.jobTitle != "" && d.location != "" && d.category != "" && d.jobType != ""
    && !IsBlank(d.description) && !IsBlank(d.requirements)
    && d.salaryMin != "" && d.salaryMax != ""
    && !JsAtLeast(ParseInt(d.salaryMin), ParseInt(d.salaryMax))
  }

  /** An entry of the error map is the message its key has, and only keys
      with a message have an entry. */
  lemma Entry(d: FormData, k: ErrorKey)
    ensures k in ExpectedErrors(d) <==> k in ErrorKeys && ErrorFor(d, k).Some?
    ensures k in ExpectedErrors(d) ==> ExpectedErrors(d)[k] == ErrorFor(d, k).value
  {
  }

  /** The message of each key, stated on the form's inputs. */
  lemma MessageMeaning(d: FormData)
    ensures ErrorFor(d, FieldKey(JobTitle)).Some? <==> d.jobTitle == ""
    ensures ErrorFor(d, FieldKey(Location)).Some? <==> d.location == ""
    ensures ErrorFor(d, FieldKey(Category)).Some? <==> d.category == ""
    ensures ErrorFor(d, FieldKey(JobType)).Some? <==> d.jobType == ""
    ensures ErrorFor(d, FieldKey(Description)).Some? <==> IsBlank(d.description)
    ensures ErrorFor(d, FieldKey(Requirements)).Some? <==> IsBlank(d.requirements)
    ensures ErrorFor(d, SalaryKey) == Some(MsgSalaryMissing) <==> d.salaryMin == "" || d.salaryMax == ""
    ensures ErrorFor(d, SalaryKey) == Some(MsgSalaryOrder) <==>
              d.salaryMin != "" && d.salaryMax != "" && JsAtLeast(ParseInt(d.salaryMin), ParseInt(d.salaryMax))
    ensures ErrorFor(d, SalaryKey).Some? ==> ErrorFor(d, SalaryKey).value in {MsgSalaryMissing, MsgSalaryOrder}
  {
    assert ErrorFor(d, FieldKey(Description)).Some? <==> Trim(d.description) == "";
    assert ErrorFor(d, FieldKey(Requirements)).Some? <==> Trim(d.requirements) == "";
    TrimEmptyIffBlank(d.description);
    TrimEmptyIffBlank(d.requirements);
  }

  /** What each key of the error map means. */
  lemma ErrorsMeaning(d: FormData)
    ensures var e := ExpectedErrors(d);
      && e.Keys <= ErrorKeys
      && (FieldKey(JobTitle) in e <==> d.jobTitle == "")
      && (FieldKey(Location) in e <==> d.location == "")
      && (FieldKey(Category) in e <==> d.category == "")
      && (FieldKey(JobType) in e <==> d.jobType == "")
      && (FieldKey(Description) in e <==> IsBlank(d.description))
      && (FieldKey(Requirements) in e <==> IsBlank(d.requirements))
      && (SalaryKey in e && e[SalaryKey] == MsgSalaryMissing <==> d.salaryMin == "" || d.salaryMax == "")
      && (SalaryKey in e && e[SalaryKey] == MsgSalaryOrder <==>
            d.salaryMin != "" && d.salaryMax != "" && JsAtLeast(ParseInt(d.salaryMin), ParseInt(d.salaryMax)))
      && (SalaryKey in e ==> e[SalaryKey] in {MsgSalaryMissing, MsgSalaryOrder})
  {
    MessageMeaning(d);
    Entry(d, FieldKey(JobTitle));
    Entry(d, FieldKey(Location));
    Entry(d, FieldKey(Category));
    Entry(d, FieldKey(JobType));
    Entry(d, FieldKey(Description));
    Entry(d, FieldKey(Requirements));
    Entry(d, SalaryKey);
  }

  /** The form is valid exactly when the error map is empty. */
  lemma NoErrorsIffComplete(d: FormData)
    ensures |ExpectedErrors(d)| == 0 <==> Complete(d)
  {
    if Complete(d) {
      CompleteHasNoErrors(d);
    } else {
      var k := IncompleteHasError(d);
      assert ExpectedErrors(d) == ExpectedErrors(d) - {k} + map[k := ExpectedErrors(d)[k]];
    }
  }

  lemma CompleteHasNoErrors(d: FormData)
    requires Complete(d)
    ensures ExpectedErrors(d) == map[]
  {
    TrimEmptyIffBlank(d.description);
    TrimEmptyIffBlank(d.requirements);
    NoMessageNoEntry(d, FieldKey(JobTitle));
    NoMessageNoEntry(d, FieldKey(Location));
    NoMessageNoEntry(d, FieldKey(Category));
    NoMessageNoEntry(d, FieldKey(JobType));
    NoMessageNoEntry(d, FieldKey(Description));
    NoMessageNoEntry(d, FieldKey(Requirements));
    NoMessageNoEntry(d, SalaryKey);
    forall k | k in ExpectedErrors(d) ensures false {
      Entry(d, k);
    }
    assert ExpectedErrors(d).Keys == {};
  }

  lemma NoMessageNoEntry(d: FormData, k: ErrorKey)
    requires ErrorFor(d, k).None?
    ensures k !in ExpectedErrors(d)
  {
    Entry(d, k);
  }

  lemma IncompleteHasError(d: FormData) returns (k: ErrorKey)
    requires !Complete(d)
    ensures k in ExpectedErrors(d)
  {
    MessageMeaning(d);
    k := if d.jobTitle == "" then FieldKey(JobTitle)
      else if d.location == "" then FieldKey(Location)
      else if d.category == "" then FieldKey(Category)
      else if d.jobType == "" then FieldKey(JobType)
      else if IsBlank(d.description) then FieldKey(Description)
      else if IsBlank(d.requirements) then FieldKey(Requirements)
      else SalaryKey;
    Entry(d, k);
  }

  /** Equal salaries are rejected: the maximum must be strictly greater. */
  lemma EqualSalariesRejected(d: FormData, n: int)
    requires d.salaryMin == IntToString(n) && d.salaryMax == IntToString(n)
    ensures SalaryKey in ExpectedErrors(d) && ExpectedErrors(d)[SalaryKey] == MsgSalaryOrder
  {
    ParseIntOfIntToString(n, "");
    assert IntToString(n) + "" == IntToString(n);
    assert ErrorFor(d, SalaryKey) == Some(MsgSalaryOrder);
    Entry(d, SalaryKey);
  }

  /** Two filled salaries that do not parse as numbers raise no salary error. */
  lemma UnparsableSalariesPass(d: FormData)
    requires d.salaryMin != "" && d.salaryMax != "" && ParseInt(d.salaryMin).None?
    ensures SalaryKey !in ExpectedErrors(d)
  {
    assert ErrorFor(d, SalaryKey).None?;
    Entry(d, SalaryKey);
  }

  /** `validateForm`: successive conditional writes into a fresh error object. */
  method ValidateForm(d: FormData) returns (errors: map<ErrorKey, string>)
    ensures errors == ExpectedErrors(d)
  {
    errors := map[];
    ghost var seen: set<ErrorKey> := {};
    errors, seen := SetIf(d, errors, seen, d.jobTitle == "", FieldKey(JobTitle), MsgTitle);
    errors, seen := SetIf(d, errors, seen, d.location == "", FieldKey(Location), MsgLocation);
    errors, seen := SetIf(d, errors, seen, d.category == "", FieldKey(Category), MsgCategory);
    errors, seen := SetIf(d, errors, seen, d.jobType == "", FieldKey(JobType), MsgJobType);
    errors, seen := SetIf(d, errors, seen, Trim(d.description) == "", FieldKey(Description), MsgDescription);
    errors, seen := SetIf(d, errors, seen, Trim(d.requirements) == "", FieldKey(Requirements), MsgRequirements);
    if d.salaryMin == "" || d.salaryMax == "" {
      errors := errors[SalaryKey := MsgSalaryMissing];
    } else if JsAtLeast(ParseInt(d.salaryMin), ParseInt(d.salaryMax)) {
      errors := errors[SalaryKey := MsgSalaryOrder];
    }
    ErrorsOverAddKey(d, seen, SalaryKey);
    AllKeysChecked();
  }

  /** One check of `validateForm`, `if (cond) errors[key] = message`, where
      `message` is `key`'s message exactly when `cond` holds: the map then
      holds the entries of one key more. */
  method SetIf(ghost d: FormData, errors: map<ErrorKey, string>, ghost ks: set<ErrorKey>,
               cond: bool, key: ErrorKey, message: string)
    returns (r: map<ErrorKey, string>, ghost ks': set<ErrorKey>)
    requires errors == ErrorsOver(d, ks)
    requires ErrorFor(d, key) == if cond then Some(message) else None
    ensures r == if cond then errors[key := message] else errors
    ensures ks' == ks + {key} && r == ErrorsOver(d, ks')
  {
    r := if cond then errors[key := message] else errors;
    ErrorsOverAddKey(d, ks, key);
    ks' := ks + {key};
  }

  /** The seven checks of `validateForm` cover every error key. */
  lemma AllKeysChecked()
    ensures {} + {FieldKey(JobTitle)} + {FieldKey(Location)} + {FieldKey(Category)} + {FieldKey(JobType)}
            + {FieldKey(Description)} + {FieldKey(Requirements)} + {SalaryKey} == ErrorKeys
  {
  }

  // ---------------------------------------------------------------------------
  // The payload and the pre-filled form

  /** The job fields as the API names them: `title` and `type` instead of the
      form's `jobTitle` and `jobType`. */
  datatype JobFields = JobFields(
    title: string,
    description: string,
    requirements: string,
    location: string,
    category: string,
    type_: string,
    salaryMin: string,
    salaryMax: string)

  /** `jobPayload` built on submit. */
  function ToPayload(d: FormData): JobFields {
    JobFields(d.jobTitle, d.description, d.requirements, d.location, d.category,
              d.jobType, d.salaryMin, d.salaryMax)
  }

  /** The form filled from a fetched job in edit mode. */
  function FromJob(j: JobFields): FormData {
    FormData(j.title, j.location, j.category, j.type_, j.description, j.requirements,
             j.salaryMin, j.salaryMax)
  }

  /** The two mappings are inverse: editing a job without touching the form
      sends back the same fields, and the form shows what it would send. */
  lemma PayloadRoundTrip(d: FormData, j: JobFields)
    ensures FromJob(ToPayload(d)) == d
    ensures ToPayload(FromJob(j)) == j
    ensures ToPayload(d).title == d.jobTitle && ToPayload(d).type_ == d.jobType
  {
  }

  /** The request submit sends. */
  datatype Request = Post(payload: JobFields) | Put(jobId: string, payload: JobFields)

  /** `{ ...prev, [key]: "" }` when `prev[key]` is truthy, `prev` otherwise. */
  function ClearError(errors: map<ErrorKey, string>, key: ErrorKey): (r: map<ErrorKey, string>)
    ensures r.Keys == errors.Keys
    ensures forall k :: k in r ==> r[k] == if k == key then "" else errors[k]
  {
    if key in errors && errors[key] != "" then errors[key := ""] else errors
  }

  /** Editing a salary input never clears the shared "salary" error, since
      neither input is named "salary". */
  lemma SalaryEditKeepsSalaryError(errors: map<ErrorKey, string>, f: Field)
    requires SalaryKey in errors
    ensures ClearError(errors, FieldKey(f))[SalaryKey] == errors[SalaryKey]
  {
  }

  class PostingForm {
    var formData: FormData
    var errors: map<ErrorKey, string>
    const jobId: Option<string>

    constructor (state: Option<string>)
      ensures formData == EmptyForm && errors == map[]
      ensures jobId == OrNull(state)
    {
      formData := EmptyForm;
      errors := map[];
      jobId := OrNull(state);
    }

    /** `handleInputChange(field, value)`. */
    method HandleInputChange(field: Field, value: string)
      modifies this
      ensures formData == With(old(formData), field, value)
      ensures errors == ClearError(old(errors), FieldKey(field))
    {
      formData := With(formData, field, value);
      errors := ClearError(errors, FieldKey(field));
    }

    /** `isFormValid()`. */
    method IsFormValid() returns (b: bool)
      ensures b <==> Complete(formData)
    {
      var v := ValidateForm(formData);
      NoErrorsIffComplete(formData);
      b := |v| == 0;
    }

    /** `handleSubmit`: on errors, only store them and send nothing; otherwise
        a PUT to the job being edited, or a POST. */
    method HandleSubmit() returns (req: Option<Request>)
      modifies this`errors
      ensures !Complete(formData) ==> req == None && errors == ExpectedErrors(formData)
      ensures Complete(formData) ==> errors == old(errors) && req.Some?
      ensures Complete(formData) && jobId.Some? ==> req == Some(Put(jobId.value, ToPayload(formData)))
      ensures Complete(formData) && jobId.None? ==> req == Some(Post(ToPayload(formData)))
    {
      var v := ValidateForm(formData);
      NoErrorsIffComplete(formData);
      if |v| > 0 {
        errors := v;
        return None;
      }
      var payload := ToPayload(formData);
      req := if jobId.Some? then Some(Put(jobId.value, payload)) else Some(Post(payload));
    }

    /** A 200 or 201 reply empties the form; any other reply leaves it. */
    method SubmitReplied(status: int)
      modifies this`formData
      ensures formData == if status == 200 || status == 201 then EmptyForm else old(formData)
    {
      if status == 200 || status == 201 {
        formData := EmptyForm;
      }
    }

    /** The fetched job in edit mode fills the form. */
    method Prefill(job: Option<JobFields>)
      modifies this`formData
      ensures job.Some? ==> formData == FromJob(job.value) && ToPayload(formData) == job.value
      ensures job.None? ==> formData == old(formData)
    {
      if job.Some? {
        formData := FromJob(job.value);
      }
    }
  }
}
