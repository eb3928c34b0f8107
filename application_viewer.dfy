// The list logic of frontend/src/pages/Employer/ApplicationViewer.jsx: the
// applications are filtered, then folded into groups keyed by their job; a
// resume button picks the first URL present; the badge shows a default status.

module ApplicationViewer {
  import opened Wrappers
  import opened JsBuiltins

  datatype JobRef = JobRef(mongoId: Option<string>, title: Option<string>)
  datatype ApplicantRef = ApplicantRef(resume: Option<string>, resumeUrl: Option<string>)

  /** One element of the fetched array, with only the fields the page reads. */
  datatype AppRecord = AppRecord(
    job: Option<JobRef>,
    applicant: Option<ApplicantRef>,
    resumeUrl: Option<string>,
    status: Option<string>,
    applicationStatus: Option<string>)

  /** `app && app.job && app.job.title`. */
  predicate Retained(app: Option<AppRecord>) {
    app.Some? && app.value.job.Some? && Truthy(app.value.job.value.title)
  }

  /** The applications that survive the filter, each as often as it occurs. */
  function Retain(apps: seq<Option<AppRecord>>): (r: seq<AppRecord>)
    ensures forall x :: x in r ==> Retained(Some(x))
  {
    if apps == [] then []
    else (if Retained(apps[0]) then [apps[0].value] else []) + Retain(apps[1..])
  }

  /** Every retained application is kept, as often as it occurs, and only those. */
  lemma {:induction false} RetainCounts(apps: seq<Option<AppRecord>>)
    ensures forall x :: multiset(Retain(apps))[x] == if Retained(Some(x)) then multiset(apps)[Some(x)] else 0
  {
    if apps != [] {
      assert apps == [apps[0]] + apps[1..];
      RetainCounts(apps[1..]);
    }
  }

  /** `app?.job?._id || app?.job?.title || "unknown"`. */
  function GroupKey(app: AppRecord): string {
    if app.job.Some? && Truthy(app.job.value.mongoId) then app.job.value.mongoId.value
    else if app.job.Some? && Truthy(app.job.value.title) then app.job.value.title.value
    else "unknown"
  }

  /** A retained application is keyed by its job id, else by its title, never "unknown"
      unless that is the id or title itself. */
  lemma RetainedKey(app: AppRecord)
    requires Retained(Some(app))
    ensures GroupKey(app) == if Truthy(app.job.value.mongoId) then app.job.value.mongoId.value
                             else app.job.value.title.value
    ensures GroupKey(app) != ""
  {
  }

  /** The applications with key `k`, in input order. */
  function WithKey(s: seq<AppRecord>, k: string): (r: seq<AppRecord>)
    ensures |r| <= |s|
    ensures forall x :: x in r ==> x in s && GroupKey(x) == k
    ensures forall x :: x in s && GroupKey(x) == k ==> x in r
  {
    if s == [] then []
    else WithKey(s[..|s| - 1], k) + (if GroupKey(s[|s| - 1]) == k then [s[|s| - 1]] else [])
  }

  predicate Distinct(ks: seq<string>) {
    forall i, j :: 0 <= i < j < |ks| ==> ks[i] != ks[j]
  }

  /** The keys in order of first appearance: the order in which the fold adds
      them to its accumulator. */
  function Order(s: seq<AppRecord>): (r: seq<string>)
    ensures Distinct(r)
    ensures forall k :: k in r <==> WithKey(s, k) != []
  {
    if s == [] then []
    else
      var p := Order(s[..|s| - 1]);
      var k := GroupKey(s[|s| - 1]);
      if k in p then p else p + [k]
  }

  /** One more application extends its own key's group and no other. */
  lemma WithKeySnoc(p: seq<AppRecord>, x: AppRecord, k: string)
    ensures WithKey(p + [x], k) == WithKey(p, k) + (if GroupKey(x) == k then [x] else [])
  {
    assert (p + [x])[..|p|] == p;
  }

  /** One more application adds its key to the order when the key is new. */
  lemma OrderSnoc(p: seq<AppRecord>, x: AppRecord)
    ensures Order(p + [x]) == if GroupKey(x) in Order(p) then Order(p) else Order(p) + [GroupKey(x)]
  {
    assert (p + [x])[..|p|] == p;
  }

  datatype Group = Group(job: JobRef, applications: seq<AppRecord>)

  /** The group under key `k` after folding `p`: the applications with that
      key, in order, at least one, and the job of the first. */
  predicate GroupOk(g: Group, p: seq<AppRecord>, k: string) {
    && g.applications == WithKey(p, k)
    && g.applications != []
    && Some(g.job) == g.applications[0].job
  }

  /** `groups` and `order` are the accumulator after folding `p`. */
  ghost predicate Grouped(groups: map<string, Group>, order: seq<string>, p: seq<AppRecord>) {
    && order == Order(p)
    && (forall k :: k in groups <==> k in order)
    && (forall k :: k in groups ==> GroupOk(groups[k], p, k))
  }

  /** Pushing an application whose key already has a group. */
  lemma PushExisting(groups: map<string, Group>, order: seq<string>, p: seq<AppRecord>, x: AppRecord)
    requires Grouped(groups, order, p) && GroupKey(x) in groups
    ensures var key := GroupKey(x);
      Grouped(groups[key := groups[key].(applications := groups[key].applications + [x])], order, p + [x])
  {
    var key := GroupKey(x);
    var h := groups[key := groups[key].(applications := groups[key].applications + [x])];
    forall k | k in h ensures GroupOk(h[k], p + [x], k) {
      if k == key {
        WithKeySnoc(p, x, k);
        assert GroupOk(groups[k], p, k);
      } else {
        OtherGroupOk(groups, order, p, x, k);
      }
    }
    OrderSnoc(p, x);
    assert order == Order(p + [x]);
    assert forall k :: k in h <==> k in order;
    assert Grouped(h, order, p + [x]);
  }

  /** A group under another key than the pushed application's is still right. */
  lemma OtherGroupOk(groups: map<string, Group>, order: seq<string>, p: seq<AppRecord>, x: AppRecord, k: string)
    requires Grouped(groups, order, p) && k in groups && k != GroupKey(x)
    ensures GroupOk(groups[k], p + [x], k)
  {
    WithKeySnoc(p, x, k);
  }

  /** The one-application group of a key not seen before is right. */
  lemma NewGroupOk(p: seq<AppRecord>, x: AppRecord)
    requires GroupKey(x) !in Order(p) && x.job.Some?
    ensures GroupOk(Group(x.job.value, [x]), p + [x], GroupKey(x))
  {
    WithKeySnoc(p, x, GroupKey(x));
  }

  /** Creating the group of a new key, then pushing the application into it. */
  lemma PushNew(groups: map<string, Group>, order: seq<string>, p: seq<AppRecord>, x: AppRecord)
    requires Grouped(groups, order, p) && GroupKey(x) !in groups && x.job.Some?
    ensures var key := GroupKey(x);
      var g := groups[key := Group(x.job.value, [])];
      Grouped(g[key := g[key].(applications := g[key].applications + [x])], order + [key], p + [x])
  {
    var key := GroupKey(x);
    var g := groups[key := Group(x.job.value, [])];
    var h := g[key := g[key].(applications := g[key].applications + [x])];
    assert h[key] == Group(x.job.value, [x]) by {
      assert g[key].applications + [x] == [x];
    }
    forall k | k in h ensures GroupOk(h[k], p + [x], k) {
      if k == key {
        NewGroupOk(p, x);
      } else {
        assert h[k] == groups[k];
        OtherGroupOk(groups, order, p, x, k);
      }
    }
    OrderSnoc(p, x);
    assert order + [key] == Order(p + [x]);
    assert forall k :: k in h <==> k in order + [key];
    assert Grouped(h, order + [key], p + [x]);
  }

  /** `groupedApplications`: the filter, then the reduce that creates a group on
      the first application of each key and pushes every application into its
      key's group. */
  method GroupApplications(apps: seq<Option<AppRecord>>) returns (groups: map<string, Group>, order: seq<string>)
    ensures var s := Retain(apps);
      && order == Order(s)
      && (forall k :: k in groups <==> k in order)
      && (forall k :: k in groups ==>
            && groups[k].applications == WithKey(s, k)
            && groups[k].applications != []
            && Some(groups[k].job) == groups[k].applications[0].job)
  {
    var s := Retain(apps);
    groups := map[];
    order := [];
    var i := 0;
    while i < |s|
      invariant 0 <= i <= |s|
      invariant Grouped(groups, order, s[..i])
    {
      var app := s[i];
      assert s[..i + 1] == s[..i] + [app];
      assert app in s;
      groups, order := AddToGroup(groups, order, s[..i], app);
      i := i + 1;
    }
    assert s[..|s|] == s;
  }

  /** The reduce callback: creates the group of a new key, recording the key,
      then pushes the application into its key's group. */
  method AddToGroup(groups: map<string, Group>, order: seq<string>, ghost p: seq<AppRecord>, app: AppRecord)
    returns (groups': map<string, Group>, order': seq<string>)
    requires Grouped(groups, order, p) && app.job.Some?
    ensures Grouped(groups', order', p + [app])
  {
    var key := GroupKey(app);
    groups', order' := groups, order;
    if key !in groups' {
      PushNew(groups, order, p, app);
      groups' := groups'[key := Group(app.job.value, [])];
      order' := order' + [key];
    } else {
      PushExisting(groups, order, p, app);
    }
    groups' := groups'[key := groups'[key].(applications := groups'[key].applications + [app])];
  }

  /** The sizes of the groups over a list of keys. */
  function SumSizes(s: seq<AppRecord>, ks: seq<string>): nat {
    if ks == [] then 0 else SumSizes(s, ks[..|ks| - 1]) + |WithKey(s, ks[|ks| - 1])|
  }

  /** One more application adds one to the group of its key and nothing else. */
  lemma {:induction false} SumSizesSnoc(s: seq<AppRecord>, x: AppRecord, ks: seq<string>)
    requires Distinct(ks)
    ensures SumSizes(s + [x], ks) == SumSizes(s, ks) + (if GroupKey(x) in ks then 1 else 0)
  {
    assert (s + [x])[..|s|] == s;
    if ks != [] {
      var init := ks[..|ks| - 1];
      assert Distinct(init);
      SumSizesSnoc(s, x, init);
      assert GroupKey(x) in ks <==> GroupKey(x) in init || GroupKey(x) == ks[|ks| - 1];
      assert ks[|ks| - 1] !in init;
    }
  }

  /** Every retained application lands in exactly one group: the sizes add up. */
  lemma {:induction false} GroupSizesSum(s: seq<AppRecord>)
    ensures SumSizes(s, Order(s)) == |s|
  {
    if s != [] {
      var p := s[..|s| - 1];
      var x := s[|s| - 1];
      assert s == p + [x];
      GroupSizesSum(p);
      SumSizesSnoc(p, x, Order(p));
      if GroupKey(x) !in Order(p) {
        var ks := Order(p) + [GroupKey(x)];
        assert ks[..|ks| - 1] == Order(p);
        assert WithKey(p, GroupKey(x)) == [];
      }
    }
  }

  /** Two different keys never share an application. */
  lemma GroupsDisjoint(s: seq<AppRecord>, k: string, l: string, x: AppRecord)
    requires k != l && x in WithKey(s, k)
    ensures x !in WithKey(s, l)
  {
  }

  // ---------------------------------------------------------------------------
  // Resume selection and status badge

  /** The argument of `handleDownloadResume`, by its JavaScript type. */
  datatype ResumeArg =
    | Falsy                  // null, undefined, 0, false
    | Text(url: string)      // a string, possibly empty
    | Object(app: AppRecord)
    | OtherValue             // a non-zero number or `true`

  datatype ResumeAction = Open(url: string) | NoResume

  /** The first truthy entry, as `a || b || c` picks it. */
  function FirstTruthy(cs: seq<Option<string>>): (r: Option<string>)
    ensures r.Some? <==> exists i :: 0 <= i < |cs| && Truthy(cs[i])
    ensures r.Some? ==> exists i :: 0 <= i < |cs| && cs[i] == r && Truthy(cs[i]) &&
                                    forall j :: 0 <= j < i ==> !Truthy(cs[j])
  {
    if cs == [] then None
    else if Truthy(cs[0]) then cs[0]
    else
      FirstTruthy(cs[1..])
  }

  /** In precedence order: the application's own `resumeUrl`, then the
      applicant's `resume`, then the applicant's `resumeUrl`. */
  function ResumeCandidates(app: AppRecord): seq<Option<string>> {
    [app.resumeUrl,
     if app.applicant.Some? then app.applicant.value.resume else None,
     if app.applicant.Some? then app.applicant.value.resumeUrl else None]
  }

  function DownloadResume(arg: ResumeArg): (r: ResumeAction)
    ensures arg.Falsy? || arg.OtherValue? ==> r == NoResume
    ensures arg.Text? ==> r == if arg.url == "" then NoResume else Open(arg.url)
    ensures arg.Object? ==> (r == NoResume <==> forall c :: c in ResumeCandidates(arg.app) ==> !Truthy(c))
    ensures arg.Object? && r.Open? ==> Some(r.url) == FirstTruthy(ResumeCandidates(arg.app))
    ensures r.Open? ==> r.url != ""
  {
    match arg
    case Falsy => NoResume
    case Text(u) => if u == "" then NoResume else Open(u)
    case Object(app) =>
      var url := FirstTruthy(ResumeCandidates(app));
      if url.None? then NoResume else Open(url.value)
    case OtherValue => NoResume
  }

  /** The resume URL of an application object wins over the applicant's. */
  lemma OwnResumeUrlWins(app: AppRecord)
    requires Truthy(app.resumeUrl)
    ensures DownloadResume(Object(app)) == Open(app.resumeUrl.value)
  {
  }

  /** `app.status || app.applicationStatus || "Applied"`. */
  function DisplayStatus(app: AppRecord): (r: string)
    ensures r != ""
    ensures Truthy(app.status) ==> r == app.status.value
    ensures !Truthy(app.status) && Truthy(app.applicationStatus) ==> r == app.applicationStatus.value
    ensures !Truthy(app.status) && !Truthy(app.applicationStatus) ==> r == "Applied"
  {
    var cs := [app.status, app.applicationStatus];
    assert cs[0] == app.status && cs[1] == app.applicationStatus;
    FirstTruthy(cs).GetOr("Applied")
  }
}
