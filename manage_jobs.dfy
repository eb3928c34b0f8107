// The list logic of frontend/src/pages/Employer/ManageJobs.jsx: formatting of
// the employer's jobs, the search and status filter, the comparator sort done
// in place on a fresh array, pagination by 8, and the page's state updates.

module ManageJobs {
  import opened Wrappers
  import opened JsBuiltins

  // ---------------------------------------------------------------------------
  // Formatting the employer listing (getPostedJobs)

  /** One element of the employer listing as the browser receives it. */
  datatype RawJob = RawJob(
    mongoId: Option<string>,
    id: Option<string>,
    title: Option<string>,
    ownerName: Option<string>,      // `job.company?.name`
    companyLogo: Option<string>,
    isClosed: bool,
    applicationCount: Option<int>)

  /** A row of the table. The posting date, formatted by moment, is left out. */
  datatype FormattedJob = FormattedJob(
    id: Option<string>,
    title: Option<string>,
    company: string,
    status: string,
    applicants: int,
    logo: Option<string>)

  function FormatJob(raw: RawJob): (f: FormattedJob)
    ensures f.status == "Closed" <==> raw.isClosed
    ensures f.status == (if raw.isClosed then "Closed" else "Active")
    ensures f.applicants == raw.applicationCount.GetOr(0)
    ensures f.id == if Truthy(raw.mongoId) then raw.mongoId else raw.id
    ensures f.company != ""
    ensures f.title == raw.title && f.logo == raw.companyLogo
  {
    FormattedJob(
      if Truthy(raw.mongoId) then raw.mongoId else raw.id,
      raw.title,
      if Truthy(raw.ownerName) then raw.ownerName.value else "—",
      if raw.isClosed then "Closed" else "Active",
      if raw.applicationCount.Some? && raw.applicationCount.value != 0 then raw.applicationCount.value else 0,
      raw.companyLogo)
  }

  /** How the employer listing request ends: a reply with its status and
      array, or no reply at all (a timeout or a network failure). */
  datatype Fetch = Reply(status: int, data: seq<RawJob>) | NoReply

  /** axios resolves a reply with a 2xx status and rejects everything else;
      the response interceptor passes a rejection on unchanged. */
  predicate Resolved(f: Fetch) {
    f.Reply? && 200 <= f.status < 300
  }

  /** The jobs the page holds after a fetch, starting from `prev`: a rejected
      request only reaches the `catch`, which logs, so the rows stay; a resolved
      200 with a non-empty array gives the formatted rows; any other resolved
      reply clears the table. */
  function LoadedJobs(prev: seq<FormattedJob>, f: Fetch): (r: seq<FormattedJob>)
    ensures !Resolved(f) ==> r == prev
    ensures Resolved(f) && f.status == 200 ==>
              |r| == |f.data| && forall i :: 0 <= i < |r| ==> r[i] == FormatJob(f.data[i])
    ensures Resolved(f) && f.status != 200 ==> r == []
  {
    if !Resolved(f) then prev
    else if f.status == 200 && |f.data| > 0 then FormatAll(f.data)
    else []
  }

  function FormatAll(data: seq<RawJob>): (r: seq<FormattedJob>)
    ensures |r| == |data|
    ensures forall i :: 0 <= i < |r| ==> r[i] == FormatJob(data[i])
  {
    if data == [] then [] else [FormatJob(data[0])] + FormatAll(data[1..])
  }

  // ---------------------------------------------------------------------------
  // Search and status filter

  predicate MatchesSearch(job: FormattedJob, term: string) {
    || (job.title.Some? && Includes(ToLower(job.title.value), ToLower(term)))
    || Includes(ToLower(job.company), ToLower(term))
  }

  predicate MatchesStatus(job: FormattedJob, statusFilter: string) {
    statusFilter == "All" || job.status == statusFilter
  }

  predicate Keep(job: FormattedJob, term: string, statusFilter: string) {
    MatchesSearch(job, term) && MatchesStatus(job, statusFilter)
  }

  /** `jobs.filter(...)`: the kept jobs, each as often as in the input. */
  function FilterJobs(jobs: seq<FormattedJob>, term: string, statusFilter: string): (r: seq<FormattedJob>)
    ensures |r| <= |jobs|
    ensures forall x :: multiset(r)[x] == if Keep(x, term, statusFilter) then multiset(jobs)[x] else 0
  {
    if jobs == [] then []
    else
      assert jobs == [jobs[0]] + jobs[1..];
      (if Keep(jobs[0], term, statusFilter) then [jobs[0]] else []) + FilterJobs(jobs[1..], term, statusFilter)
  }

  /** An empty search with "All" keeps every job: the company is always a string. */
  lemma {:induction false} EmptySearchKeepsAll(jobs: seq<FormattedJob>)
    ensures FilterJobs(jobs, "", "All") == jobs
  {
    if jobs != [] {
      IncludesEmpty(ToLower(jobs[0].company));
      assert Keep(jobs[0], "", "All");
      EmptySearchKeepsAll(jobs[1..]);
    }
  }

  // ---------------------------------------------------------------------------
  // The comparator

  datatype SortField = Title | Status | Applicants
  datatype Direction = Asc | Desc

  /** A normalized sort key: `Number(v || 0)` for applicants, `v ?? ""` otherwise. */
  datatype SortValue = Num(n: int) | Str(s: string)

  function KeyOf(job: FormattedJob, field: SortField): SortValue {
    match field
    case Applicants => Num(job.applicants)
    case Title => Str(job.title.GetOr(""))
    case Status => Str(job.status)
  }

  /** JavaScript `<` on two strings: code-unit lexicographic order. */
  predicate StrLess(a: string, b: string)
    decreases |a|
  {
    if a == [] then b != []
    else if b == [] then false
    else if a[0] != b[0] then a[0] < b[0]
    else StrLess(a[1..], b[1..])
  }

  /** JavaScript `<` on two keys of the same field. */
  predicate Less(v: SortValue, w: SortValue) {
    match (v, w)
    case (Num(x), Num(y)) => x < y
    case (Str(x), Str(y)) => StrLess(x, y)
    case _ => false
  }

  /** The comparator passed to `sort`: positive when `a` must come after `b`. */
  function Compare(a: FormattedJob, b: FormattedJob, field: SortField, dir: Direction): (c: int)
    ensures c in {-1, 0, 1}
  {
    var x, y := KeyOf(a, field), KeyOf(b, field);
    match dir
    case Asc => if Less(y, x) then 1 else if Less(x, y) then -1 else 0
    case Desc => if Less(x, y) then 1 else if Less(y, x) then -1 else 0
  }

  lemma {:induction false} StrLessIrreflexive(a: string)
    ensures !StrLess(a, a)
  {
    if a != [] { StrLessIrreflexive(a[1..]); }
  }

  lemma {:induction false} StrLessAsymmetric(a: string, b: string)
    ensures StrLess(a, b) ==> !StrLess(b, a)
    decreases |a|
  {
    if a != [] && b != [] && a[0] == b[0] { StrLessAsymmetric(a[1..], b[1..]); }
  }

  lemma {:induction false} StrLessTransitive(a: string, b: string, c: string)
    requires StrLess(a, b) && StrLess(b, c)
    ensures StrLess(a, c)
    decreases |a|
  {
    if a != [] && b != [] && c != [] && a[0] == b[0] && b[0] == c[0] {
      StrLessTransitive(a[1..], b[1..], c[1..]);
    }
  }

  lemma {:induction false} StrLessTotal(a: string, b: string)
    ensures a == b || StrLess(a, b) || StrLess(b, a)
    decreases |a|
  {
    if a != [] && b != [] && a[0] == b[0] {
      StrLessTotal(a[1..], b[1..]);
      if a[1..] == b[1..] {
        assert a == [a[0]] + a[1..] && b == [b[0]] + b[1..];
      }
    }
  }

  /** If the comparator puts `a` after `b`, it puts `b` before `a`. */
  lemma CompareAntisymmetric(a: FormattedJob, b: FormattedJob, field: SortField, dir: Direction)
    ensures Compare(a, b, field, dir) > 0 ==> Compare(b, a, field, dir) < 0
  {
    var x, y := KeyOf(a, field), KeyOf(b, field);
    if x.Str? && y.Str? {
      StrLessAsymmetric(x.s, y.s);
    }
  }

  /** "Not after" is transitive, since `<` on the keys is a strict total order. */
  lemma CompareTransitive(a: FormattedJob, b: FormattedJob, c: FormattedJob, field: SortField, dir: Direction)
    requires Compare(a, b, field, dir) <= 0 && Compare(b, c, field, dir) <= 0
    ensures Compare(a, c, field, dir) <= 0
  {
    var x, y, z := KeyOf(a, field), KeyOf(b, field), KeyOf(c, field);
    if field != Applicants {
      StrLessTotal(x.s, y.s); StrLessTotal(y.s, z.s);
      StrLessAsymmetric(x.s, z.s); StrLessIrreflexive(x.s);
      if StrLess(x.s, y.s) && StrLess(y.s, z.s) { StrLessTransitive(x.s, y.s, z.s); }
      if StrLess(y.s, x.s) && StrLess(z.s, y.s) { StrLessTransitive(z.s, y.s, x.s); }
    }
  }

  /** Each neighbour pair is in comparator order. */
  ghost predicate AdjacentOrdered(s: seq<FormattedJob>, field: SortField, dir: Direction) {
    forall k :: 0 < k < |s| ==> Compare(s[k - 1], s[k], field, dir) <= 0
  }

  /** Neighbour order gives the order of every pair. */
  lemma {:induction false} AdjacentOrderedIsSorted(s: seq<FormattedJob>, field: SortField, dir: Direction, i: int, j: int)
    requires AdjacentOrdered(s, field, dir)
    requires 0 <= i < j < |s|
    ensures Compare(s[i], s[j], field, dir) <= 0
    decreases j - i
  {
    if j > i + 1 {
      AdjacentOrderedIsSorted(s, field, dir, i, j - 1);
      CompareTransitive(s[i], s[j - 1], s[j], field, dir);
    }
  }

  /** Ascending: keys never decrease; descending: keys never increase. */
  lemma OrderedMeansMonotone(s: seq<FormattedJob>, field: SortField, dir: Direction, k: int)
    requires AdjacentOrdered(s, field, dir) && 0 < k < |s|
    ensures dir == Asc ==> !Less(KeyOf(s[k], field), KeyOf(s[k - 1], field))
    ensures dir == Desc ==> !Less(KeyOf(s[k - 1], field), KeyOf(s[k], field))
  {
    assert Compare(s[k - 1], s[k], field, dir) <= 0;
  }

  /** Exchanges two cells; the contents stay the same multiset. */
  method Swap(a: array<FormattedJob>, i: int, j: int)
    requires 0 <= i < a.Length && 0 <= j < a.Length
    modifies a
    ensures a[..] == old(a[..])[i := old(a[j])][j := old(a[i])]
    ensures multiset(a[..]) == multiset(old(a[..]))
  {
    a[i], a[j] := a[j], a[i];
  }

  /** The neighbour pairs among the first `n` cells are in comparator order. */
  ghost predicate OrderedUpTo(s: seq<FormattedJob>, n: int, field: SortField, dir: Direction)
    requires n <= |s|
  {
    forall k :: 0 < k < n ==> Compare(s[k - 1], s[k], field, dir) <= 0
  }

  /** Moves `a[i]` leftwards past every neighbour the comparator puts after it. */
  method SiftDown(a: array<FormattedJob>, i: int, field: SortField, dir: Direction)
    requires 0 <= i < a.Length
    requires OrderedUpTo(a[..], i, field, dir)
    modifies a
    ensures multiset(a[..]) == multiset(old(a[..]))
    ensures OrderedUpTo(a[..], i + 1, field, dir)
  {
    var j := i;
    while j > 0 && Compare(a[j - 1], a[j], field, dir) > 0
      invariant 0 <= j <= i
      invariant multiset(a[..]) == multiset(old(a[..]))
      invariant OrderedBut(a[..], i, j, field, dir)
    {
      ghost var before := a[..];
      CompareAntisymmetric(a[j - 1], a[j], field, dir);
      Swap(a, j - 1, j);
      SwapKeepsOrder(before, a[..], i, j, field, dir);
      j := j - 1;
    }
    GapClosed(a[..], i, j, field, dir);
  }

  /** The neighbour pairs up to `i` are ordered except the one ending at `j`,
      and the cells on either side of `j` are ordered with each other. */
  ghost predicate OrderedBut(s: seq<FormattedJob>, i: int, j: int, field: SortField, dir: Direction)
    requires 0 <= j <= i < |s|
  {
    && (forall k :: 0 < k <= i && k != j ==> Compare(s[k - 1], s[k], field, dir) <= 0)
    && (0 < j < i ==> Compare(s[j - 1], s[j + 1], field, dir) <= 0)
  }

  /** Swapping the out-of-order pair ending at `j` moves the gap one cell left. */
  lemma SwapKeepsOrder(s: seq<FormattedJob>, t: seq<FormattedJob>, i: int, j: int, field: SortField, dir: Direction)
    requires 0 < j <= i < |s| && OrderedBut(s, i, j, field, dir)
    requires Compare(s[j], s[j - 1], field, dir) < 0
    requires t == s[j - 1 := s[j]][j := s[j - 1]]
    ensures OrderedBut(t, i, j - 1, field, dir)
  {
    forall k | 0 < k <= i && k != j - 1
      ensures Compare(t[k - 1], t[k], field, dir) <= 0
    {
      if k == j {
      } else if k == j + 1 {
      } else {
        assert t[k - 1] == s[k - 1] && t[k] == s[k];
      }
    }
    if 0 < j - 1 {
      assert t[j - 2] == s[j - 2] && t[j] == s[j - 1];
    }
  }

  /** Once the pair ending at `j` is in order too, the first `i + 1` cells are. */
  lemma GapClosed(s: seq<FormattedJob>, i: int, j: int, field: SortField, dir: Direction)
    requires 0 <= j <= i < |s| && OrderedBut(s, i, j, field, dir)
    requires j > 0 ==> Compare(s[j - 1], s[j], field, dir) <= 0
    ensures OrderedUpTo(s, i + 1, field, dir)
  {
  }

  /** `filtered.sort(cmp)`: insertion sort by adjacent swaps, in place. */
  method SortInPlace(a: array<FormattedJob>, field: SortField, dir: Direction)
    modifies a
    ensures multiset(a[..]) == multiset(old(a[..]))
    ensures AdjacentOrdered(a[..], field, dir)
  {
    var i := 0;
    while i < a.Length
      invariant 0 <= i <= a.Length
      invariant multiset(a[..]) == multiset(old(a[..]))
      invariant OrderedUpTo(a[..], i, field, dir)
    {
      SiftDown(a, i, field, dir);
      i := i + 1;
    }
  }

  /** `filteredAndSortedJobs`: exactly the kept jobs, as often as in the input,
      in comparator order. */
  method FilteredAndSorted(jobs: seq<FormattedJob>, term: string, statusFilter: string,
                           field: SortField, dir: Direction) returns (r: seq<FormattedJob>)
    ensures multiset(r) == multiset(FilterJobs(jobs, term, statusFilter))
    ensures forall x :: multiset(r)[x] == if Keep(x, term, statusFilter) then multiset(jobs)[x] else 0
    ensures AdjacentOrdered(r, field, dir)
  {
    var filtered := FilterJobs(jobs, term, statusFilter);
    var a := new FormattedJob[|filtered|](i requires 0 <= i < |filtered| => filtered[i]);
    assert a[..] == filtered;
    SortInPlace(a, field, dir);
    r := a[..];
  }

  // ---------------------------------------------------------------------------
  // Pagination

  const ItemsPerPage: nat := 8

  /** `Math.max(1, Math.ceil(n / 8))`. */
  function TotalPages(n: nat): (t: nat)
    ensures t >= 1
    ensures n == 0 ==> t == 1
    ensures n > 0 ==> (t - 1) * ItemsPerPage < n <= t * ItemsPerPage
  {
    if n == 0 then 1 else (n + ItemsPerPage - 1) / ItemsPerPage
  }

  function StartIndex(page: int): int {
    (page - 1) * ItemsPerPage
  }

  /** `list.slice(start, start + 8)` for a first page or later. */
  function PageItems<T>(list: seq<T>, page: int): (r: seq<T>)
    requires page >= 1
    ensures |r| <= ItemsPerPage
    ensures |r| == if StartIndex(page) >= |list| then 0 else Min(ItemsPerPage, |list| - StartIndex(page))
    ensures forall i :: 0 <= i < |r| ==> r[i] == list[StartIndex(page) + i]
  {
    var start := StartIndex(page);
    if start >= |list| then [] else list[start..Min(start + ItemsPerPage, |list|)]
  }

  function Min(a: int, b: int): int { if a <= b then a else b }

  /** Pages 1..k laid end to end. */
  function Pages<T>(list: seq<T>, k: nat): seq<T> {
    if k == 0 then [] else Pages(list, k - 1) + PageItems(list, k)
  }

  /** The pages cover the list, in order, with no gap and no overlap. */
  lemma {:induction false} PagesPartitionList<T>(list: seq<T>)
    ensures Pages(list, TotalPages(|list|)) == list
  {
    var n := TotalPages(|list|);
    PagesArePrefix(list, n);
    assert Min(n * ItemsPerPage, |list|) == |list|;
  }

  lemma {:induction false} PagesArePrefix<T>(list: seq<T>, k: nat)
    ensures Pages(list, k) == list[..Min(k * ItemsPerPage, |list|)]
  {
    if k > 0 {
      PagesArePrefix(list, k - 1);
      var lo := Min((k - 1) * ItemsPerPage, |list|);
      var hi := Min(k * ItemsPerPage, |list|);
      PageIsSlice(list, k);
      PrefixThenSlice(list, lo, hi);
    }
  }

  /** Page k is the slice between the ends of pages k - 1 and k. */
  lemma PageIsSlice<T>(list: seq<T>, k: nat)
    requires k > 0
    ensures PageItems(list, k) == list[Min((k - 1) * ItemsPerPage, |list|)..Min(k * ItemsPerPage, |list|)]
  {
  }

  lemma PrefixThenSlice<T>(s: seq<T>, lo: int, hi: int)
    requires 0 <= lo <= hi <= |s|
    ensures s[..lo] + s[lo..hi] == s[..hi]
  {
  }

  /** The "Showing x to y" figures. */
  function ResultsStart(n: nat, page: int): int {
    if n == 0 then 0 else StartIndex(page) + 1
  }

  function ResultsEnd(n: nat, page: int): int {
    Min(StartIndex(page) + ItemsPerPage, n)
  }

  /** On any valid page of a non-empty list the figures count the rows shown. */
  lemma ResultsCountShownRows<T>(list: seq<T>, page: int)
    requires 1 <= page <= TotalPages(|list|) && |list| > 0
    ensures 1 <= ResultsStart(|list|, page) <= ResultsEnd(|list|, page) <= |list|
    ensures ResultsEnd(|list|, page) - ResultsStart(|list|, page) + 1 == |PageItems(list, page)|
  {
    assert StartIndex(page) <= (TotalPages(|list|) - 1) * ItemsPerPage;
  }

  /** The Previous and Next buttons. */
  function PrevPage(p: int): (r: int)
    ensures r >= 1
    ensures p > 1 ==> r == p - 1
  {
    if p - 1 >= 1 then p - 1 else 1
  }

  function NextPage(p: int, total: int): (r: int)
    ensures r <= total
    ensures p < total ==> r == p + 1
  {
    if p + 1 <= total then p + 1 else total
  }

  /** Both buttons keep a valid page valid. */
  lemma ButtonsKeepPageInRange(p: int, total: int)
    requires 1 <= p <= total
    ensures 1 <= PrevPage(p) <= total
    ensures 1 <= NextPage(p, total) <= total
  {
  }

  function Flip(d: Direction): (e: Direction)
    ensures e != d
  {
    if d == Asc then Desc else Asc
  }

  lemma FlipTwice(d: Direction)
    ensures Flip(Flip(d)) == d
  {
  }

  // ---------------------------------------------------------------------------
  // Removing a deleted job from the list

  /** `prev.filter(job => job.id !== jobId)`. */
  function WithoutId(jobs: seq<FormattedJob>, id: Option<string>): (r: seq<FormattedJob>)
    ensures forall x :: x in r ==> x.id != id
  {
    if jobs == [] then []
    else (if jobs[0].id != id then [jobs[0]] else []) + WithoutId(jobs[1..], id)
  }

  /** Every other row stays, as often as it was there. */
  lemma {:induction false} WithoutIdCounts(jobs: seq<FormattedJob>, id: Option<string>)
    ensures forall x :: multiset(WithoutId(jobs, id))[x] == if x.id == id then 0 else multiset(jobs)[x]
  {
    if jobs != [] {
      assert jobs == [jobs[0]] + jobs[1..];
      WithoutIdCounts(jobs[1..], id);
    }
  }

  /** The kept jobs stay in their order: the filter distributes over concatenation. */
  lemma {:induction false} WithoutIdDistributes(a: seq<FormattedJob>, b: seq<FormattedJob>, id: Option<string>)
    ensures WithoutId(a + b, id) == WithoutId(a, id) + WithoutId(b, id)
  {
    if a == [] {
      assert a + b == b;
    } else {
      WithoutIdDistributes(a[1..], b, id);
      WithoutIdFront(a, b, id);
    }
  }

  /** The first row of `a + b` is the first row of `a`, and the rest is `a[1..] + b`. */
  lemma WithoutIdFront(a: seq<FormattedJob>, b: seq<FormattedJob>, id: Option<string>)
    requires a != []
    ensures var head := if a[0].id != id then [a[0]] else [];
      WithoutId(a + b, id) == head + WithoutId(a[1..] + b, id) &&
      WithoutId(a, id) == head + WithoutId(a[1..], id)
  {
    assert (a + b)[0] == a[0] && (a + b)[1..] == a[1..] + b;
  }

  /** A list without the id is left as it is. */
  lemma {:induction false} WithoutAbsentId(a: seq<FormattedJob>, id: Option<string>)
    requires forall x :: x in a ==> x.id != id
    ensures WithoutId(a, id) == a
  {
    if a != [] {
      assert a[0] in a;
      WithoutAbsentId(a[1..], id);
      assert a == [a[0]] + a[1..];
    }
  }

  // ---------------------------------------------------------------------------
  // The page's state

  class ManageJobsView {
    var jobs: seq<FormattedJob>
    var searchTerm: string
    var statusFilter: string
    var currentPage: int
    var sortField: SortField
    var sortDirection: Direction

    ghost predicate Valid()
      reads this
    {
      currentPage >= 1
    }

    /** The number of pages of the current filter. */
    function TotalPagesNow(): (t: nat)
      reads this
      ensures t >= 1
    {
      TotalPages(|FilterJobs(jobs, searchTerm, statusFilter)|)
    }

    constructor ()
      ensures Valid()
      ensures jobs == [] && searchTerm == "" && statusFilter == "All"
      ensures currentPage == 1 && sortField == Title && sortDirection == Asc
    {
      jobs := [];
      searchTerm := "";
      statusFilter := "All";
      currentPage := 1;
      sortField := Title;
      sortDirection := Asc;
    }

    /** A header click; the effect on sort changes then resets the page to 1. */
    method HandleSort(field: SortField)
      modifies this
      ensures sortField == field
      ensures sortDirection == if old(sortField) == field then Flip(old(sortDirection)) else Asc
      ensures currentPage == 1 && Valid()
      ensures jobs == old(jobs) && searchTerm == old(searchTerm) && statusFilter == old(statusFilter)
    {
      if sortField == field {
        sortDirection := Flip(sortDirection);
      } else {
        sortField := field;
        sortDirection := Asc;
      }
      currentPage := 1;
    }

    /** Typing in the search box; the page resets to 1. */
    method SetSearchTerm(term: string)
      modifies this
      ensures searchTerm == term && currentPage == 1 && Valid()
      ensures jobs == old(jobs) && statusFilter == old(statusFilter)
      ensures sortField == old(sortField) && sortDirection == old(sortDirection)
    {
      searchTerm := term;
      currentPage := 1;
    }

    /** Picking a status; the page resets to 1. */
    method SetStatusFilter(status: string)
      modifies this
      ensures statusFilter == status && currentPage == 1 && Valid()
      ensures jobs == old(jobs) && searchTerm == old(searchTerm)
      ensures sortField == old(sortField) && sortDirection == old(sortDirection)
    {
      statusFilter := status;
      currentPage := 1;
    }

    method Previous()
      requires Valid()
      modifies this`currentPage
      ensures Valid()
      ensures currentPage == PrevPage(old(currentPage))
    {
      currentPage := PrevPage(currentPage);
    }

    method Next()
      requires Valid()
      modifies this`currentPage
      ensures currentPage == NextPage(old(currentPage), TotalPagesNow())
      ensures Valid()
      ensures old(currentPage) <= TotalPagesNow() ==> currentPage <= TotalPagesNow()
    {
      currentPage := NextPage(currentPage, TotalPagesNow());
    }

    /** The effect that pulls a page beyond the last one back to the last one. */
    method ClampPage()
      requires Valid()
      modifies this`currentPage
      ensures Valid()
      ensures 1 <= currentPage <= TotalPagesNow()
      ensures old(currentPage) <= TotalPagesNow() ==> currentPage == old(currentPage)
      ensures old(currentPage) > TotalPagesNow() ==> currentPage == TotalPagesNow()
    {
      var total := TotalPagesNow();
      if currentPage > total {
        currentPage := total;
      }
    }

    /** After the delete request succeeds: drop the rows with that id. */
    method RemoveDeleted(id: Option<string>)
      modifies this`jobs
      ensures jobs == WithoutId(old(jobs), id)
    {
      jobs := WithoutId(jobs, id);
    }

    /** After a fetch: `getPostedJobs`. */
    method Load(f: Fetch)
      modifies this`jobs
      ensures jobs == LoadedJobs(old(jobs), f)
      ensures !Resolved(f) ==> jobs == old(jobs)
    {
      jobs := LoadedJobs(jobs, f);
    }

    /** What the table renders: `filteredAndSortedJobs`, the kept jobs as a
        permutation sorted by the current column and direction, and the
        current page of it. */
    method VisibleRows() returns (all: seq<FormattedJob>, rows: seq<FormattedJob>)
      requires Valid()
      ensures multiset(all) == multiset(FilterJobs(jobs, searchTerm, statusFilter))
      ensures AdjacentOrdered(all, sortField, sortDirection)
      ensures rows == PageItems(all, currentPage)
      ensures |rows| <= ItemsPerPage
      ensures forall x :: x in rows ==> Keep(x, searchTerm, statusFilter)
    {
      all := FilteredAndSorted(jobs, searchTerm, statusFilter, sortField, sortDirection);
      rows := PageItems(all, currentPage);
      forall x | x in rows ensures Keep(x, searchTerm, statusFilter) {
        assert multiset(all)[x] > 0;
      }
    }
  }
}
