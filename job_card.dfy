// The text and display decisions of frontend/src/components/Cards/JobCard.jsx:
// the salary line, the bookmark state and what the card's right side shows.

module JobCard {
  import opened Wrappers
  import opened JsBuiltins

  /** A salary as the card receives it: absent (null or undefined) or an integer. */
  type Salary = Option<int>

  /** An amount is truthy unless it is absent or 0. */
  predicate TruthyAmount(n: Salary) { n.Some? && n.value != 0 }

  /** `(num / 1000).toFixed(0)` for `num >= 1000`: the thousands rounded half up. */
  function RoundedThousands(num: int): (k: int)
    requires num >= 1000
    ensures k >= 1
    ensures 1000 * k - 500 <= num < 1000 * k + 500
  {
    (num + 500) / 1000
  }

  /** `formatNumber`. */
  function FormatNumber(num: Salary): (r: string)
    ensures |r| >= 2
    ensures TruthyAmount(num) ==> r[0] == '$'
    ensures !TruthyAmount(num) <==> r == "N/A"
  {
    if !TruthyAmount(num) then "N/A"
    else if num.value >= 1000 then "$" + IntToString(RoundedThousands(num.value)) + "k"
    else "$" + IntToString(num.value)
  }

  /** The text after "$" reads back as the amount shown: the exact amount below
      1000, and otherwise thousands within 500 of it, followed by "k". */
  lemma FormatNumberReadsBack(num: Salary)
    requires TruthyAmount(num)
    ensures var r := FormatNumber(num);
      var amount := ParseInt(r[1..]);
      && amount.Some?
      && (num.value < 1000 ==> amount.value == num.value)
      && (num.value >= 1000 ==> r[|r| - 1] == 'k' && -500 <= num.value - 1000 * amount.value < 500)
  {
    var r := FormatNumber(num);
    if num.value >= 1000 {
      var k := RoundedThousands(num.value);
      assert r[1..] == IntToString(k) + "k";
      ParseIntOfIntToString(k, "k");
    } else {
      assert r[1..] == IntToString(num.value) + "";
      ParseIntOfIntToString(num.value, "");
    }
  }

  /** `formatSalary(min, max)`. */
  function FormatSalary(min: Salary, max: Salary): (r: string)
    ensures |r| >= 2 && r[|r| - 2..] == "/m"
    ensures !TruthyAmount(max) ==> r == FormatNumber(min) + "/m"
    ensures TruthyAmount(max) ==> r == FormatNumber(min) + " - " + FormatNumber(max) + "/m"
  {
    var line := FormatNumber(min) + (if TruthyAmount(max) then " - " + FormatNumber(max) else "");
    assert (line + "/m")[|line|..] == "/m";
    line + "/m"
  }

  /** The min part always comes first: it is the prefix of the line. */
  lemma SalaryLineStartsWithMin(min: Salary, max: Salary)
    ensures var m := FormatNumber(min);
      |m| <= |FormatSalary(min, max)| && FormatSalary(min, max)[..|m|] == m
  {
    var m := FormatNumber(min);
    var tail := (if TruthyAmount(max) then " - " + FormatNumber(max) else "") + "/m";
    assert FormatSalary(min, max) == m + tail;
  }

  /** The bookmark button: only a signed-in user sees it, filled when the job
      is marked saved by the listing (`job?.isSaved`) or by the page (`saved`). */
  datatype Bookmark = NoBookmark | Filled | Outline

  function BookmarkOf(signedIn: bool, jobIsSaved: bool, saved: bool): (b: Bookmark)
    ensures b == NoBookmark <==> !signedIn
    ensures b == Filled <==> signedIn && (jobIsSaved || saved)
    ensures b == Outline <==> signedIn && !jobIsSaved && !saved
  {
    if !signedIn then NoBookmark
    else if jobIsSaved || saved then Filled
    else Outline
  }

  /** What the right side of the card shows. */
  datatype RightSide = Nothing | StatusBadge(status: string) | ApplyButton

  function RightSideOf(saved: bool, applicationStatus: Option<string>, hideApply: bool): (r: RightSide)
    ensures r.StatusBadge? <==> !saved && applicationStatus.Some? && applicationStatus.value != ""
    ensures r.StatusBadge? ==> Some(r.status) == applicationStatus
    ensures r.ApplyButton? <==> !saved && (applicationStatus.None? || applicationStatus.value == "") && !hideApply
    ensures saved ==> r == Nothing
  {
    if saved then Nothing
    else if applicationStatus.Some? && applicationStatus.value != "" then StatusBadge(applicationStatus.value)
    else if !hideApply then ApplyButton
    else Nothing
  }

  /** The two sides of the card read `saved` together: on the saved-jobs page the
      bookmark is filled and the right side is empty; a card whose bookmark is an
      outline is not saved, so it shows the status badge or, unless hidden, Apply. */
  lemma BookmarkAgreesWithRightSide(jobIsSaved: bool, saved: bool, status: Option<string>, hideApply: bool)
    ensures saved ==> BookmarkOf(true, jobIsSaved, saved) == Filled && RightSideOf(saved, status, hideApply) == Nothing
    ensures BookmarkOf(true, jobIsSaved, saved) == Outline && !hideApply ==>
              RightSideOf(saved, status, hideApply) != Nothing
  {
  }

  /** A job already applied to never offers Apply, whatever `hideApply` says. */
  lemma AppliedNeverOffersApply(saved: bool, status: string, hideApply: bool)
    requires status != ""
    ensures RightSideOf(saved, Some(status), hideApply) != ApplyButton
  {
  }
}
