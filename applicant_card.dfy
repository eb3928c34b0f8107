// The avatar text of frontend/src/components/Cards/ApplicantdashboardCard.jsx:
// the initials of the applicant's name, with "No Name" for a missing name.

module ApplicantCard {
  import opened Wrappers
  import opened JsBuiltins

  /** The argument of `getInitials`: a string, or any value of another type. */
  datatype NameArg = NotAString | Name(s: string)

  /** The segments that have a first character; `n[0]` of an empty one is
      undefined, which `join("")` turns into nothing. */
  function NonEmpty(segs: seq<string>): (r: seq<string>)
    ensures |r| <= |segs|
    ensures forall i :: 0 <= i < |r| ==> r[i] != "" && r[i] in segs
  {
    if segs == [] then []
    else (if segs[0] != "" then [segs[0]] else []) + NonEmpty(segs[1..])
  }

  /** `segs.map(n => n[0]).join("")`. */
  function FirstChars(segs: seq<string>): (r: string)
    ensures |r| == |NonEmpty(segs)|
    ensures forall i :: 0 <= i < |r| ==> r[i] == NonEmpty(segs)[i][0]
  {
    if segs == [] then ""
    else if segs[0] == "" then
      assert NonEmpty(segs) == NonEmpty(segs[1..]);
      FirstChars(segs[1..])
    else
      assert NonEmpty(segs) == [segs[0]] + NonEmpty(segs[1..]);
      [segs[0][0]] + FirstChars(segs[1..])
  }

  function GetInitials(name: NameArg): (r: string)
    ensures name == NotAString || name == Name("") ==> r == "?"
    ensures name.Name? && name.s != "" ==>
              && |r| == |NonEmpty(Split(name.s, ' '))|
              && forall i :: 0 <= i < |r| ==> r[i] == UpperChar(NonEmpty(Split(name.s, ' '))[i][0])
  {
    match name
    case NotAString => "?"
    case Name(s) => if s == "" then "?" else ToUpper(FirstChars(Split(s, ' ')))
  }

  /** The initials of a real name never contain a space. */
  lemma InitialsHaveNoSpace(s: string)
    requires s != ""
    ensures ' ' !in GetInitials(Name(s))
  {
    var segs := NonEmpty(Split(s, ' '));
    var r := GetInitials(Name(s));
    forall i | 0 <= i < |r| ensures r[i] != ' ' {
      assert segs[i] in Split(s, ' ');
      assert segs[i][0] in segs[i];
    }
  }

  /** `applicant?.name || 'No Name'`. */
  function ApplicantName(name: Option<string>): (r: string)
    ensures r != ""
    ensures name.Some? && name.value != "" ==> r == name.value
  {
    if name.Some? && name.value != "" then name.value else "No Name"
  }

  /** An applicant without a name shows "NN". */
  lemma MissingNameInitials()
    ensures GetInitials(Name(ApplicantName(None))) == "NN"
  {
    SplitNoName();
    var segs := ["No", "Name"];
    assert FirstChars(segs) == "NN" by {
      assert FirstChars(segs[1..]) == "N";
    }
    assert ToUpper("NN") == "NN";
  }

  lemma SplitNoName()
    ensures Split("No Name", ' ') == ["No", "Name"]
  {
    SplitWord("No", ' ', "Name");
    SplitWord("Name", ' ', "");
    assert "No" + [' '] + "Name" == "No Name";
  }
}
