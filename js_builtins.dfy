// The few JavaScript built-ins the modelled code relies on, restricted to what
// the code does with them: ASCII case mapping, substring search, prefix test,
// split on one separator, whitespace trimming, parseInt and number-to-string.

module Wrappers {

  /** A JavaScript value that may be null or undefined. */
  datatype Option<+T> = None | Some(value: T) {
    function GetOr(default: T): T {
      match this
      case Some(v) => v
      case None => default
    }
  }
}

module JsBuiltins {
  import opened Wrappers

  // ---------------------------------------------------------------------------
  // Truthiness of an optional string

  /** A string value is truthy unless it is null, undefined or "". */
  predicate Truthy(s: Option<string>) { s.Some? && s.value != "" }

  /** `s || null` on an optional string: a falsy value becomes null. */
  function OrNull(s: Option<string>): (r: Option<string>)
    ensures r.Some? <==> Truthy(s)
    ensures r.Some? ==> r == s
  {
    if Truthy(s) then s else None
  }

  /** `|| null` is idempotent, and it only ever drops the empty string. */
  lemma OrNullLaws(s: Option<string>)
    ensures OrNull(OrNull(s)) == OrNull(s)
    ensures OrNull(s) != s <==> s == Some("")
  {
  }

  // ---------------------------------------------------------------------------
  // Case mapping (String.prototype.toLowerCase / toUpperCase on ASCII letters)

  predicate IsUpper(c: char) { 'A' <= c <= 'Z' }
  predicate IsLower(c: char) { 'a' <= c <= 'z' }

  function LowerChar(c: char): (r: char)
    ensures IsUpper(c) ==> IsLower(r) && r as int == c as int + 32
    ensures !IsUpper(c) ==> r == c
  {
    if IsUpper(c) then (c as int + 32) as char else c
  }

  function UpperChar(c: char): (r: char)
    ensures IsLower(c) ==> IsUpper(r) && r as int == c as int - 32
    ensures !IsLower(c) ==> r == c
  {
    if IsLower(c) then (c as int - 32) as char else c
  }

  /** `s.toLowerCase()`: maps every letter and keeps the length. */
  function ToLower(s: string): (r: string)
    ensures |r| == |s|
    ensures forall i :: 0 <= i < |s| ==> r[i] == LowerChar(s[i])
  {
    if s == [] then [] else [LowerChar(s[0])] + ToLower(s[1..])
  }

  /** `s.toUpperCase()`. */
  function ToUpper(s: string): (r: string)
    ensures |r| == |s|
    ensures forall i :: 0 <= i < |s| ==> r[i] == UpperChar(s[i])
  {
    if s == [] then [] else [UpperChar(s[0])] + ToUpper(s[1..])
  }

  lemma ToLowerIdempotent(s: string)
    ensures ToLower(ToLower(s)) == ToLower(s)
  {
    assert forall i :: 0 <= i < |s| ==> LowerChar(LowerChar(s[i])) == LowerChar(s[i]);
  }

  // ---------------------------------------------------------------------------
  // Prefix and substring tests (startsWith / includes)

  /** `s.startsWith(p)`. */
  predicate StartsWith(s: string, p: string) {
    |p| <= |s| && s[..|p|] == p
  }

  /** `s.includes(sub)`: sub occurs in s at some offset. */
  predicate Includes(s: string, sub: string)
    decreases |s|
  {
    StartsWith(s, sub) || (|s| > 0 && Includes(s[1..], sub))
  }

  /** The offset-based reading of `Includes`, the one used in the lemmas. */
  ghost predicate OccursAt(s: string, sub: string, k: int) {
    0 <= k && k + |sub| <= |s| && s[k..k + |sub|] == sub
  }

  lemma {:induction false} IncludesIffOccurs(s: string, sub: string)
    ensures Includes(s, sub) <==> exists k :: OccursAt(s, sub, k)
    decreases |s|
  {
    if StartsWith(s, sub) {
      assert OccursAt(s, sub, 0);
    } else if |s| == 0 {
      assert forall k :: !OccursAt(s, sub, k);
    } else {
      IncludesIffOccurs(s[1..], sub);
      if Includes(s[1..], sub) {
        var k :| OccursAt(s[1..], sub, k);
        OccursShift(s, sub, k);
      } else {
        forall k | OccursAt(s, sub, k) ensures false {
          if k != 0 {
            OccursUnshift(s, sub, k);
          }
        }
      }
    }
  }

  lemma OccursShift(s: string, sub: string, k: int)
    requires |s| > 0 && OccursAt(s[1..], sub, k)
    ensures OccursAt(s, sub, k + 1)
  {
    assert s[1..][k..k + |sub|] == s[k + 1..k + 1 + |sub|];
  }

  lemma OccursUnshift(s: string, sub: string, k: int)
    requires 0 < k && OccursAt(s, sub, k)
    ensures OccursAt(s[1..], sub, k - 1)
  {
    assert s[1..][k - 1..k - 1 + |sub|] == s[k..k + |sub|];
  }

  lemma {:induction false} IncludesEmpty(s: string)
    ensures Includes(s, "")
  {
    assert StartsWith(s, "");
  }

  /** Case-insensitive literal substring match: `new RegExp(sub, "i").test(s)`
      for a `sub` without regular-expression metacharacters. */
  predicate IncludesIgnoreCase(s: string, sub: string) {
    Includes(ToLower(s), ToLower(sub))
  }

  /** The characters that make a JavaScript or MongoDB regex differ from a literal. */
  predicate IsRegexMeta(c: char) {
    c in "\\^$.|?*+()[]{}"
  }

  predicate NoRegexMeta(s: string) {
    forall i :: 0 <= i < |s| ==> !IsRegexMeta(s[i])
  }

  // ---------------------------------------------------------------------------
  // split(sep) and join

  /** `s.split(sep)` for a one-character separator: the maximal separator-free
      segments, empty ones included; `"".split(sep)` is `[""]`. */
  function Split(s: string, sep: char): (r: seq<string>)
    ensures |r| >= 1
    ensures forall i :: 0 <= i < |r| ==> sep !in r[i]
    decreases |s|
  {
    if s == [] then [""]
    else if s[0] == sep then [""] + Split(s[1..], sep)
    else
      var rest := Split(s[1..], sep);
      [[s[0]] + rest[0]] + rest[1..]
  }

  /** A separator-free word followed by the separator is one whole segment. */
  lemma {:induction false} SplitWord(w: string, sep: char, rest: string)
    requires sep !in w
    ensures Split(w + [sep] + rest, sep) == [w] + Split(rest, sep)
    ensures Split(w, sep) == [w]
    decreases |w|
  {
    if w == [] {
      assert ([sep] + rest)[1..] == rest;
      assert w + [sep] + rest == [sep] + rest;
    } else {
      SplitWord(w[1..], sep, rest);
      assert (w + [sep] + rest)[1..] == w[1..] + [sep] + rest;
      assert [w[0]] + w[1..] == w;
    }
  }

  /** `parts.join(sep)`. */
  function Join(parts: seq<string>, sep: char): string
    requires |parts| >= 1
  {
    if |parts| == 1 then parts[0] else parts[0] + [sep] + Join(parts[1..], sep)
  }

  /** Splitting loses nothing: joining the segments again gives back the string. */
  lemma {:induction false} JoinSplit(s: string, sep: char)
    ensures Join(Split(s, sep), sep) == s
    decreases |s|
  {
    if s != [] {
      JoinSplit(s[1..], sep);
      if s[0] == sep {
        JoinEmptyFirst(Split(s[1..], sep), sep);
      } else {
        JoinExtendFirst(s[0], Split(s[1..], sep), sep);
      }
      assert s == [s[0]] + s[1..];
    }
  }

  /** Joining after an empty first segment puts one separator in front. */
  lemma JoinEmptyFirst(parts: seq<string>, sep: char)
    requires |parts| >= 1
    ensures Join([""] + parts, sep) == [sep] + Join(parts, sep)
  {
    assert ([""] + parts)[1..] == parts;
  }

  /** Joining after a character is put in front of the first segment puts
      that character in front of the joined text. */
  lemma JoinExtendFirst(c: char, parts: seq<string>, sep: char)
    requires |parts| >= 1
    ensures Join([[c] + parts[0]] + parts[1..], sep) == [c] + Join(parts, sep)
  {
    var q := [[c] + parts[0]] + parts[1..];
    assert q[1..] == parts[1..];
    if |parts| > 1 {
      assert Join(q, sep) == [c] + parts[0] + [sep] + Join(parts[1..], sep);
    }
  }

  // ---------------------------------------------------------------------------
  // Whitespace and trim

  /** The ASCII white-space characters that `trim` and `parseInt` skip. */
  predicate IsWhitespace(c: char) {
    c == ' ' || c == '\t' || c == '\n' || c == '\r' || c as int == 11 || c as int == 12
  }

  function TrimStart(s: string): (r: string)
    ensures |r| <= |s| && r == s[|s| - |r|..]
    ensures r == [] || !IsWhitespace(r[0])
    ensures forall i :: 0 <= i < |s| - |r| ==> IsWhitespace(s[i])
  {
    if s != [] && IsWhitespace(s[0]) then TrimStart(s[1..]) else s
  }

  function TrimEnd(s: string): (r: string)
    ensures |r| <= |s| && r == s[..|r|]
    ensures r == [] || !IsWhitespace(r[|r| - 1])
    ensures forall i :: |r| <= i < |s| ==> IsWhitespace(s[i])
  {
    if s != [] && IsWhitespace(s[|s| - 1]) then TrimEnd(s[..|s| - 1]) else s
  }

  /** `s.trim()`. */
  function Trim(s: string): string {
    TrimEnd(TrimStart(s))
  }

  predicate IsBlank(s: string) {
    forall i :: 0 <= i < |s| ==> IsWhitespace(s[i])
  }

  /** `!s.trim()` holds exactly for the strings made only of white space. */
  lemma TrimEmptyIffBlank(s: string)
    ensures Trim(s) == "" <==> IsBlank(s)
  {
    if IsBlank(s) {
      BlankTrimsAway(s);
    } else {
      var i :| 0 <= i < |s| && !IsWhitespace(s[i]);
      NonBlankSurvivesTrim(s, i);
    }
  }

  lemma BlankTrimsAway(s: string)
    requires IsBlank(s)
    ensures TrimStart(s) == ""
  {
  }

  lemma NonBlankSurvivesTrim(s: string, i: int)
    requires 0 <= i < |s| && !IsWhitespace(s[i])
    ensures Trim(s) != ""
  {
    var t := TrimStart(s);
    var j := i - (|s| - |t|);
    assert 0 <= j < |t| && t[j] == s[i];
    assert j < |TrimEnd(t)|;
  }

  // ---------------------------------------------------------------------------
  // Decimal digits, parseInt and String(n)

  predicate IsDigit(c: char) { '0' <= c <= '9' }

  function DigitValue(c: char): (d: nat)
    requires IsDigit(c)
    ensures d < 10
  {
    c as int - '0' as int
  }

  function DigitChar(d: nat): (c: char)
    requires d < 10
    ensures IsDigit(c) && DigitValue(c) == d
  {
    ('0' as int + d) as char
  }

  /** The longest prefix of s made of decimal digits. */
  function LeadingDigits(s: string): (r: string)
    ensures |r| <= |s| && r == s[..|r|]
    ensures forall i :: 0 <= i < |r| ==> IsDigit(r[i])
    ensures |r| == |s| || !IsDigit(s[|r|])
  {
    if s != [] && IsDigit(s[0]) then [s[0]] + LeadingDigits(s[1..]) else []
  }

  /** The value of a string of decimal digits, most significant first. */
  function DigitsValue(d: string): nat
    requires forall i :: 0 <= i < |d| ==> IsDigit(d[i])
  {
    if d == [] then 0 else 10 * DigitsValue(d[..|d| - 1]) + DigitValue(d[|d| - 1])
  }

  /** `parseInt(s)` with the default radix: leading white space is skipped, an
      optional sign is read, then the longest run of decimal digits; no digit
      at all gives NaN, written None. */
  function ParseInt(s: string): Option<int> {
    var t := TrimStart(s);
    var u := Unsigned(t);
    var digits := LeadingDigits(u);
    if digits == [] then None
    else
      var magnitude: int := DigitsValue(digits);
      Some(if t != [] && t[0] == '-' then -magnitude else magnitude)
  }

  /** `parseInt` gives NaN exactly when, after the leading white space and an
      optional sign, the text does not start with a decimal digit. */
  lemma ParseIntNaN(s: string)
    ensures ParseInt(s).None? <==> var u := Unsigned(TrimStart(s)); u == [] || !IsDigit(u[0])
  {
    var u := Unsigned(TrimStart(s));
    if u != [] && IsDigit(u[0]) {
      assert LeadingDigits(u) == [u[0]] + LeadingDigits(u[1..]);
    }
  }

  /** What follows an optional leading sign. */
  function Unsigned(t: string): (u: string)
    ensures u == t || (t != [] && (t[0] == '-' || t[0] == '+') && u == t[1..])
  {
    if t != [] && (t[0] == '-' || t[0] == '+') then t[1..] else t
  }

  /** `String(n)` for a non-negative integer: decimal, no leading zeros. */
  function NatToString(n: nat): (s: string)
    ensures |s| >= 1
    ensures forall i :: 0 <= i < |s| ==> IsDigit(s[i])
    ensures |s| > 1 ==> s[0] != '0'
  {
    if n < 10 then [DigitChar(n)] else NatToString(n / 10) + [DigitChar(n % 10)]
  }

  /** `String(n)` (or a template literal) for an integer. */
  function IntToString(n: int): (s: string)
    ensures |s| >= 1
    ensures n >= 0 ==> s == NatToString(n)
    ensures n < 0 ==> s == "-" + NatToString(-n)
  {
    if n < 0 then "-" + NatToString(-n) else NatToString(n)
  }

  lemma {:induction false} DigitsValueOfNatToString(n: nat)
    ensures DigitsValue(NatToString(n)) == n
  {
    var s := NatToString(n);
    if n >= 10 {
      DigitsValueOfNatToString(n / 10);
      assert s[..|s| - 1] == NatToString(n / 10);
    }
  }

  lemma {:induction false} LeadingDigitsOfDigitsThen(d: string, rest: string)
    requires forall i :: 0 <= i < |d| ==> IsDigit(d[i])
    requires rest == [] || !IsDigit(rest[0])
    ensures LeadingDigits(d + rest) == d
    decreases |d|
  {
    if d == [] {
    } else {
      assert (d + rest)[1..] == d[1..] + rest;
      LeadingDigitsOfDigitsThen(d[1..], rest);
    }
  }

  lemma UnsignedParse(u: string)
    requires u != [] && IsDigit(u[0])
    ensures ParseInt(u) == Some(DigitsValue(LeadingDigits(u)))
  {
    assert !IsWhitespace(u[0]) && u[0] != '-' && u[0] != '+';
    assert TrimStart(u) == u;
    assert Unsigned(u) == u;
    assert LeadingDigits(u) != [];
  }

  lemma SignedParse(d: string, rest: string)
    requires d != [] && forall i :: 0 <= i < |d| ==> IsDigit(d[i])
    requires LeadingDigits(d + rest) == d
    ensures ParseInt("-" + d + rest) == Some(-(DigitsValue(d) as int))
  {
    MinusSignPrefix(d, rest);
  }

  lemma MinusSignPrefix(d: string, rest: string)
    ensures TrimStart("-" + d + rest) == "-" + d + rest && Unsigned("-" + d + rest) == d + rest
  {
    assert ("-" + d + rest)[0] == '-' && ("-" + d + rest)[1..] == d + rest;
  }

  /** String(n) reads back through parseInt, also when a non-digit suffix
      (such as the "k" of a salary) follows it. */
  lemma ParseIntOfIntToString(n: int, rest: string)
    requires rest == [] || !IsDigit(rest[0])
    ensures ParseInt(IntToString(n) + rest) == Some(n)
  {
    var d := NatToString(if n < 0 then -n else n);
    DigitsValueOfNatToString(if n < 0 then -n else n);
    DigitsTextParse(d, rest);
  }

  /** A run of digits followed by a non-digit reads back as its value, with
      or without a leading minus sign. */
  lemma DigitsTextParse(d: string, rest: string)
    requires d != [] && forall i :: 0 <= i < |d| ==> IsDigit(d[i])
    requires rest == [] || !IsDigit(rest[0])
    ensures ParseInt(d + rest) == Some(DigitsValue(d))
    ensures ParseInt("-" + d + rest) == Some(-(DigitsValue(d) as int))
  {
    DigitsThenRest(d, rest);
    UnsignedParse(d + rest);
    SignedParse(d, rest);
  }

  lemma DigitsThenRest(d: string, rest: string)
    requires d != [] && forall i :: 0 <= i < |d| ==> IsDigit(d[i])
    requires rest == [] || !IsDigit(rest[0])
    ensures d + rest != [] && IsDigit((d + rest)[0]) && LeadingDigits(d + rest) == d
  {
    LeadingDigitsOfDigitsThen(d, rest);
    assert (d + rest)[0] == d[0];
  }
}
