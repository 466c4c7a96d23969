/** Version strings and their order. */
module Versions {
  import opened Bytes
  import Text
  import TupleKey

  const MAX_INT: int := 0x7fff_ffff_ffff_ffff

  /** A parsed version; an empty pre-release means a stable release. */
  datatype Version = Version(major: int, minor: int, patch: int, prerelease: string)

  const ZERO: Version := Version(0, 0, 0, "")

  /** At most `n` parts; the last one keeps any further separators. */
  function SplitN(s: string, n: nat): (parts: seq<string>)
    requires n > 0
    ensures 0 < |parts| <= n
    decreases n
  {
    var dot := Text.IndexOf(s, '.');
    if n == 1 || dot.None? then [s] else [s[..dot.value]] + SplitN(s[dot.value + 1..], n - 1)
  }

  predicate IsDigit(c: char) {
    '0' <= c <= '9'
  }

  predicate AllDigits(s: string) {
    forall i :: 0 <= i < |s| ==> IsDigit(s[i])
  }

  /** The number some digits write. */
  function ValueOf(s: string): (n: nat)
    requires AllDigits(s)
  {
    if s == [] then 0 else ValueOf(s[..|s| - 1]) * 10 + (s[|s| - 1] as int - '0' as int)
  }

  /** An optional sign, digits, and a value that fits 64 bits. */
  function Atoi(s: string): (n: Option<int>) {
    var negative := s != [] && s[0] == '-';
    var digits := if s != [] && (s[0] == '-' || s[0] == '+') then s[1..] else s;
    if digits == [] || !AllDigits(digits) then None
    else
      var v: int := ValueOf(digits);
      if negative then (if v <= MAX_INT + 1 then Some(-v) else None)
      else if v <= MAX_INT then Some(v) else None
  }

  function TrimV(s: string): (r: string) {
    if s != [] && s[0] == 'v' then s[1..] else s
  }

  /** The digits of a part, without the pre-release suffix the last part may carry. */
  function Segment(part: string, last: bool): (seg: string) {
    var dash := Text.IndexOf(part, '-');
    if last && dash.Some? then part[..dash.value] else part
  }

  function Suffix(part: string): (pre: string) {
    var dash := Text.IndexOf(part, '-');
    if dash.Some? then part[dash.value + 1..] else ""
  }

  /** Number `i` of the version; parts that are missing count as zero. */
  function Number(parts: seq<string>, i: nat): (n: Option<int>) {
    if i < |parts| then Atoi(Segment(parts[i], i == |parts| - 1)) else Some(0)
  }

  /** Malformed versions read as 0.0.0. */
  function Parse(s: string): (v: Version) {
    var parts := SplitN(TrimV(s), 3);
    var a, b, c := Number(parts, 0), Number(parts, 1), Number(parts, 2);
    if a.None? || b.None? || c.None? then ZERO
    else Version(a.value, b.value, c.value, Suffix(parts[|parts| - 1]))
  }

  /** The parser as it runs: a loop that fills three numbers and gives up on the first malformed one. */
  method ParseVersion(s: string) returns (v: Version)
    ensures v == Parse(s)
  {
    hide Atoi, SplitN, Segment, Suffix, TrimV;
    var parts := SplitN(TrimV(s), 3);
    var nums := new int[3](_ => 0);
    var prerelease := "";
    var i := 0;
    while i < 3 && i < |parts|
      invariant 0 <= i <= 3 && i <= |parts|
      invariant forall k :: 0 <= k < i ==> Number(parts, k) == Some(nums[k])
      invariant forall k :: i <= k < 3 ==> nums[k] == 0
      invariant prerelease == if i == |parts| then Suffix(parts[|parts| - 1]) else ""
    {
      if i == |parts| - 1 {
        prerelease := Suffix(parts[i]);
      }
      var n := Atoi(Segment(parts[i], i == |parts| - 1));
      if n.None? {
        assert Number(parts, i).None?;
        return ZERO;
      }
      nums[i] := n.value;
      i := i + 1;
    }
    v := Version(nums[0], nums[1], nums[2], prerelease);
  }

  function Sign(a: int, b: int): (s: int) {
    if a < b then -1 else if a > b then 1 else 0
  }

  /** Pre-releases sort below the release, and among themselves as text. */
  function ComparePre(a: string, b: string): (s: int) {
    if a != "" && b == "" then -1
    else if a == "" && b != "" then 1
    else if a != "" && b != "" then (if Text.Less(a, b) then -1 else if Text.Less(b, a) then 1 else 0)
    else 0
  }

  function CompareParsed(a: Version, b: Version): (s: int) {
    if a.major != b.major then Sign(a.major, b.major)
    else if a.minor != b.minor then Sign(a.minor, b.minor)
    else if a.patch != b.patch then Sign(a.patch, b.patch)
    else ComparePre(a.prerelease, b.prerelease)
  }

  function Compare(current: string, latest: string): (s: int) {
    CompareParsed(Parse(current), Parse(latest))
  }

  lemma ComparePreOrder(a: string, b: string, c: string)
    ensures ComparePre(a, b) == -ComparePre(b, a) && -1 <= ComparePre(a, b) <= 1
    ensures ComparePre(a, b) == 0 <==> a == b
    ensures ComparePre(a, b) <= 0 && ComparePre(b, c) <= 0 ==> ComparePre(a, c) <= 0
  {
    Text.LessIsStrictTotal(a, b);
    Text.LessIsStrictTotal(b, c);
    Text.LessIsStrictTotal(a, c);
    if Text.Less(a, b) && Text.Less(b, c) { Text.LessTransitive(a, b, c); }
  }

  /** The comparison is a total preorder whose ties are the strings that parse alike. */
  lemma TotalPreorder(a: string, b: string, c: string)
    ensures -1 <= Compare(a, b) <= 1
    ensures Compare(a, b) == -Compare(b, a)
    ensures Compare(a, b) == 0 <==> Parse(a) == Parse(b)
    ensures Compare(a, b) <= 0 && Compare(b, c) <= 0 ==> Compare(a, c) <= 0
    ensures Compare(a, b) <= 0 && Compare(b, c) < 0 ==> Compare(a, c) < 0
    ensures Compare(a, b) < 0 && Compare(b, c) <= 0 ==> Compare(a, c) < 0
  {
    hide Parse, ComparePre;
    ComparePreOrder(Parse(a).prerelease, Parse(b).prerelease, Parse(c).prerelease);
    ComparePreOrder(Parse(c).prerelease, Parse(a).prerelease, Parse(b).prerelease);
    ComparePreOrder(Parse(b).prerelease, Parse(c).prerelease, Parse(a).prerelease);
  }

  /** A pre-release is below the release of the same number. */
  lemma PrereleaseBelowRelease(a: string, b: string)
    requires Parse(a) == Parse(b).(prerelease := Parse(a).prerelease)
    requires Parse(a).prerelease != "" && Parse(b).prerelease == ""
    ensures Compare(a, b) == -1 && Compare(b, a) == 1
  {
    hide Parse;
  }

  /** The leading "v" is ignored. */
  lemma LeadingV(s: string)
    requires s == "" || s[0] != 'v'
    ensures Parse("v" + s) == Parse(s)
  {
    assert ("v" + s)[1..] == s;
  }

  /** The order, by numbers: major first, then minor, then patch, then the pre-release. */
  lemma NumbersDecide(a: string, b: string)
    ensures var v, w := Parse(a), Parse(b);
      Compare(a, b) == -1 <==>
        || v.major < w.major
        || (v.major == w.major && v.minor < w.minor)
        || (v.major == w.major && v.minor == w.minor && v.patch < w.patch)
        || (v.major == w.major && v.minor == w.minor && v.patch == w.patch &&
            v.prerelease != "" && (w.prerelease == "" || Text.Less(v.prerelease, w.prerelease)))
  {
    hide Parse;
  }

  lemma {:induction false} ValueOfDecimal(n: nat)
    ensures AllDigits(TupleKey.Decimal(n)) && ValueOf(TupleKey.Decimal(n)) == n
    decreases n
  {
    var s := TupleKey.Decimal(n);
    if n < 10 {
      assert s == [TupleKey.Digit(n)] && s[..0] == [];
    } else {
      ValueOfDecimal(n / 10);
      assert s[..|s| - 1] == TupleKey.Decimal(n / 10) && s[|s| - 1] == TupleKey.Digit(n % 10);
    }
  }

  lemma AtoiDecimal(n: nat)
    requires n <= MAX_INT
    ensures Atoi(TupleKey.Decimal(n)) == Some(n) && forall c :: c in TupleKey.Decimal(n) ==> IsDigit(c)
  {
    ValueOfDecimal(n);
    assert IsDigit(TupleKey.Decimal(n)[0]);
    hide TupleKey.Decimal, ValueOf;
  }

  /** The usual text of a version: three numbers and an optional pre-release, which may be any text. */
  function Written(v: Version): (s: string)
    requires v.major >= 0 && v.minor >= 0 && v.patch >= 0
  {
    Dotted(TupleKey.Decimal(v.major), TupleKey.Decimal(v.minor), Last(v.patch, v.prerelease))
  }

  function Dotted(a: string, b: string, c: string): (s: string) {
    a + "." + (b + "." + c)
  }

  function Last(patch: nat, prerelease: string): (s: string) {
    TupleKey.Decimal(patch) + if prerelease == "" then "" else "-" + prerelease
  }

  lemma LastReads(patch: nat, prerelease: string)
    requires patch <= MAX_INT
    ensures Atoi(Segment(Last(patch, prerelease), true)) == Some(patch)
    ensures Suffix(Last(patch, prerelease)) == prerelease
  {
    hide Atoi;
    AtoiDecimal(patch);
    var d := TupleKey.Decimal(patch);
    hide TupleKey.Decimal;
    Text.IndexOfCut(d, '-', prerelease);
    if prerelease == "" {
      assert d + "" == d;
    } else {
      assert d + ("-" + prerelease) == d + ['-'] + prerelease;
      assert (d + ['-'] + prerelease)[..|d|] == d && (d + ['-'] + prerelease)[|d| + 1..] == prerelease;
    }
  }

  lemma SplitFirst(d: string, rest: string, n: nat)
    requires n > 1 && '.' !in d
    ensures SplitN(d + "." + rest, n) == [d] + SplitN(rest, n - 1)
  {
    Text.IndexOfCut(d, '.', rest);
    var s := d + ['.'] + rest;
    assert s[..|d|] == d && s[|d| + 1..] == rest;
  }

  lemma WrittenSplits(v: Version)
    requires v.major >= 0 && v.minor >= 0 && v.patch >= 0
    ensures SplitN(Written(v), 3) ==
      [TupleKey.Decimal(v.major), TupleKey.Decimal(v.minor), Last(v.patch, v.prerelease)]
    ensures Written(v) != "" && IsDigit(Written(v)[0])
  {
    var a, b := TupleKey.Decimal(v.major), TupleKey.Decimal(v.minor);
    assert '.' !in a && '.' !in b && IsDigit(a[0]);
    hide Last, TupleKey.Decimal, SplitN, Dotted;
    SplitsInThree(a, b, Last(v.patch, v.prerelease));
  }

  lemma SplitsInThree(a: string, b: string, c: string)
    requires '.' !in a && '.' !in b && a != ""
    ensures SplitN(Dotted(a, b, c), 3) == [a, b, c]
    ensures Dotted(a, b, c) != "" && Dotted(a, b, c)[0] == a[0]
  {
    SplitFirst(a, b + "." + c, 3);
    SplitFirst(b, c, 2);
    LastPart(c);
    hide SplitN;
  }

  lemma LastPart(c: string)
    ensures SplitN(c, 1) == [c]
  {}

  /** Parsing what was written gives the version back, with or without a leading "v". */
  lemma WrittenParses(v: Version)
    requires 0 <= v.major <= MAX_INT && 0 <= v.minor <= MAX_INT && 0 <= v.patch <= MAX_INT
    ensures Parse(Written(v)) == v && Parse("v" + Written(v)) == v
  {
    hide Atoi, Last, Segment, Suffix, SplitN, Written, TupleKey.Decimal;
    WrittenSplits(v);
    AtoiDecimal(v.major);
    AtoiDecimal(v.minor);
    LastReads(v.patch, v.prerelease);
    SegmentsKeep(TupleKey.Decimal(v.major), TupleKey.Decimal(v.minor));
    SplitsParse(Written(v), v);
    LeadingV(Written(v));
  }

  lemma SplitsParse(s: string, v: Version)
    requires s != "" && s[0] != 'v' && |SplitN(s, 3)| == 3
    requires var p := SplitN(s, 3);
      && Atoi(Segment(p[0], false)) == Some(v.major) && Atoi(Segment(p[1], false)) == Some(v.minor)
      && Atoi(Segment(p[2], true)) == Some(v.patch) && Suffix(p[2]) == v.prerelease
    ensures Parse(s) == v
  {
    hide Atoi, Segment, Suffix, SplitN;
  }

  /** Only the last part carries a pre-release. */
  lemma SegmentsKeep(a: string, b: string)
    ensures Segment(a, false) == a && Segment(b, false) == b
  {}

  /** Components compare as numbers, not as text. */
  lemma NumericNotTextual()
    ensures Compare("1.9.0", "1.10.0") == -1 && Compare("1.10.0", "1.9.0") == 1
  {
    hide Parse, Written;
    WrittenParses(Version(1, 9, 0, ""));
    WrittenParses(Version(1, 10, 0, ""));
    WrittenSmall();
  }

  lemma WrittenSmall()
    ensures Written(Version(1, 9, 0, "")) == "1.9.0" && Written(Version(1, 10, 0, "")) == "1.10.0"
  {
    assert TupleKey.Decimal(0) == "0" && TupleKey.Decimal(1) == "1" && TupleKey.Decimal(9) == "9";
    assert TupleKey.Decimal(10) == "1" + "0" == "10";
    hide TupleKey.Decimal;
    assert Last(0, "") == "0" + "" == "0";
  }

  /** A version with any number malformed reads as zero, so it ties with 0.0.0 and is below every positive one. */
  lemma MalformedIsZero(s: string, i: nat, t: string)
    requires i < 3 && Number(SplitN(TrimV(s), 3), i).None?
    ensures Parse(s) == ZERO && Compare(s, "0.0.0") == 0
    ensures Parse(t).major > 0 ==> Compare(s, t) < 0
  {
    hide Atoi, SplitN;
    ZeroParses();
  }

  lemma ZeroParses()
    ensures Parse("0.0.0") == ZERO
  {
    var s := "0.0.0";
    assert Text.IndexOf(s, '.') == Some(1) && s[..1] == "0" && s[2..] == "0.0";
    assert Text.IndexOf(s[2..], '.') == Some(1) && s[2..][..1] == "0" && s[2..][2..] == "0";
    assert SplitN(s, 3) == ["0"] + SplitN(s[2..], 2);
    assert SplitN(s[2..], 2) == ["0"] + SplitN(s[2..][2..], 1);
    assert SplitN("0", 1) == ["0"];
    assert SplitN(s, 3) == ["0", "0", "0"];
    assert Text.IndexOf("0", '-') == None;
    assert "0"[..0] == "" && ValueOf("0") == 0;
    assert Atoi("0") == Some(0);
  }
}
