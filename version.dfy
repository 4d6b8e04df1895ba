/**
 * compare_version: dotted-integer version strings compared as integer lists
 * after their trailing `.0` segments are removed. The comparison is the
 * three-way `cmp` of Python 2, giving -1, 0 or 1.
 */
module Version {
  import opened Types

  /** The position of the last '.' in `s`, if any. */
  function LastDot(s: string): (p: Option<nat>)
    ensures p.Some? ==> p.value < |s| && s[p.value] == '.' &&
                        forall j :: p.value < j < |s| ==> s[j] != '.'
    ensures p.None? ==> forall j :: 0 <= j < |s| ==> s[j] != '.'
  {
    if s == [] then None
    else if s[|s| - 1] == '.' then Some(|s| - 1)
    else LastDot(s[..|s| - 1])
  }

  predicate AllZeros(s: string)
  {
    forall i :: 0 <= i < |s| ==> s[i] == '0'
  }

  /** `s` ends with a segment of the form `.0`, `.00`, ... */
  predicate EndsWithZeroSegment(s: string)
  {
    match LastDot(s)
    case None => false
    case Some(p) => p + 1 < |s| && AllZeros(s[p + 1..])
  }

  /** `t` is a (possibly empty) run of `.0+` segments: it matches `(\.0+)*`. */
  predicate ZeroSegments(t: string)
    decreases |t|
  {
    t == [] || (EndsWithZeroSegment(t) && ZeroSegments(t[..LastDot(t).value]))
  }

  /**
   * `re.sub(r'(\.0+)*$', '', v)`: removes the longest suffix made of `.0+`
   * segments. What remains is a prefix that does not itself end with such a
   * segment, and what was removed is a run of them.
   */
  function StripZeroSegments(s: string): (r: string)
    ensures r <= s
    ensures ZeroSegments(s[|r|..])
    ensures !EndsWithZeroSegment(r)
    decreases |s|
  {
    if EndsWithZeroSegment(s) then
      var p := LastDot(s).value;
      var r := StripZeroSegments(s[..p]);
      assert s[|r|..][..LastDot(s[|r|..]).value] == s[..p][|r|..] by {
        StripSuffixDot(s, p, |r|);
      }
      r
    else
      assert s[|s|..] == [];
      s
  }

  /** Taking a suffix of `s` keeps its last dot, shifted. */
  lemma StripSuffixDot(s: string, p: nat, n: nat)
    requires LastDot(s) == Some(p) && n <= p
    ensures LastDot(s[n..]) == Some(p - n)
    ensures s[n..][..p - n] == s[..p][n..]
  {
    LastDotShift(s, n);
  }

  lemma {:induction false} LastDotShift(s: string, n: nat)
    requires n <= |s|
    ensures LastDot(s).Some? && LastDot(s).value >= n ==> LastDot(s[n..]) == Some(LastDot(s).value - n)
    decreases |s|
  {
    if s != [] && s[|s| - 1] != '.' && |s| - 1 >= n {
      LastDotShift(s[..|s| - 1], n);
      assert s[n..][..|s[n..]| - 1] == s[..|s| - 1][n..];
    }
  }

  /** `str.split('.')`: the pieces between the dots; "" gives [""]. */
  function Split(s: string): (r: seq<string>)
    ensures |r| >= 1
    ensures forall c :: c in r ==> forall j :: 0 <= j < |c| ==> c[j] != '.'
    decreases |s|
  {
    match LastDot(s)
    case None => [s]
    case Some(p) => Split(s[..p]) + [s[p + 1..]]
  }

  /** The pieces joined back with dots. */
  function Join(cs: seq<string>): string
    requires |cs| >= 1
  {
    if |cs| == 1 then cs[0] else Join(cs[..|cs| - 1]) + "." + cs[|cs| - 1]
  }

  /** Splitting loses nothing: joining the pieces gives the string back. */
  lemma {:induction false} SplitJoin(s: string)
    ensures Join(Split(s)) == s
    decreases |s|
  {
    match LastDot(s)
    case None =>
    case Some(p) =>
      SplitJoin(s[..p]);
      var cs := Split(s);
      assert cs[..|cs| - 1] == Split(s[..p]);
      assert s == s[..p] + "." + s[p + 1..];
  }

  predicate IsDigit(c: char)
  {
    '0' <= c <= '9'
  }

  function DigitsValue(s: string): nat
    requires forall i :: 0 <= i < |s| ==> IsDigit(s[i])
  {
    if s == [] then 0
    else
      var d := s[|s| - 1];
      assert IsDigit(d);
      10 * DigitsValue(s[..|s| - 1]) + (d as int - '0' as int)
  }

  /** `int(x)` for one component: a non-empty run of decimal digits, else ValueError. */
  function ParseComponent(c: string): (r: Result<nat>)
    ensures r.Ok? <==> c != [] && forall i :: 0 <= i < |c| ==> IsDigit(c[i])
  {
    if c != [] && forall i :: 0 <= i < |c| ==> IsDigit(c[i]) then Ok(DigitsValue(c))
    else Err("invalid literal for int() with base 10: '" + c + "'")
  }

  /** The list comprehension: the first component that is not an integer raises. */
  function ParseAll(cs: seq<string>): (r: Result<seq<nat>>)
    ensures r.Ok? ==> |r.value| == |cs|
    ensures r.Ok? <==> forall i :: 0 <= i < |cs| ==> ParseComponent(cs[i]).Ok?
  {
    if cs == [] then Ok([])
    else match ParseComponent(cs[0])
      case Err(e) => Err(e)
      case Ok(n) =>
        match ParseAll(cs[1..])
        case Err(e) => Err(e)
        case Ok(ns) => Ok([n] + ns)
  }

  /** normalize(v) of compare_version. */
  function Normalize(v: string): Result<seq<nat>>
  {
    ParseAll(Split(StripZeroSegments(v)))
  }

  /** Python 2 `cmp` on two integer lists: lexicographic, a proper prefix first. */
  function CompareLists(a: seq<nat>, b: seq<nat>): (r: int)
    ensures r == -1 || r == 0 || r == 1
    ensures r == 0 <==> a == b
  {
    if a == [] && b == [] then 0
    else if a == [] then -1
    else if b == [] then 1
    else if a[0] < b[0] then -1
    else if a[0] > b[0] then 1
    else
      var r := CompareLists(a[1..], b[1..]);
      assert a == [a[0]] + a[1..] && b == [b[0]] + b[1..];
      r
  }

  /**
   * Which order: past a common prefix of length `i`, the list whose element
   * at `i` is smaller, or which ends at `i` while the other goes on, comes
   * first.
   */
  lemma {:induction false} CompareListsLexicographic(a: seq<nat>, b: seq<nat>, i: nat)
    requires i <= |a| && i <= |b| && a[..i] == b[..i]
    ensures i < |a| && i < |b| && a[i] < b[i] ==> CompareLists(a, b) == -1
    ensures i == |a| && i < |b| ==> CompareLists(a, b) == -1
  {
    if i > 0 {
      assert a[0] == a[..i][0] == b[..i][0] == b[0];
      assert a[1..][..i - 1] == a[..i][1..] == b[..i][1..] == b[1..][..i - 1];
      CompareListsLexicographic(a[1..], b[1..], i - 1);
    }
  }

  /** Swapping the arguments negates the result. */
  lemma {:induction false} CompareListsAntisymmetric(a: seq<nat>, b: seq<nat>)
    ensures CompareLists(a, b) == -CompareLists(b, a)
  {
    if a != [] && b != [] && a[0] == b[0] {
      CompareListsAntisymmetric(a[1..], b[1..]);
    }
  }

  /** The order is transitive. */
  lemma {:induction false} CompareListsTransitive(a: seq<nat>, b: seq<nat>, c: seq<nat>)
    requires CompareLists(a, b) <= 0 && CompareLists(b, c) <= 0
    ensures CompareLists(a, c) <= 0
  {
    if a != [] && b != [] && c != [] && a[0] == b[0] == c[0] {
      CompareListsTransitive(a[1..], b[1..], c[1..]);
    }
  }

  /** compare_version(version1, version2); a malformed version raises. */
  function CompareVersion(v1: string, v2: string): Result<int>
  {
    match Normalize(v1)
    case Err(e) => Err(e)
    case Ok(n1) =>
      match Normalize(v2)
      case Err(e) => Err(e)
      case Ok(n2) => Ok(CompareLists(n1, n2))
  }

  /** A well-formed version compares equal to itself. */
  lemma CompareVersionReflexive(v: string)
    requires Normalize(v).Ok?
    ensures CompareVersion(v, v) == Ok(0)
  {
  }

  /** Swapping two well-formed versions negates the result. */
  lemma CompareVersionAntisymmetric(v1: string, v2: string)
    requires Normalize(v1).Ok? && Normalize(v2).Ok?
    ensures CompareVersion(v1, v2).Ok? && CompareVersion(v2, v1).Ok?
    ensures CompareVersion(v1, v2).value == -CompareVersion(v2, v1).value
  {
    CompareListsAntisymmetric(Normalize(v1).value, Normalize(v2).value);
  }

  /** A trailing `.0` never changes a version's place in the order. */
  lemma TrailingZeroIgnored(v: string)
    ensures StripZeroSegments(v + ".0") == StripZeroSegments(v)
    ensures Normalize(v + ".0") == Normalize(v)
  {
    var s := v + ".0";
    assert s[..|s| - 1] == v + ".";
    assert LastDot(s) == Some(|v|);
    assert s[..|v|] == v;
    assert s[|v| + 1..] == "0";
  }

  predicate NoDot(c: string)
  {
    forall j :: 0 <= j < |c| ==> c[j] != '.'
  }

  predicate IsNumeral(c: string)
  {
    c != [] && forall i :: 0 <= i < |c| ==> IsDigit(c[i])
  }

  lemma LastDotBeforeSegment(s: string, c: string)
    requires NoDot(c)
    ensures LastDot(s + "." + c) == Some(|s|)
  {
    var t := s + "." + c;
    assert t[|s|] == '.';
    assert forall j :: |s| < j < |t| ==> t[j] == c[j - |s| - 1];
  }

  /** Splitting a string that ends with a dot-free piece splits off that piece. */
  lemma SplitLastPiece(s: string, c: string)
    requires NoDot(c)
    ensures Split(s + "." + c) == Split(s) + [c]
  {
    var t := s + "." + c;
    LastDotBeforeSegment(s, c);
    assert t[..|s|] == s;
    assert t[|s| + 1..] == c;
  }

  /** A dot-free string splits into itself alone. */
  lemma SplitNoDot(c: string)
    requires NoDot(c)
    ensures Split(c) == [c]
  {
  }

  /** Splitting dot-free pieces joined with dots gives the pieces back. */
  lemma {:induction false} JoinSplit(cs: seq<string>)
    requires |cs| >= 1 && forall i :: 0 <= i < |cs| ==> NoDot(cs[i])
    ensures Split(Join(cs)) == cs
  {
    if |cs| > 1 {
      var init, last := cs[..|cs| - 1], cs[|cs| - 1];
      InitLast(cs);
      assert forall i :: 0 <= i < |init| ==> init[i] == cs[i];
      JoinSplit(init);
      assert Join(cs) == Join(init) + "." + last;
      SplitLastPiece(Join(init), last);
    } else {
      assert cs == [cs[0]];
      JoinSplitOne(cs[0]);
    }
  }

  lemma JoinSplitOne(c: string)
    requires NoDot(c)
    ensures Split(Join([c])) == [c]
  {
    assert Join([c]) == c;
    SplitNoDot(c);
  }

  /** The integer values of numeral components. */
  function Values(cs: seq<string>): (ns: seq<nat>)
    requires forall i :: 0 <= i < |cs| ==> IsNumeral(cs[i])
    ensures |ns| == |cs|
  {
    if cs == [] then []
    else
      assert IsNumeral(cs[0]);
      [DigitsValue(cs[0])] + Values(cs[1..])
  }

  lemma {:induction false} ParseAllValues(cs: seq<string>)
    requires forall i :: 0 <= i < |cs| ==> IsNumeral(cs[i])
    ensures ParseAll(cs) == Ok(Values(cs))
  {
    if cs != [] {
      ParseAllValues(cs[1..]);
    }
  }

  /** The last piece of the joined string is the last numeral, which is not all zeros. */
  lemma NoZeroSegmentAtEnd(cs: seq<string>)
    requires |cs| >= 1 && forall i :: 0 <= i < |cs| ==> NoDot(cs[i])
    requires !AllZeros(cs[|cs| - 1])
    ensures !EndsWithZeroSegment(Join(cs))
  {
    if |cs| > 1 {
      var init, last := cs[..|cs| - 1], cs[|cs| - 1];
      LastDotBeforeSegment(Join(init), last);
      assert Join(cs)[|Join(init)| + 1..] == last;
    } else {
      assert LastDot(cs[0]) == None;
    }
  }

  /**
   * A version written as numerals joined by dots, whose last numeral is not
   * all zeros, normalises to the list of their values.
   */
  lemma NormalizeNumerals(cs: seq<string>)
    requires |cs| >= 1 && forall i :: 0 <= i < |cs| ==> IsNumeral(cs[i])
    requires !AllZeros(cs[|cs| - 1])
    ensures Normalize(Join(cs)) == Ok(Values(cs))
  {
    forall i | 0 <= i < |cs| ensures NoDot(cs[i]) {
      assert IsNumeral(cs[i]);
    }
    NoZeroSegmentAtEnd(cs);
    assert StripZeroSegments(Join(cs)) == Join(cs);
    JoinSplit(cs);
    ParseAllValues(cs);
  }

  lemma ThreeIsThree()
    ensures Normalize("3") == Ok([3])
  {
    assert IsNumeral("3") && !AllZeros("3") by { assert "3"[0] == '3'; }
    NormalizeNumerals(["3"]);
    assert Join(["3"]) == "3";
    assert DigitsValue("3") == 3 by { assert "3"[..0] == ""; }
    assert ["3"][1..] == [];
    assert Values(["3"]) == [3];
  }

  /** A string ending in a `.0` segment strips like the string without it. */
  lemma StripOneZero(s: string, p: nat)
    requires LastDot(s) == Some(p) && s[p + 1..] == "0"
    ensures StripZeroSegments(s) == StripZeroSegments(s[..p])
  {
    assert AllZeros(s[p + 1..]);
  }

  lemma LastSegmentOfThreeZeroZero()
    ensures LastDot("3.0.0") == Some(3) && "3.0.0"[..3] == "3.0" && "3.0.0"[4..] == "0"
  {
    var s := "3.0.0";
    assert s[..4][3] == '.';
    assert s[..4] == "3.0.";
  }

  lemma LastSegmentOfThreeZero()
    ensures LastDot("3.0") == Some(1) && "3.0"[..1] == "3" && "3.0"[2..] == "0"
  {
    var s := "3.0";
    assert s[..2][1] == '.';
    assert s[..2] == "3.";
  }

  /** "3.0.0" normalises to [3], so it equals "3". */
  lemma ThreeZeroZeroIsThree()
    ensures Normalize("3.0.0") == Ok([3])
    ensures CompareVersion("3.0.0", "3") == Ok(0)
  {
    ThreeIsThree();
    LastSegmentOfThreeZeroZero();
    StripOneZero("3.0.0", 3);
    LastSegmentOfThreeZero();
    StripOneZero("3.0", 1);
    assert StripZeroSegments("3.0.0") == StripZeroSegments("3");
    CompareVersionOf("3.0.0", "3", [3], [3]);
  }

  lemma JoinTwoEightNineteen()
    ensures Join(["2", "8", "19"]) == "2.8.19"
  {
    var cs := ["2", "8", "19"];
    assert cs[..2] == ["2", "8"];
    assert ["2", "8"][..1] == ["2"];
    assert Join(["2", "8"]) == "2.8";
  }

  lemma ValuesTwoEightNineteen()
    ensures forall i :: 0 <= i < 3 ==> IsNumeral(["2", "8", "19"][i])
    ensures Values(["2", "8", "19"]) == [2, 8, 19]
  {
    var cs := ["2", "8", "19"];
    assert IsNumeral("2") by { assert "2"[0] == '2'; }
    assert IsNumeral("8") by { assert "8"[0] == '8'; }
    assert IsNumeral("19") by { assert "19"[0] == '1' && "19"[1] == '9'; }
    assert DigitsValue("2") == 2 by { assert "2"[..0] == ""; }
    assert DigitsValue("8") == 8 by { assert "8"[..0] == ""; }
    assert DigitsValue("19") == 19 by {
      assert "19"[..1] == "1";
      assert "1"[..0] == "";
    }
    assert cs[1..] == ["8", "19"] && cs[1..][1..] == ["19"] && cs[1..][1..][1..] == [];
  }

  /** compare_version in terms of the two normalised lists. */
  lemma CompareVersionOf(v1: string, v2: string, n1: seq<nat>, n2: seq<nat>)
    requires Normalize(v1) == Ok(n1) && Normalize(v2) == Ok(n2)
    ensures CompareVersion(v1, v2) == Ok(CompareLists(n1, n2))
  {
  }

  lemma TwoEightNineteen()
    ensures Normalize("2.8.19") == Ok([2, 8, 19])
  {
    var cs := ["2", "8", "19"];
    JoinTwoEightNineteen();
    ValuesTwoEightNineteen();
    assert !AllZeros(cs[2]) by { assert cs[2][0] == '1'; }
    NormalizeNumerals(cs);
  }

  /** 2.8.19 is older than 3.0.0. */
  lemma OlderThanThree()
    ensures CompareVersion("2.8.19", "3.0.0") == Ok(-1)
  {
    ThreeZeroZeroIsThree();
    TwoEightNineteen();
    CompareVersionOf("2.8.19", "3.0.0", [2, 8, 19], [3]);
  }
}
