// VersionNumber of muddled/utils.py: two-part "major.minor" version
// numbers, with an "unset" value below every proper one.

module Versions {
  import opened Wrappers
  import opened Text

  datatype Version = Version(major: int, minor: int)

  /** A version built by the constructor: both parts non-negative. */
  predicate Proper(v: Version) { v.major >= 0 && v.minor >= 0 }

  /** VersionNumber.unset(): both parts -1. */
  const Unset := Version(-1, -1)

  /** VersionNumber(major, minor): negative parts are refused. */
  function New(major: int, minor: int): (r: Result<Version>)
    ensures r.Ok? <==> major >= 0 && minor >= 0
    ensures r.Ok? ==> Proper(r.value) && r.value == Version(major, minor)
    ensures r.Err? ==> r.error.GiveUp?
  {
    if major < 0 || minor < 0 then Err(GiveUp("VersionNumber arguments may not be negative"))
    else Ok(Version(major, minor))
  }

  /** '%d' of any integer. */
  function IntString(i: int): (s: string)
    ensures i >= 0 ==> s == DecimalString(i)
    ensures |s| > 0 && s[0] != '<'
  {
    if i < 0 then "-" + DecimalString(-i) else DecimalString(i)
  }

  /** str(v): "<unset>" for a negative major, otherwise "major.minor". */
  function Str(v: Version): (s: string)
    ensures v.major < 0 <==> s == "<unset>"
  {
    if v.major < 0 then "<unset>"
    else
      var s := IntString(v.major) + "." + IntString(v.minor);
      assert s[0] != '<';
      s
  }

  /** v < w as the code compares: a smaller major, or a smaller minor
      whatever the majors. */
  predicate Lt(v: Version, w: Version) {
    v.major < w.major || v.minor < w.minor
  }

  predicate Gt(v: Version, w: Version) { !(Lt(v, w) || v == w) }
  predicate Le(v: Version, w: Version) { Lt(v, w) || v == w }
  predicate Ge(v: Version, w: Version) { !Lt(v, w) }

  /** v.next(): the next minor version; an unset version moves to 0.0. */
  function Next(v: Version): (r: Result<Version>)
    ensures Proper(v) || v == Unset ==> r.Ok? && Proper(r.value)
    ensures v.major < 0 ==> r == Ok(Version(0, 0))
    ensures v.major >= 0 && v.minor >= 0 ==> r == Ok(Version(v.major, v.minor + 1))
  {
    if v.major < 0 then New(0, 0) else New(v.major, v.minor + 1)
  }

  /** The next version is later and proper. */
  lemma NextIsLater(v: Version)
    requires Proper(v) || v == Unset
    ensures Next(v).Ok? && Lt(v, Next(v).value) && !Lt(Next(v).value, v)
  {
  }

  /** An unset version compares below every proper one. */
  lemma UnsetIsLeast(v: Version)
    requires Proper(v)
    ensures Lt(Unset, v) && !Lt(v, Unset)
  {
  }

  /** VersionNumber.from_string: "M" or "M.m" with decimal parts; more
      parts, a part int() refuses, or a negative part are all GiveUp. */
  function FromString(s: string): (r: Result<Version>)
    ensures r.Ok? ==> Proper(r.value) && |Split(s, '.')| <= 2
    ensures r.Err? ==> r.error.GiveUp?
  {
    var parts := Split(s, '.');
    if |parts| == 1 then
      match ParseInt(parts[0])
      case None => Err(GiveUp("VersionNumber parts must be integers"))
      case Some(major) => New(major, 0)
    else if |parts| == 2 then
      match (ParseInt(parts[0]), ParseInt(parts[1]))
      case (Some(major), Some(minor)) => New(major, minor)
      case _ => Err(GiveUp("VersionNumber parts must be integers"))
    else Err(GiveUp("VersionNumber must be at most 2 parts, <major>.<minor>"))
  }

  /** A proper version read back from its printed form is itself. */
  lemma FromStringOfStr(v: Version)
    requires Proper(v)
    ensures FromString(Str(v)) == Ok(v)
  {
    var a, b := DecimalString(v.major), DecimalString(v.minor);
    assert Str(v) == a + "." + b;
    SplitDotted(a, b);
    DecimalRoundTrip(v.major);
    DecimalRoundTrip(v.minor);
  }

  lemma SplitDotted(a: string, b: string)
    requires AllDigits(a) && AllDigits(b)
    ensures Split(a + "." + b, '.') == [a, b]
  {
    DotFree(a);
    DotFree(b);
    assert a + "." + b == a + ([ '.' ] + b);
    FindAfterFree(a, [ '.' ] + b, '.');
    SplitAt(a + "." + b, '.', a, b);
    assert Find(b, '.') == -1;
  }

  lemma DotFree(s: string)
    requires AllDigits(s)
    ensures '.' !in s
  {
    assert forall i | 0 <= i < |s| :: s[i] != '.';
  }

  /** A single number is read as major.0. */
  lemma FromStringMajor(n: nat)
    ensures FromString(DecimalString(n)) == Ok(Version(n, 0))
  {
    DotFree(DecimalString(n));
    assert Find(DecimalString(n), '.') == -1;
    DecimalRoundTrip(n);
  }

  /** The comparison as written is not an order: 1.5 and 2.0 are each
      below the other. */
  lemma LtNotAsymmetric()
    ensures Lt(Version(1, 5), Version(2, 0)) && Lt(Version(2, 0), Version(1, 5))
  {
  }

  /** Comparing majors first and minors only between equal majors, as
      "major.minor" numbering means. */
  predicate LexLt(v: Version, w: Version) {
    v.major < w.major || (v.major == w.major && v.minor < w.minor)
  }

  /** LexLt is a strict total order, the unset version is below every
      proper one and the next version is later. */
  lemma LexLtIsOrder(u: Version, v: Version, w: Version)
    ensures !LexLt(v, v)
    ensures LexLt(v, w) ==> !LexLt(w, v)
    ensures LexLt(u, v) && LexLt(v, w) ==> LexLt(u, w)
    ensures v == w || LexLt(v, w) || LexLt(w, v)
    ensures Proper(v) ==> LexLt(Unset, v)
    ensures Proper(v) ==> Next(v).Ok? && LexLt(v, Next(v).value)
  {
  }

  /** Wherever the comparison as written is asymmetric it agrees with
      LexLt: the two differ only on versions whose parts disagree. */
  lemma LtAgreesWhenOrdered(v: Version, w: Version)
    ensures LexLt(v, w) ==> Lt(v, w)
    ensures Lt(v, w) && !LexLt(v, w) ==> v.major > w.major && v.minor < w.minor
  {
  }
}
