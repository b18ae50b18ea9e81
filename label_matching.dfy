// The comparisons between labels (Label.match, just_match, unifies, __eq__,
// __lt__, __hash__), the copy_with_* family, and the one piece of a label
// that changes in place: the domain sweep done when a build is included as
// a subdomain.

module LabelMatching {
  import opened Wrappers
  import opened Text
  import opened Labels
  import DomainNames

  const Star: Option<string> := Some("*")

  /** The five identity fields in the order Label.match visits them:
      type, domain, name, role, tag. */
  function Field(l: Label, i: int): Option<string>
    requires 0 <= i < 5
  {
    if i == 0 then Some(l.ty)
    else if i == 1 then l.domain
    else if i == 2 then Some(l.name)
    else if i == 3 then l.role
    else Some(l.tag)
  }

  /** The five fields one by one. */
  lemma FieldValues(l: Label)
    ensures Field(l, 0) == Some(l.ty) && Field(l, 1) == l.domain && Field(l, 2) == Some(l.name)
    ensures Field(l, 3) == l.role && Field(l, 4) == Some(l.tag)
  {
  }

  /** Two fields that agree, or of which one is the wildcard '*'. An absent
      domain or role is not a wildcard. */
  predicate Compatible(x: Option<string>, y: Option<string>) {
    x == y || x == Star || y == Star
  }

  /** Every field of the two labels is compatible. */
  predicate AllCompatible(a: Label, b: Label) {
    forall i | 0 <= i < 5 :: Compatible(Field(a, i), Field(b, i))
  }

  /** One field of Label.match: None for a clash, 1 for a wildcard match of
      differing values, 0 for equal values. */
  function FieldScore(x: Option<string>, y: Option<string>): Option<int> {
    if x == y then Some(0)
    else if x == Star || y == Star then Some(1)
    else None
  }

  /** The number of the first n identity fields in which the labels differ. */
  function Differing(a: Label, b: Label, n: nat): (k: nat)
    requires n <= 5
    ensures k <= n
  {
    if n == 0 then 0
    else Differing(a, b, n - 1) + (if Field(a, n - 1) != Field(b, n - 1) then 1 else 0)
  }

  /** The count of differing fields, field by field. */
  lemma DifferingFields(a: Label, b: Label)
    ensures Differing(a, b, 5) ==
      (if a.ty != b.ty then 1 else 0) + (if a.domain != b.domain then 1 else 0)
      + (if a.name != b.name then 1 else 0) + (if a.role != b.role then 1 else 0)
      + (if a.tag != b.tag then 1 else 0)
  {
    FieldValues(a); FieldValues(b);
    assert Differing(a, b, 1) == (if a.ty != b.ty then 1 else 0);
    assert Differing(a, b, 2) == Differing(a, b, 1) + (if a.domain != b.domain then 1 else 0);
    assert Differing(a, b, 3) == Differing(a, b, 2) + (if a.name != b.name then 1 else 0);
    assert Differing(a, b, 4) == Differing(a, b, 3) + (if a.role != b.role then 1 else 0);
  }

  /** Label.match: None if the labels do not match, otherwise minus the
      number of fields matched only through a wildcard (0 is an exact match,
      more negative is a worse match). */
  function Match(a: Label, b: Label): (r: Option<int>)
    ensures r.Some? <==> AllCompatible(a, b)
    ensures r.Some? ==> -5 <= r.value <= 0
    ensures r == Some(0) <==> Same(a, b)
  {
    FieldValues(a); FieldValues(b);
    var c0 :- FieldScore(Some(a.ty), Some(b.ty));
    var c1 :- FieldScore(a.domain, b.domain);
    var c2 :- FieldScore(Some(a.name), Some(b.name));
    var c3 :- FieldScore(a.role, b.role);
    var c4 :- FieldScore(Some(a.tag), Some(b.tag));
    Some(-(c0 + c1 + c2 + c3 + c4))
  }

  /** The score of a match is minus the number of fields in which the two
      labels differ (each of them through a wildcard). */
  lemma MatchScore(a: Label, b: Label)
    requires AllCompatible(a, b)
    ensures Match(a, b) == Some(-(Differing(a, b, 5) as int))
  {
    DifferingFields(a, b);
  }

  /** Label.just_match: the same test as match without the count, made in the
      order name, tag, type, role, domain. */
  function JustMatch(a: Label, b: Label): (r: bool)
    ensures r <==> AllCompatible(a, b)
  {
    FieldValues(a); FieldValues(b);
    && Compatible(Some(a.name), Some(b.name))
    && Compatible(Some(a.tag), Some(b.tag))
    && Compatible(Some(a.ty), Some(b.ty))
    && Compatible(a.role, b.role)
    && Compatible(a.domain, b.domain)
  }

  /** The two matching functions agree, and matching is symmetric. */
  lemma JustMatchIsMatch(a: Label, b: Label)
    ensures JustMatch(a, b) <==> Match(a, b).Some?
    ensures Match(a, b) == Match(b, a)
  {
  }

  /** Label.unifies: every field of `a` equals the field of `b` or that field
      of `b` is '*'. */
  function Unifies(a: Label, b: Label): (r: bool)
    ensures r <==> forall i | 0 <= i < 5 :: Field(a, i) == Field(b, i) || Field(b, i) == Star
  {
    FieldValues(a); FieldValues(b);
    && (a.ty == b.ty || b.ty == "*")
    && (a.domain == b.domain || b.domain == Star)
    && (a.name == b.name || b.name == "*")
    && (a.role == b.role || b.role == Star)
    && (a.tag == b.tag || b.tag == "*")
  }

  /** Unifying is one direction of matching. */
  lemma UnifiesMatches(a: Label, b: Label)
    requires Unifies(a, b)
    ensures JustMatch(a, b)
  {
  }

  /** Label.__eq__: the five fields, not the flags. */
  predicate Same(a: Label, b: Label) {
    forall i | 0 <= i < 5 :: Field(a, i) == Field(b, i)
  }

  /** Label.__hash__: type, name, role and tag, but not the domain, so that a
      label whose domain is swept keeps its place in a dictionary. */
  function HashKey(l: Label): (r: (string, string, Option<string>, string))
    ensures r.0 == l.ty && r.1 == l.name && r.2 == l.role && r.3 == l.tag
  {
    (l.ty, l.name, l.role, l.tag)
  }

  /** Equal labels hash alike, and a change of domain alone does not change
      the hash. */
  lemma HashAgrees(a: Label, b: Label)
    requires Same(a, b) || (a.ty, a.name, a.role, a.tag) == (b.ty, b.name, b.role, b.tag)
    ensures HashKey(a) == HashKey(b)
  {
    if Same(a, b) {
      assert Field(a, 0) == Field(b, 0) && Field(a, 2) == Field(b, 2);
      assert Field(a, 3) == Field(b, 3) && Field(a, 4) == Field(b, 4);
    }
  }

  /** Label.is_definite: no field is '*'. */
  function IsDefinite(l: Label): (r: bool)
    ensures r <==> forall i | 0 <= i < 5 :: Field(l, i) != Star
  {
    FieldValues(l);
    l.ty != "*" && l.domain != Star && l.name != "*" && l.role != Star && l.tag != "*"
  }

  /** Between definite labels, matching is equality. */
  lemma DefiniteMatchIsSame(a: Label, b: Label)
    requires IsDefinite(a) && IsDefinite(b)
    ensures JustMatch(a, b) <==> Same(a, b)
  {
    if JustMatch(a, b) {
      assert forall i | 0 <= i < 5 :: Field(a, i) == Field(b, i);
    }
  }

  /** Label.match_without_tag: type, domain, name and role agree exactly. */
  function MatchWithoutTag(a: Label, b: Label): (r: bool)
    ensures r <==> forall i | 0 <= i < 4 :: Field(a, i) == Field(b, i)
  {
    FieldValues(a); FieldValues(b);
    a.ty == b.ty && a.domain == b.domain && a.name == b.name && a.role == b.role
  }

  // ---------------------------------------------------------------------
  // Copies

  /** Label.copy_and_unify_with: a copy of `a` in which every field of
      `target` that is not '*' replaces the field of `a` (an absent domain or
      role counts as not '*', so it replaces too); the flags are the
      target's. */
  function CopyAndUnifyWith(a: Label, target: Label): (r: Label)
    ensures r.transient == target.transient && r.system == target.system
  {
    Label(if target.ty != "*" then target.ty else a.ty,
          if target.domain != Star then target.domain else a.domain,
          if target.name != "*" then target.name else a.name,
          if target.role != Star then target.role else a.role,
          if target.tag != "*" then target.tag else a.tag,
          target.transient, target.system)
  }

  /** The copy always unifies with the target, and when `a` already unified
      with it the copy equals `a`. */
  lemma CopyUnifies(a: Label, target: Label)
    ensures forall i | 0 <= i < 5 :: Field(CopyAndUnifyWith(a, target), i) ==
              (if Field(target, i) == Star then Field(a, i) else Field(target, i))
    ensures Unifies(CopyAndUnifyWith(a, target), target)
    ensures Unifies(a, target) ==> Same(CopyAndUnifyWith(a, target), a)
  {
    var r := CopyAndUnifyWith(a, target);
    FieldValues(a); FieldValues(target); FieldValues(r);
    if Unifies(a, target) {
      assert forall i | 0 <= i < 5 :: Field(r, i) == Field(a, i);
    }
  }

  /** Label.copy_with_tag: the tag is checked and replaced; the flags are set
      to the arguments (which default to false). */
  function CopyWithTag(l: Label, tag: string, system: bool, transient: bool): (r: Result<Label>)
    ensures r.Ok? <==> ValidPart(tag)
    ensures r.Ok? ==> r.value.tag == tag && MatchWithoutTag(r.value, l)
    ensures r.Ok? ==> r.value.system == system && r.value.transient == transient
    ensures r.Ok? ==> r.value == l.(tag := tag, system := system, transient := transient)
  {
    if !ValidPart(tag) then Err(GiveUp("Label tag is not allowed"))
    else Ok(l.(tag := tag, system := system, transient := transient))
  }

  /** Label.copy_with_role: the role is checked and replaced. */
  function CopyWithRole(l: Label, role: string): (r: Result<Label>)
    ensures r.Ok? <==> ValidPart(role)
    ensures r.Ok? ==> r.value == l.(role := Some(role))
  {
    if !ValidPart(role) then Err(GiveUp("Label role is not allowed"))
    else Ok(l.(role := Some(role)))
  }

  /** Label.copy_with_domain: '' means no domain; any other domain must pass
      Label.split_domain. */
  function CopyWithDomain(l: Label, domain: Option<string>): (r: Result<Label>)
    ensures r.Ok? <==> domain.None? || domain.value == "" || SplitLabelDomain(domain.value).Ok?
    ensures r.Ok? ==> r.value == l.(domain := if domain == Some("") then None else domain)
    ensures r.Ok? && Valid(l) ==> Valid(r.value)
  {
    var d := if domain == Some("") then None else domain;
    if d.Some? && SplitLabelDomain(d.value).Err? then Err(SplitLabelDomain(d.value).error)
    else Ok(l.(domain := d))
  }

  /** Label.copy_with_flags: only the flags that are given change. */
  function CopyWithFlags(l: Label, transient: Option<bool>, system: Option<bool>): (r: Label)
    ensures Same(r, l)
    ensures r.transient == transient.GetOr(l.transient) && r.system == system.GetOr(l.system)
  {
    FieldValues(l);
    l.(transient := transient.GetOr(l.transient), system := system.GetOr(l.system))
  }

  // ---------------------------------------------------------------------
  // Ordering (Label.__lt__)

  /** Label.__lt__: type, then domain (by asking sort_domains which of the
      two comes first), then name, role and tag. sort_domains can refuse a
      domain, so the answer is a Result. */
  function Less(a: Label, b: Label): Result<bool> {
    if a.ty != b.ty then Ok(LexLess(a.ty, b.ty))
    else if a.domain != b.domain then
      var sorted :- DomainNames.SortDomains([a.domain, b.domain]);
      if |sorted| != 2 then Err(MuddleBug("sort_domains lost a domain"))
      else Ok(if a.domain.None? then sorted[0] == "" else sorted[0] == a.domain.value)
    else if a.name != b.name then Ok(LexLess(a.name, b.name))
    else if a.role != b.role then Ok(OptionLess(a.role, b.role))
    else Ok(LexLess(a.tag, b.tag))
  }

  /** A domain sort_domains can order: absent, or a non-empty name that
      splits with no '~' in its parts (every label domain but '*'
      qualifies). */
  predicate Orderable(d: Option<string>) {
    (d.None? || d.value != "") && DomainNames.Sortable(d)
  }

  /** Domains ordered by their sort key. */
  predicate DomainLess(x: Option<string>, y: Option<string>)
    requires Orderable(x) && Orderable(y)
  {
    x != y && LexLess(DomainNames.Key(x), DomainNames.Key(y))
  }

  /** The order __lt__ means: lexicographic on (type, domain key, name,
      role, tag). */
  predicate Before(a: Label, b: Label)
    requires Orderable(a.domain) && Orderable(b.domain)
  {
    if a.ty != b.ty then LexLess(a.ty, b.ty)
    else if a.domain != b.domain then DomainLess(a.domain, b.domain)
    else if a.name != b.name then LexLess(a.name, b.name)
    else if a.role != b.role then OptionLess(a.role, b.role)
    else LexLess(a.tag, b.tag)
  }

  /** __lt__ computes Before whenever the domains can be ordered. */
  lemma LessIsBefore(a: Label, b: Label)
    requires Orderable(a.domain) && Orderable(b.domain)
    ensures Less(a, b) == Ok(Before(a, b))
  {
    if a.ty == b.ty && a.domain != b.domain {
      var x, y := a.domain, b.domain;
      assert DomainNames.Normalised(x) != DomainNames.Normalised(y);
      DomainNames.SortTwoDomains(x, y);
      if LexLess(DomainNames.Key(x), DomainNames.Key(y)) {
        LexLessAsymmetric(DomainNames.Key(x), DomainNames.Key(y));
      }
    }
  }

  /** Domain order is a strict total order on the domains that differ. */
  lemma DomainLessTotal(x: Option<string>, y: Option<string>)
    requires Orderable(x) && Orderable(y) && x != y
    ensures DomainLess(x, y) != DomainLess(y, x)
  {
    var kx, ky := DomainNames.Key(x), DomainNames.Key(y);
    if kx == ky {
      DomainNames.KeyInjective(x, y);
      assert false;
    }
    LexLessTotal(kx, ky);
    if LexLess(kx, ky) { LexLessAsymmetric(kx, ky); }
  }

  /** Before is irreflexive and, on labels that are not equal, total and
      asymmetric: exactly one of the two comes first. */
  lemma BeforeTotal(a: Label, b: Label)
    requires Orderable(a.domain) && Orderable(b.domain)
    ensures !Before(a, a)
    ensures !Same(a, b) ==> Before(a, b) != Before(b, a)
    ensures Same(a, b) ==> !Before(a, b)
  {
    FieldValues(a); FieldValues(b);
    LexLessIrreflexive(a.tag);
    if a.ty != b.ty {
      LexLessTotal(a.ty, b.ty);
      if LexLess(a.ty, b.ty) { LexLessAsymmetric(a.ty, b.ty); }
    } else if a.domain != b.domain {
      DomainLessTotal(a.domain, b.domain);
    } else if a.name != b.name {
      LexLessTotal(a.name, b.name);
      if LexLess(a.name, b.name) { LexLessAsymmetric(a.name, b.name); }
    } else if a.role != b.role {
      OptionLessTotal(a.role, b.role);
    } else if a.tag != b.tag {
      LexLessTotal(a.tag, b.tag);
      if LexLess(a.tag, b.tag) { LexLessAsymmetric(a.tag, b.tag); }
    } else {
      assert forall i | 0 <= i < 5 :: Field(a, i) == Field(b, i);
    }
  }

  /** Before is transitive. */
  lemma BeforeTransitive(a: Label, b: Label, c: Label)
    requires Orderable(a.domain) && Orderable(b.domain) && Orderable(c.domain)
    requires Before(a, b) && Before(b, c)
    ensures Before(a, c)
  {
    if a.ty != b.ty || b.ty != c.ty {
      if a.ty != b.ty && b.ty != c.ty {
        LexLessTransitive(a.ty, b.ty, c.ty);
        if a.ty == c.ty { LexLessAsymmetric(a.ty, b.ty); }
      }
    } else if a.domain != b.domain || b.domain != c.domain {
      if a.domain != b.domain && b.domain != c.domain {
        LexLessTransitive(DomainNames.Key(a.domain), DomainNames.Key(b.domain), DomainNames.Key(c.domain));
        if a.domain == c.domain {
          LexLessAsymmetric(DomainNames.Key(a.domain), DomainNames.Key(b.domain));
        }
      }
    } else if a.name != b.name || b.name != c.name {
      if a.name != b.name && b.name != c.name {
        LexLessTransitive(a.name, b.name, c.name);
        if a.name == c.name { LexLessAsymmetric(a.name, b.name); }
      }
    } else if a.role != b.role || b.role != c.role {
      if a.role != b.role && b.role != c.role {
        OptionLessTransitive(a.role, b.role, c.role);
        if a.role == c.role { OptionLessTotal(a.role, b.role); }
      }
    } else {
      LexLessTransitive(a.tag, b.tag, c.tag);
    }
  }

  // ---------------------------------------------------------------------
  // Domain sweep

  /** The domain a label gets when its build is included as subdomain `d`:
      the old domain, if any, nests inside the new one. */
  function Swept(l: Label, d: string): (r: Label)
    ensures HashKey(r) == HashKey(l)
  {
    l.(domain := Some(if l.domain.Some? && l.domain.value != "" then d + "(" + l.domain.value + ")" else d))
  }

  /** A label as muddle holds it: the identity and flags, plus the internal
      'unswept' mark used while a subdomain is being included. */
  class LabelCell {
    var current: Label
    var unswept: bool

    constructor (l: Label)
      ensures current == l && !unswept
    {
      current := l;
      unswept := false;
    }

    /** Label._mark_unswept. */
    method MarkUnswept()
      modifies this
      ensures unswept && current == old(current)
    {
      unswept := true;
    }

    /** Label._change_domain: only an unswept label takes the new domain, and
        it is then swept, so a second call changes nothing. */
    method ChangeDomain(d: string)
      modifies this
      ensures current == (if old(unswept) then Swept(old(current), d) else old(current))
      ensures !unswept
    {
      if unswept {
        current := Swept(current, d);
        unswept := false;
      }
    }

    /** str(label), with the D flag while unswept. */
    function Str(): (r: string)
      reads this
      ensures ':' in r && '/' in r
    {
      RenderMarked(current, unswept)
    }
  }

  /** Sweeping a label whose domain splits into `parts` gives a domain that
      splits into the new name followed by those parts. */
  lemma SweptNests(l: Label, d: string, parts: seq<string>)
    requires d != "*" && ValidPart(d)
    requires l.domain.Some? && l.domain.value != "*" && SplitLabelDomain(l.domain.value) == Ok(parts)
    ensures SplitLabelDomain(Swept(l, d).domain.value) == Ok([d] + parts)
  {
    var inner := l.domain.value;
    SweptText(d, inner);
    NestedStep(d + "(" + inner + ")", d, inner, parts);
  }

  /** One step of Label.split_domain on 'd(inner)'. */
  lemma NestedStep(s: string, d: string, inner: string, parts: seq<string>)
    requires ValidDomainText(s) && s != "" && s[|s| - 1] == ')'
    requires Find(s, '(') == |d| && |d| + 1 <= |s| - 1 && d != ""
    requires s[..|d|] == d && s[|d| + 1..|s| - 1] == inner
    requires SplitLabelDomain(inner) == Ok(parts)
    ensures SplitLabelDomain(s) == Ok([d] + parts)
  {
    assert SplitNested(inner) == Ok(parts);
    NestedOnce(s, d, inner, parts);
  }

  lemma NestedOnce(s: string, d: string, inner: string, parts: seq<string>)
    requires s != "" && s[|s| - 1] == ')'
    requires Find(s, '(') == |d| && |d| + 1 <= |s| - 1 && d != ""
    requires s[..|d|] == d && s[|d| + 1..|s| - 1] == inner
    requires SplitNested(inner) == Ok(parts)
    ensures SplitNested(s) == Ok([d] + parts)
  {
  }

  /** The text facts about 'd(inner)'. */
  lemma SweptText(d: string, inner: string)
    requires d != "*" && ValidPart(d) && inner != "*" && ValidDomainText(inner)
    ensures var s := d + "(" + inner + ")";
      && ValidDomainText(s) && s != "" && s[|s| - 1] == ')'
      && Find(s, '(') == |d| && |d| + 1 <= |s| - 1 && d != ""
      && s[..|d|] == d && s[|d| + 1..|s| - 1] == inner
  {
    PartHasNoParen(d);
    NestedFind(d, inner);
    NestedSlices(d, inner);
    NestedChars(d, inner);
  }

  lemma NestedFind(d: string, inner: string)
    requires '(' !in d
    ensures Find(d + "(" + inner + ")", '(') == |d|
  {
    assert d + "(" + inner + ")" == d + ("(" + inner + ")");
    FindAfterFree(d, "(" + inner + ")", '(');
  }

  lemma NestedSlices(d: string, inner: string)
    ensures var s := d + "(" + inner + ")";
      && s[|s| - 1] == ')' && s[..|d|] == d && s[|d| + 1..|s| - 1] == inner
  {
    var s := d + "(" + inner + ")";
    assert s[..|d|] == d;
    assert s[|d| + 1..|s| - 1] == inner;
  }

  lemma PartHasNoParen(d: string)
    requires d != "*" && ValidPart(d)
    ensures '(' !in d && d != ""
  {
    forall i | 0 <= i < |d| ensures d[i] != '(' { assert IsPartChar(d[i]); }
  }

  lemma NestedChars(d: string, inner: string)
    requires d != "*" && ValidPart(d) && inner != "*" && ValidDomainText(inner)
    ensures AllChars(d + "(" + inner + ")", IsDomainChar)
  {
    var s := d + "(" + inner + ")";
    forall i | 0 <= i < |s| ensures IsDomainChar(s[i]) {
      if i < |d| { assert s[i] == d[i]; }
      else if |d| < i < |s| - 1 { assert s[i] == inner[i - |d| - 1]; }
    }
  }
}
