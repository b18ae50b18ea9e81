// The in-memory part of muddled/db.py: what a checkout's data holds, the
// Database's tables keyed on normalised checkout labels, upstream
// repositories, licence exemptions, the build descriptions of domains, the
// names of tag and instruction files, and PathFile, a cached one-line file.

module Db {
  import opened Wrappers
  import opened Text
  import opened Labels
  import opened Vocabulary
  import opened DomainNames
  import opened Utils
  import opened Dicts
  import opened Repositories
  import Rules
  import LabelMatching

  // ---------------------------------------------------------------------
  // CheckoutData

  /** Where a checkout lives, relative to the root of its build tree:
      src/dir/leaf, or src/leaf when no directory is given. */
  function CheckoutLocation(dir: Option<string>, leaf: string): string {
    if Given(dir) then JoinPath("src", [dir.value, leaf]) else PosixJoin("src", leaf)
  }

  /** With relative names, the location is written out plainly. */
  lemma CheckoutLocationShape(dir: Option<string>, leaf: string)
    requires Relative(leaf) && (Given(dir) ==> Relative(dir.value))
    ensures Given(dir) ==> CheckoutLocation(dir, leaf) == "src/" + dir.value + "/" + leaf
    ensures !Given(dir) ==> CheckoutLocation(dir, leaf) == "src/" + leaf
  {
    if Given(dir) {
      var parts := [dir.value, leaf];
      assert RelativeComponents(parts);
      JoinPathFlat("src", parts);
      JoinHead(parts, "/");
      assert parts[1..] == [leaf];
    }
  }

  /** What the database keeps about one checkout. The VCS handler is
      represented by its VCS's short name and the options that VCS allows. */
  class CheckoutData {
    var vcs: string
    var allowedOptions: set<string>
    var repo: Repository
    var dir: Option<string>
    var leaf: string
    var location: string
    var options: map<string, Value>

    constructor (vcs: string, allowedOptions: set<string>, repo: Repository, dir: Option<string>, leaf: string)
      ensures this.vcs == vcs && this.allowedOptions == allowedOptions && this.repo == repo
      ensures this.dir == dir && this.leaf == leaf
      ensures location == CheckoutLocation(dir, leaf) && options == map[]
    {
      this.vcs := vcs;
      this.allowedOptions := allowedOptions;
      this.repo := repo;
      this.dir := dir;
      this.leaf := leaf;
      location := CheckoutLocation(dir, leaf);
      options := map[];
    }

    /** move_to_subdomain: the location moves under the sub-domain's
        directory; dir and leaf stay as the build description gave them. */
    method MoveToSubdomain(domain: string) returns (o: Outcome)
      modifies this
      ensures o.Pass? <==> DomainSubpath(Some(domain)).Ok?
      ensures o.Pass? ==> location == PosixJoin(DomainSubpath(Some(domain)).value, old(location))
      ensures o.Fail? ==> location == old(location)
      ensures dir == old(dir) && leaf == old(leaf) && repo == old(repo) && options == old(options)
      ensures vcs == old(vcs) && allowedOptions == old(allowedOptions)
    {
      var sub := DomainSubpath(Some(domain));
      if sub.Err? {
        return Fail(sub.error);
      }
      location := PosixJoin(sub.value, location);
      return Pass;
    }

    /** set_option: only an option the VCS allows, and only a bool, int or
        string value. */
    method SetOption(name: string, value: Value) returns (o: Outcome)
      modifies this
      ensures o.Pass? <==> name in allowedOptions && !value.NoneValue?
      ensures o.Fail? ==> o.error.GiveUp?
      ensures options == if o.Pass? then old(options)[name := value] else old(options)
      ensures location == old(location) && dir == old(dir) && leaf == old(leaf) && repo == old(repo)
      ensures vcs == old(vcs) && allowedOptions == old(allowedOptions)
    {
      if name !in allowedOptions {
        return Fail(GiveUp("Option is not allowed for this VCS"));
      }
      if value.NoneValue? {
        return Fail(GiveUp("Options to VCS must be bool, int or string"));
      }
      options := options[name := value];
      return Pass;
    }
  }

  /** A checkout moved into the sub-domain 'a' lives at
      domains/a/src/...: the move puts the sub-domain's directory in
      front. */
  lemma MovedCheckoutLocation(domain: string, dir: Option<string>, leaf: string)
    requires IsName(domain) && Relative(leaf) && (Given(dir) ==> Relative(dir.value))
    ensures DomainSubpath(Some(domain)).Ok?
    ensures PosixJoin(DomainSubpath(Some(domain)).value, CheckoutLocation(dir, leaf))
            == "domains/" + domain + "/" + CheckoutLocation(dir, leaf)
  {
    SimpleSubpath(domain);
    CheckoutLocationShape(dir, leaf);
    var loc := CheckoutLocation(dir, leaf);
    var sub := "domains/" + domain;
    assert loc[0] == 's';
    assert sub[|sub| - 1] == domain[|domain| - 1] && IsNameChar(domain[|domain| - 1]);
    PosixJoinPlain(sub, loc);
  }

  lemma SimpleSubpath(domain: string)
    requires IsName(domain)
    ensures DomainSubpath(Some(domain)) == Ok("domains/" + domain)
  {
    assert '(' !in domain by {
      forall i | 0 <= i < |domain| ensures domain[i] != '(' {
        assert IsNameChar(domain[i]);
      }
    }
    assert SplitDomain(Some(domain)) == Ok([domain]);
    assert [domain][1..] == [];
    assert SubpathParts([domain]) == ["domains", domain];
    JoinCons("domains", [domain], "/");
    Assoc("domains", "/", domain);
    assert "domains" + "/" == "domains/";
  }

  // ---------------------------------------------------------------------
  // Normalised checkout labels

  /** The key a checkout label is filed under: its type, domain and name,
      no role, tag '*' and no flags. */
  function CheckoutKey(l: Label): Label {
    Label(l.ty, l.domain, l.name, None, "*", false, false)
  }

  predicate IsCheckoutKey(l: Label) { l.ty == Checkout && l == CheckoutKey(l) }

  /** normalise_checkout_label with the default tag files a checkout label
      under its key and refuses every other label. */
  lemma NormaliseToKey(l: Label)
    ensures l.ty == Checkout ==> Rules.NormaliseCheckoutLabel(l, "*") == Ok(CheckoutKey(l))
    ensures l.ty != Checkout ==> Rules.NormaliseCheckoutLabel(l, "*").Err?
  {
    assert ValidPart("*");
  }

  /** Checkout labels that differ only in role, tag or flags share one
      entry. */
  lemma SharedEntry(a: Label, b: Label)
    requires a.ty == Checkout && b.ty == Checkout
    ensures CheckoutKey(a) == CheckoutKey(b) <==> a.domain == b.domain && a.name == b.name
  {
  }

  /** copy_with_tag('*') unless the tag already is '*'. */
  function StarKey(l: Label): (k: Label)
    ensures k.tag == "*" && k.ty == l.ty && k.domain == l.domain && k.name == l.name && k.role == l.role
    ensures l.tag == "*" ==> k == l
  {
    if l.tag == "*" then l
    else
      assert ValidPart("*");
      LabelMatching.CopyWithTag(l, "*", false, false).value
  }

  // ---------------------------------------------------------------------
  // Upstream repositories

  /** One upstream of a repository: the upstream itself and its names. */
  datatype Upstream = Upstream(repo: Repository, names: set<string>)

  /** add_upstream_repo's 'names': one string or a sequence of them. */
  datatype Names = OneName(name: string) | ManyNames(list: seq<string>)

  function NameList(n: Names): seq<string> {
    match n
    case OneName(s) => [s]
    case ManyNames(s) => s
  }

  /** `not names` */
  predicate NoNames(n: Names) {
    match n
    case OneName(s) => s == ""
    case ManyNames(s) => s == []
  }

  predicate AllNames(ns: seq<string>) { forall i | 0 <= i < |ns| :: IsName(ns[i]) }

  /** get_upstream_repos filters by name when given a non-empty list. */
  predicate Filtering(names: Option<seq<string>>) { names.Some? && names.value != [] }

  /** The names reported for an upstream: those it shares with the
      filter, or all of them. */
  function Matching(ns: set<string>, names: Option<seq<string>>): set<string> {
    if Filtering(names) then ns * Elements(names.value) else ns
  }

  predicate Selected(ns: set<string>, names: Option<seq<string>>) {
    !Filtering(names) || Matching(ns, names) != {}
  }

  /** The loop of get_upstream_repos over the keys in order. */
  method SelectUpstreams(inner: map<Key, Upstream>, names: Option<seq<string>>, sorted: seq<Key>)
    returns (r: seq<(Repository, seq<string>)>, ghost idx: seq<nat>)
    requires forall j | 0 <= j < |sorted| :: sorted[j] in inner
    requires forall x | x in inner :: KeyOf(inner[x].repo) == x
    requires Distinct(sorted)
    ensures Progress(inner, names, sorted, |sorted|, r, idx)
  {
    r, idx := [], [];
    var i := 0;
    while i < |sorted|
      invariant i <= |sorted|
      invariant Progress(inner, names, sorted, i, r, idx)
    {
      var u := inner[sorted[i]];
      if Selected(u.names, names) {
        var ordered := SortedNames(Matching(u.names, names));
        ProgressAppend(inner, names, sorted, i, r, idx, (u.repo, ordered));
        r, idx := r + [(u.repo, ordered)], idx + [i];
      } else {
        ProgressSkip(inner, names, sorted, i, r, idx);
      }
      i := i + 1;
    }
  }

  function KeysOf(r: seq<(Repository, seq<string>)>): set<Key> {
    set j | 0 <= j < |r| :: KeyOf(r[j].0)
  }

  /** An entry of get_upstream_repos' answer: a selected upstream and its
      matching names, sorted. */
  predicate ListedEntry(inner: map<Key, Upstream>, names: Option<seq<string>>, e: (Repository, seq<string>)) {
    && KeyOf(e.0) in inner && e.0 == inner[KeyOf(e.0)].repo
    && Selected(inner[KeyOf(e.0)].names, names)
    && Sorted(e.1) && Distinct(e.1) && Elements(e.1) == Matching(inner[KeyOf(e.0)].names, names)
  }

  /** The whole answer: the selected upstreams, each once, in repository
      order. */
  predicate Listed(inner: map<Key, Upstream>, names: Option<seq<string>>, r: seq<(Repository, seq<string>)>) {
    && (forall j | 0 <= j < |r| :: ListedEntry(inner, names, r[j]))
    && (forall a, b | 0 <= a < b < |r| :: KeyLess(KeyOf(r[a].0), KeyOf(r[b].0)))
    && KeysOf(r) == set x | x in inner && Selected(inner[x].names, names)
  }

  /** Every upstream added is reported by an unfiltered query, with the
      names it was added with. */
  lemma AddedUpstreamListed(inner: map<Key, Upstream>, up: Repository, ns: set<string>,
                            r: seq<(Repository, seq<string>)>) returns (j: nat)
    requires Listed(inner[KeyOf(up) := Upstream(up, ns)], None, r)
    ensures j < |r| && r[j].0 == up && Elements(r[j].1) == ns
  {
    var m := inner[KeyOf(up) := Upstream(up, ns)];
    assert KeyOf(up) in set x | x in m && Selected(m[x].names, None);
    assert KeyOf(up) in KeysOf(r);
    var k :| 0 <= k < |r| && KeyOf(r[k].0) == KeyOf(up);
    assert ListedEntry(m, None, r[k]);
    j := k;
  }

  // ---------------------------------------------------------------------
  // The Database

  class Database {
    var rootPath: string
    var checkoutData: map<Label, CheckoutData>
    var licenseNotAffectedBy: map<Label, set<Label>>
    var nothingBuildsAgainst: set<Label>
    var upstreams: map<Key, map<Key, Upstream>>
    var domainBuildDesc: map<Option<string>, Label>

    /** Every checkout table is keyed on normalised labels, and every
        upstream is filed under its own key. */
    ghost predicate Valid()
      reads this
    {
      && KeysNormalised(checkoutData.Keys)
      && LicencesNormalised(licenseNotAffectedBy)
      && KeysNormalised(nothingBuildsAgainst)
      && UpstreamsFiled(upstreams)
    }

    constructor (rootPath: string)
      ensures Valid() && this.rootPath == rootPath
      ensures checkoutData == map[] && licenseNotAffectedBy == map[] && nothingBuildsAgainst == {}
      ensures upstreams == map[] && domainBuildDesc == map[]
    {
      this.rootPath := rootPath;
      checkoutData := map[];
      licenseNotAffectedBy := map[];
      nothingBuildsAgainst := {};
      upstreams := map[];
      domainBuildDesc := map[];
    }

    // -- checkout data ---------------------------------------------------

    /** set_checkout_data: filed under the label's key. */
    method SetCheckoutData(l: Label, data: CheckoutData) returns (o: Outcome)
      requires Valid()
      modifies this
      ensures Valid()
      ensures o.Pass? <==> l.ty == Checkout
      ensures o.Fail? ==> o.error.MuddleBug?
      ensures checkoutData == if o.Pass? then old(checkoutData)[CheckoutKey(l) := data] else old(checkoutData)
      ensures rootPath == old(rootPath) && upstreams == old(upstreams) && domainBuildDesc == old(domainBuildDesc)
      ensures licenseNotAffectedBy == old(licenseNotAffectedBy) && nothingBuildsAgainst == old(nothingBuildsAgainst)
    {
      NormaliseToKey(l);
      var k := Rules.NormaliseCheckoutLabel(l, "*");
      if k.Err? {
        return Fail(k.error);
      }
      checkoutData := checkoutData[k.value := data];
      return Pass;
    }

    /** get_checkout_data: a label whose key has no entry is a GiveUp. */
    method GetCheckoutData(l: Label) returns (r: Result<CheckoutData>)
      requires Valid()
      ensures r.Ok? <==> l.ty == Checkout && CheckoutKey(l) in checkoutData
      ensures r.Ok? ==> r.value == checkoutData[CheckoutKey(l)]
      ensures r.Err? ==> (r.error.MuddleBug? <==> l.ty != Checkout) && (r.error.GiveUp? <==> l.ty == Checkout)
    {
      NormaliseToKey(l);
      var k := Rules.NormaliseCheckoutLabel(l, "*");
      if k.Err? {
        return Err(k.error);
      }
      if k.value !in checkoutData {
        return Err(GiveUp("There is no checkout data registered for label"));
      }
      return Ok(checkoutData[k.value]);
    }

    /** get_checkout_location: relative to the root; "src" for None. */
    method GetCheckoutLocation(l: Option<Label>) returns (r: Result<string>)
      requires Valid()
      ensures l.None? ==> r == Ok("src")
      ensures l.Some? ==> (r.Ok? <==> l.value.ty == Checkout && CheckoutKey(l.value) in checkoutData)
      ensures l.Some? && r.Ok? ==> r.value == checkoutData[CheckoutKey(l.value)].location
    {
      if l.None? {
        return Ok("src");
      }
      var d := GetCheckoutData(l.value);
      if d.Err? {
        return Err(d.error);
      }
      return Ok(d.value.location);
    }

    /** get_checkout_path: the location below the root; root/src for
        None. */
    method GetCheckoutPath(l: Option<Label>) returns (r: Result<string>)
      requires Valid()
      ensures l.None? ==> r == Ok(PosixJoin(rootPath, "src"))
      ensures l.Some? ==> (r.Ok? <==> l.value.ty == Checkout && CheckoutKey(l.value) in checkoutData)
      ensures l.Some? && r.Ok? ==> r.value == PosixJoin(rootPath, checkoutData[CheckoutKey(l.value)].location)
    {
      var loc := GetCheckoutLocation(l);
      if loc.Err? {
        return loc;
      }
      return Ok(PosixJoin(rootPath, loc.value));
    }

    /** get_checkout_dir_and_leaf */
    method GetCheckoutDirAndLeaf(l: Label) returns (r: Result<(Option<string>, string)>)
      requires Valid()
      ensures r.Ok? <==> l.ty == Checkout && CheckoutKey(l) in checkoutData
      ensures r.Ok? ==> r.value == (checkoutData[CheckoutKey(l)].dir, checkoutData[CheckoutKey(l)].leaf)
    {
      var d := GetCheckoutData(l);
      if d.Err? {
        return Err(d.error);
      }
      return Ok((d.value.dir, d.value.leaf));
    }

    /** get_checkout_repo */
    method GetCheckoutRepo(l: Label) returns (r: Result<Repository>)
      requires Valid()
      ensures r.Ok? <==> l.ty == Checkout && CheckoutKey(l) in checkoutData
      ensures r.Ok? ==> r.value == checkoutData[CheckoutKey(l)].repo
    {
      var d := GetCheckoutData(l);
      if d.Err? {
        return Err(d.error);
      }
      return Ok(d.value.repo);
    }

    /** get_checkout_vcs_options */
    method GetCheckoutVcsOptions(l: Label) returns (r: Result<map<string, Value>>)
      requires Valid()
      ensures r.Ok? <==> l.ty == Checkout && CheckoutKey(l) in checkoutData
      ensures r.Ok? ==> r.value == checkoutData[CheckoutKey(l)].options
    {
      var d := GetCheckoutData(l);
      if d.Err? {
        return Err(d.error);
      }
      return Ok(d.value.options);
    }

    /** set_checkout_vcs_option: an absent entry is a KeyError here, not a
        GiveUp. */
    method SetCheckoutVcsOption(l: Label, name: string, value: Value) returns (o: Outcome)
      requires Valid()
      modifies checkoutData.Values
      ensures o.Pass? ==> l.ty == Checkout && CheckoutKey(l) in checkoutData
      ensures l.ty == Checkout && CheckoutKey(l) !in checkoutData ==> o.Fail? && o.error.Crash?
      ensures o.Pass? ==> checkoutData[CheckoutKey(l)].options == old(checkoutData[CheckoutKey(l)].options)[name := value]
      ensures l.ty == Checkout && CheckoutKey(l) in checkoutData ==>
        (o.Pass? <==> name in checkoutData[CheckoutKey(l)].allowedOptions && !value.NoneValue?)
    {
      NormaliseToKey(l);
      var k := Rules.NormaliseCheckoutLabel(l, "*");
      if k.Err? {
        return Fail(k.error);
      }
      if k.value !in checkoutData {
        return Fail(Crash("KeyError"));
      }
      o := checkoutData[k.value].SetOption(name, value);
    }

    // -- build descriptions of domains -----------------------------------

    /** set_domain_build_desc_label: filed under the label's domain, the
        empty domain counting as None. */
    method SetDomainBuildDescLabel(l: Label) returns (o: Outcome)
      requires Valid()
      modifies this
      ensures Valid()
      ensures o.Pass? <==> l.ty == Checkout
      ensures domainBuildDesc == if o.Pass? then old(domainBuildDesc)[TopIsNone(l.domain) := CheckoutKey(l)]
                                 else old(domainBuildDesc)
      ensures rootPath == old(rootPath) && checkoutData == old(checkoutData) && upstreams == old(upstreams)
      ensures licenseNotAffectedBy == old(licenseNotAffectedBy) && nothingBuildsAgainst == old(nothingBuildsAgainst)
    {
      NormaliseToKey(l);
      var k := Rules.NormaliseCheckoutLabel(l, "*");
      if k.Err? {
        return Fail(k.error);
      }
      domainBuildDesc := domainBuildDesc[TopIsNone(l.domain) := k.value];
      return Pass;
    }

    /** get_domain_build_desc_label: an unknown domain is a GiveUp. */
    method GetDomainBuildDescLabel(domain: Option<string>) returns (r: Result<Label>)
      ensures r.Ok? <==> TopIsNone(domain) in domainBuildDesc
      ensures r.Ok? ==> r.value == domainBuildDesc[TopIsNone(domain)]
      ensures r.Err? ==> r.error.GiveUp?
    {
      var d := TopIsNone(domain);
      if d !in domainBuildDesc {
        return Err(GiveUp("There is no build description checkout label registered for domain"));
      }
      return Ok(domainBuildDesc[d]);
    }

    /** _merge_domain_information: the sub-build's own build description
        must be in the sub-domain, and every domain both builds know must
        have the same label; the domains only the sub-build knows are
        added. The sub-build's labels are taken in no particular order, so
        a clash can leave some of them added. */
    method MergeDomainInformation(otherName: string, other: map<Option<string>, Label>) returns (o: Outcome)
      modifies this
      ensures None !in other ==> o.Fail? && o.error.Crash? && domainBuildDesc == old(domainBuildDesc)
      ensures None in other && other[None].domain != Some(otherName) ==>
        o.Fail? && o.error.MuddleBug? && domainBuildDesc == old(domainBuildDesc)
      ensures o.Pass? <==> None in other && other[None].domain == Some(otherName) && Agree(old(domainBuildDesc), other.Values)
      ensures o.Fail? ==> o.error.Crash? || o.error.MuddleBug?
      ensures o.Pass? ==> domainBuildDesc.Keys == old(domainBuildDesc).Keys + DomainsOf(other.Values)
      ensures o.Pass? ==> forall d | d in old(domainBuildDesc) :: domainBuildDesc[d] == old(domainBuildDesc)[d]
      ensures o.Pass? ==> forall l | l in other.Values :: domainBuildDesc[l.domain] == l
      ensures rootPath == old(rootPath) && checkoutData == old(checkoutData) && upstreams == old(upstreams)
      ensures licenseNotAffectedBy == old(licenseNotAffectedBy) && nothingBuildsAgainst == old(nothingBuildsAgainst)
    {
      if None !in other {
        return Fail(Crash("KeyError"));
      }
      if other[None].domain != Some(otherName) {
        return Fail(MuddleBug("Error merging domain_build_desc_label for subdomain"));
      }
      var m, ok := MergeLabels(domainBuildDesc, other.Values);
      domainBuildDesc := m;
      if !ok {
        return Fail(MuddleBug("Error merging domain_build_desc_label dictionary into subdomain"));
      }
      return Pass;
    }

    // -- licences ----------------------------------------------------------

    /** get_license_not_affected_by: the checkouts registered for the
        label (looked up with tag '*'), none when nothing is. */
    function GetLicenseNotAffectedBy(l: Label): (s: set<Label>)
      requires Valid()
      reads this
      ensures forall c | c in s :: IsCheckoutKey(c)
      ensures s == Exempt(licenseNotAffectedBy, StarKey(l))
    {
      Exempt(licenseNotAffectedBy, StarKey(l))
    }

    /** set_license_not_affected_by: the first label is a package or a
        checkout, the second a checkout; the exemption accumulates under
        the first label with tag '*'. */
    method SetLicenseNotAffectedBy(l: Label, co: Label) returns (o: Outcome)
      requires Valid()
      modifies this
      ensures Valid()
      ensures o.Pass? <==> (l.ty == Package || l.ty == Checkout) && co.ty == Checkout
      ensures o.Fail? ==> o.error.GiveUp? && licenseNotAffectedBy == old(licenseNotAffectedBy)
      ensures o.Pass? ==> licenseNotAffectedBy == old(licenseNotAffectedBy)[StarKey(l) :=
        Exempt(old(licenseNotAffectedBy), StarKey(l)) + {CheckoutKey(co)}]
      ensures rootPath == old(rootPath) && checkoutData == old(checkoutData) && upstreams == old(upstreams)
      ensures domainBuildDesc == old(domainBuildDesc) && nothingBuildsAgainst == old(nothingBuildsAgainst)
    {
      if l.ty != Package && l.ty != Checkout {
        return Fail(GiveUp("First label in set_license_not_affected_by() is not a package or checkout"));
      }
      if co.ty != Checkout {
        return Fail(GiveUp("Second label in set_license_not_affected_by() is not a checkout"));
      }
      var k := StarKey(l);
      NormaliseToKey(co);
      var v := Rules.NormaliseCheckoutLabel(co, "*").value;
      LicenceAdded(licenseNotAffectedBy, k, v);
      licenseNotAffectedBy := licenseNotAffectedBy[k := Exempt(licenseNotAffectedBy, k) + {v}];
      return Pass;
    }

    /** set_nothing_builds_against */
    method SetNothingBuildsAgainst(co: Label) returns (o: Outcome)
      requires Valid()
      modifies this
      ensures Valid()
      ensures o.Pass? <==> co.ty == Checkout
      ensures nothingBuildsAgainst == if o.Pass? then old(nothingBuildsAgainst) + {CheckoutKey(co)}
                                      else old(nothingBuildsAgainst)
      ensures rootPath == old(rootPath) && checkoutData == old(checkoutData) && upstreams == old(upstreams)
      ensures domainBuildDesc == old(domainBuildDesc) && licenseNotAffectedBy == old(licenseNotAffectedBy)
    {
      NormaliseToKey(co);
      var k := Rules.NormaliseCheckoutLabel(co, "*");
      if k.Err? {
        return Fail(k.error);
      }
      nothingBuildsAgainst := nothingBuildsAgainst + {k.value};
      return Pass;
    }

    /** get_nothing_builds_against: whether the checkout's key was
        registered. */
    method GetNothingBuildsAgainst(co: Label) returns (r: Result<bool>)
      requires Valid()
      ensures r.Ok? <==> co.ty == Checkout
      ensures r.Ok? ==> (r.value <==> exists c | c in nothingBuildsAgainst :: c.domain == co.domain && c.name == co.name)
    {
      NormaliseToKey(co);
      var k := Rules.NormaliseCheckoutLabel(co, "*");
      if k.Err? {
        return Err(k.error);
      }
      if k.value in nothingBuildsAgainst {
        assert k.value.domain == co.domain && k.value.name == co.name;
      } else {
        forall c | c in nothingBuildsAgainst ensures !(c.domain == co.domain && c.name == co.name) {
          assert IsCheckoutKey(c);
        }
      }
      return Ok(k.value in nothingBuildsAgainst);
    }

    // -- upstream repositories -------------------------------------------

    /** add_upstream_repo: at least one name, every name a full match of
        [A-Za-z0-9_-]+, and an upstream not already registered for that
        repository. */
    method AddUpstreamRepo(orig: Repository, up: Repository, names: Names) returns (o: Outcome)
      requires Valid()
      modifies this
      ensures Valid()
      ensures o.Pass? <==> !NoNames(names) && AllNames(NameList(names))
                           && !(KeyOf(orig) in old(upstreams) && KeyOf(up) in old(upstreams)[KeyOf(orig)])
      ensures o.Fail? ==> o.error.GiveUp? && upstreams == old(upstreams)
      ensures o.Pass? ==> upstreams == old(upstreams)[KeyOf(orig) :=
        (if KeyOf(orig) in old(upstreams) then old(upstreams)[KeyOf(orig)] else map[])
        [KeyOf(up) := Upstream(up, Elements(NameList(names)))]]
      ensures rootPath == old(rootPath) && checkoutData == old(checkoutData) && domainBuildDesc == old(domainBuildDesc)
      ensures licenseNotAffectedBy == old(licenseNotAffectedBy) && nothingBuildsAgainst == old(nothingBuildsAgainst)
    {
      if NoNames(names) {
        return Fail(GiveUp("An upstream repository must have at least one name"));
      }
      var list := NameList(names);
      var i := 0;
      while i < |list|
        invariant 0 <= i <= |list|
        invariant forall j | 0 <= j < i :: IsName(list[j])
      {
        if !IsName(list[i]) {
          return Fail(GiveUp("Upstream repository name is not allowed"));
        }
        i := i + 1;
      }
      var k := KeyOf(orig);
      var inner: map<Key, Upstream> := map[];
      if k in upstreams {
        inner := upstreams[k];
        if KeyOf(up) in inner {
          return Fail(GiveUp("Repository is already upstream"));
        }
      }
      upstreams := upstreams[k := inner[KeyOf(up) := Upstream(up, Elements(list))]];
      return Pass;
    }

    /** get_upstream_repos: nothing for an unknown repository; otherwise
        its upstreams in repository order, each with its names sorted,
        keeping only those sharing a name with a non-empty filter. */
    method GetUpstreamRepos(orig: Repository, names: Option<seq<string>>) returns (r: seq<(Repository, seq<string>)>)
      requires Valid()
      ensures KeyOf(orig) !in upstreams ==> r == []
      ensures KeyOf(orig) in upstreams ==> Listed(upstreams[KeyOf(orig)], names, r)
    {
      var k := KeyOf(orig);
      if k !in upstreams {
        return [];
      }
      var inner := upstreams[k];
      var ks := ListOf(inner.Keys);
      var sorted := SortKeys(ks);
      PermutationKeepsDistinct(ks, sorted);
      assert forall j | 0 <= j < |sorted| :: sorted[j] in Elements(sorted);
      ghost var idx;
      r, idx := SelectUpstreams(inner, names, sorted);
      ProgressDone(inner, names, sorted, r, idx);
    }
  }

  /** The checkouts a label is exempted from, none when it has no entry. */
  function Exempt(m: map<Label, set<Label>>, k: Label): set<Label> {
    if k in m then m[k] else {}
  }

  /** Exempting one label adds the checkout to its own set and changes no
      other label's set. */
  lemma ExemptionIsPerLabel(m: map<Label, set<Label>>, l: Label, co: Label, x: Label)
    ensures Exempt(m[StarKey(l) := Exempt(m, StarKey(l)) + {CheckoutKey(co)}], StarKey(l))
            == Exempt(m, StarKey(l)) + {CheckoutKey(co)}
    ensures StarKey(x) != StarKey(l) ==>
            Exempt(m[StarKey(l) := Exempt(m, StarKey(l)) + {CheckoutKey(co)}], StarKey(x)) == Exempt(m, StarKey(x))
  {
  }

  predicate KeysNormalised(ks: set<Label>) {
    forall k | k in ks :: IsCheckoutKey(k)
  }

  predicate LicencesNormalised(m: map<Label, set<Label>>) {
    forall k | k in m :: k.tag == "*" && KeysNormalised(m[k])
  }

  predicate UpstreamsFiled(u: map<Key, map<Key, Upstream>>) {
    forall o, k | o in u && k in u[o] :: KeyOf(u[o][k].repo) == k
  }

  lemma LicenceAdded(m: map<Label, set<Label>>, k: Label, v: Label)
    requires LicencesNormalised(m) && k.tag == "*" && IsCheckoutKey(v)
    ensures LicencesNormalised(m[k := Exempt(m, k) + {v}])
  {
  }

  /** The empty domain names the top-level build. */
  function TopIsNone(d: Option<string>): Option<string> {
    if d == Some("") then None else d
  }

  function DomainsOf(ls: set<Label>): set<Option<string>> {
    set l | l in ls :: l.domain
  }

  /** The labels agree with the table and with one another on every
      domain they name. */
  ghost predicate Agree(m: map<Option<string>, Label>, ls: set<Label>) {
    && (forall l | l in ls :: l.domain in m ==> m[l.domain] == l)
    && (forall a, b | a in ls && b in ls && a.domain == b.domain :: a == b)
  }

  /** The loop of _merge_domain_information over the sub-build's labels,
      stopping at the first clash. */
  method MergeLabels(start: map<Option<string>, Label>, all: set<Label>) returns (m: map<Option<string>, Label>, ok: bool)
    ensures ok <==> Agree(start, all)
    ensures ok ==> MergedSoFar(start, m, all)
  {
    m := start;
    var todo := all;
    while todo != {}
      invariant todo <= all
      invariant MergedSoFar(start, m, all - todo)
    {
      var l :| l in todo;
      ghost var done := all - todo;
      if l.domain in m && l != m[l.domain] {
        Clash(start, m, done, l, all);
        return m, false;
      }
      MergeStep(start, m, done, l);
      if l.domain !in m {
        m := m[l.domain := l];
      }
      assert all - (todo - {l}) == done + {l};
      todo := todo - {l};
    }
    assert all - todo == all;
    return m, true;
  }

  /** After the labels `done` of the sub-build: the table holds the old
      entries and every label of `done` under its domain. */
  ghost predicate MergedSoFar(start: map<Option<string>, Label>, m: map<Option<string>, Label>, done: set<Label>) {
    && m.Keys == start.Keys + DomainsOf(done)
    && (forall d | d in start :: m[d] == start[d])
    && (forall l | l in done :: l.domain in m && m[l.domain] == l)
    && Agree(start, done)
  }

  lemma MergeStep(start: map<Option<string>, Label>, m: map<Option<string>, Label>, done: set<Label>, l: Label)
    requires MergedSoFar(start, m, done)
    requires l.domain in m ==> m[l.domain] == l
    ensures MergedSoFar(start, if l.domain in m then m else m[l.domain := l], done + {l})
  {
    var m' := if l.domain in m then m else m[l.domain := l];
    DomainsGrow(done, l);
    assert m'.Keys == start.Keys + DomainsOf(done + {l});
    assert forall d | d in start :: m'[d] == start[d];
    assert forall a | a in done + {l} :: a.domain in m' && m'[a.domain] == a;
    AgreeStep(start, m, done, l);
  }

  lemma DomainsGrow(done: set<Label>, l: Label)
    ensures DomainsOf(done + {l}) == DomainsOf(done) + {l.domain}
  {
  }

  lemma AgreeStep(start: map<Option<string>, Label>, m: map<Option<string>, Label>, done: set<Label>, l: Label)
    requires MergedSoFar(start, m, done)
    requires l.domain in m ==> m[l.domain] == l
    ensures Agree(start, done + {l})
  {
    forall a | a in done && a.domain == l.domain ensures a == l {
      assert m[a.domain] == a;
    }
    if l.domain in start {
      assert m[l.domain] == start[l.domain];
    }
  }

  /** A label that disagrees with the table being built shows that the
      sub-build's labels disagree with the table or with one another. */
  lemma Clash(start: map<Option<string>, Label>, m: map<Option<string>, Label>, done: set<Label>, l: Label,
              all: set<Label>)
    requires MergedSoFar(start, m, done)
    requires l.domain in m && m[l.domain] != l
    requires done + {l} <= all
    ensures !Agree(start, all)
  {
    if l.domain !in start {
      assert l.domain in DomainsOf(done);
      var a :| a in done && a.domain == l.domain;
      assert a in all && a != l;
    }
  }

  /** get_upstream_repos after the first i keys in order: the entries so
      far are listed, taken at increasing positions idx, and exactly the
      selected ones among the first i keys are in. */
  ghost predicate Progress(inner: map<Key, Upstream>, names: Option<seq<string>>, sorted: seq<Key>, i: nat,
                           r: seq<(Repository, seq<string>)>, idx: seq<nat>) {
    && (forall j | 0 <= j < |sorted| :: sorted[j] in inner)
    && i <= |sorted| && |idx| == |r|
    && (forall j | 0 <= j < |r| :: ListedEntry(inner, names, r[j]))
    && (forall j | 0 <= j < |r| :: idx[j] < i && KeyOf(r[j].0) == sorted[idx[j]])
    && (forall a, b | 0 <= a < b < |r| :: idx[a] < idx[b])
    && (forall j | 0 <= j < i :: (sorted[j] in KeysOf(r) <==> Selected(inner[sorted[j]].names, names)))
  }

  lemma ProgressAppend(inner: map<Key, Upstream>, names: Option<seq<string>>, sorted: seq<Key>, i: nat,
                       r: seq<(Repository, seq<string>)>, idx: seq<nat>, e: (Repository, seq<string>))
    requires Progress(inner, names, sorted, i, r, idx) && Distinct(sorted) && i < |sorted|
    requires KeyOf(e.0) == sorted[i] && ListedEntry(inner, names, e)
    ensures Progress(inner, names, sorted, i + 1, r + [e], idx + [i])
  {
    var r', idx' := r + [e], idx + [i];
    assert forall j | 0 <= j < |r| :: r'[j] == r[j] && idx'[j] == idx[j];
    assert KeysOf(r') == KeysOf(r) + {sorted[i]} by {
      assert forall j | 0 <= j < |r| :: KeyOf(r'[j].0) == KeyOf(r[j].0);
      assert KeyOf(r'[|r|].0) == sorted[i];
    }
    forall j | 0 <= j < i ensures sorted[j] != sorted[i] { }
  }

  lemma ProgressSkip(inner: map<Key, Upstream>, names: Option<seq<string>>, sorted: seq<Key>, i: nat,
                     r: seq<(Repository, seq<string>)>, idx: seq<nat>)
    requires Progress(inner, names, sorted, i, r, idx) && Distinct(sorted) && i < |sorted|
    requires !Selected(inner[sorted[i]].names, names)
    ensures Progress(inner, names, sorted, i + 1, r, idx)
  {
    forall j | 0 <= j < |r| ensures KeyOf(r[j].0) != sorted[i] {
      assert sorted[idx[j]] != sorted[i];
    }
  }

  lemma ProgressDone(inner: map<Key, Upstream>, names: Option<seq<string>>, sorted: seq<Key>,
                     r: seq<(Repository, seq<string>)>, idx: seq<nat>)
    requires Progress(inner, names, sorted, |sorted|, r, idx)
    requires SortedKeys(sorted) && Distinct(sorted) && Elements(sorted) == inner.Keys
    ensures Listed(inner, names, r)
  {
    forall a, b | 0 <= a < b < |r| ensures KeyLess(KeyOf(r[a].0), KeyOf(r[b].0)) {
      assert sorted[idx[a]] != sorted[idx[b]];
    }
    forall x | x in inner
      ensures x in KeysOf(r) <==> Selected(inner[x].names, names)
    {
      assert x in Elements(sorted);
      var j :| 0 <= j < |sorted| && sorted[j] == x;
    }
    forall x | x in KeysOf(r) ensures x in inner {
      var j :| 0 <= j < |r| && KeyOf(r[j].0) == x;
      assert ListedEntry(inner, names, r[j]);
    }
  }

  // ---------------------------------------------------------------------
  // File names

  /** db_file_name: a file in the root's .muddle directory. */
  function DbFileName(root: string, rel: string): string {
    JoinPath(root, [".muddle", rel])
  }

  /** tag_file_name: root[/domains/...]/.muddle/tags/type/name/leaf, the
      leaf being the tag, or role-tag when the label has a role. Any
      domain, even an empty one, goes through domain_subpath. */
  function TagFileName(root: string, l: Label): (r: Result<string>)
    ensures l.domain.None? ==> r == Ok(JoinPath(root, [".muddle", "tags", l.ty, l.name, TagLeaf(l)]))
    ensures l.domain.Some? ==> (r.Ok? <==> DomainSubpath(l.domain).Ok?)
  {
    var base :- if l.domain.Some? then
                  var sub :- DomainSubpath(l.domain); Ok(PosixJoin(root, sub))
                else Ok(root);
    Ok(JoinPath(base, [".muddle", "tags", l.ty, l.name, TagLeaf(l)]))
  }

  function TagLeaf(l: Label): string {
    if l.role.None? then l.tag else l.role.value + "-" + l.tag
  }

  /** In the top-level build, the tag file of a label with valid parts is
      root/.muddle/tags/type/name/tag, or .../role-tag. */
  lemma TagFileShape(root: string, l: Label)
    requires JoinableBase(root) && l.domain.None? && PartsValid(l)
    ensures TagFileName(root, l) == Ok(root + "/" + ".muddle" + "/" + "tags" + "/" + l.ty + "/" + l.name + "/" + TagLeaf(l))
  {
    var parts := [".muddle", "tags", l.ty, l.name, TagLeaf(l)];
    PartRelative(l.ty);
    PartRelative(l.name);
    PartRelative(l.tag);
    if l.role.Some? {
      PartRelative(l.role.value);
    }
    assert Relative(TagLeaf(l));
    assert RelativeComponents(parts) by {
      assert forall i | 0 <= i < |parts| :: Relative(parts[i]);
    }
    JoinPathFlat(root, parts);
    JoinCons(root, parts, "/");
    Assoc(root, "/", Join(parts, "/"));
    assert [root] + parts == [root, ".muddle", "tags", l.ty, l.name, TagLeaf(l)];
    JoinSix(root, ".muddle", "tags", l.ty, l.name, TagLeaf(l));
  }

  lemma Assoc(x: string, y: string, z: string)
    ensures x + (y + z) == x + y + z
  {
  }

  /** Joining six parts with "/" puts one "/" between neighbours. */
  lemma JoinSix(r: string, a: string, b: string, c: string, d: string, e: string)
    ensures Join([r, a, b, c, d, e], "/") == r + "/" + a + "/" + b + "/" + c + "/" + d + "/" + e
  {
    JoinAppend([r], [a], "/");
    assert [r] + [a] == [r, a];
    JoinAppend([r, a], [b], "/");
    assert [r, a] + [b] == [r, a, b];
    JoinAppend([r, a, b], [c], "/");
    assert [r, a, b] + [c] == [r, a, b, c];
    JoinAppend([r, a, b, c], [d], "/");
    assert [r, a, b, c] + [d] == [r, a, b, c, d];
    JoinAppend([r, a, b, c, d], [e], "/");
    assert [r, a, b, c, d] + [e] == [r, a, b, c, d, e];
  }

  /** Two labels in the top-level build with the same type, name and
      role but different tags have different tag files. */
  lemma TagFilesDiffer(root: string, a: Label, b: Label)
    requires JoinableBase(root) && a.domain.None? && b.domain.None? && PartsValid(a) && PartsValid(b)
    requires a.ty == b.ty && a.name == b.name && a.role == b.role && a.tag != b.tag
    ensures TagFileName(root, a) != TagFileName(root, b)
  {
    TagFileShape(root, a);
    TagFileShape(root, b);
    var p := root + "/" + ".muddle" + "/" + "tags" + "/" + a.ty + "/" + a.name + "/";
    var q := p + (if a.role.None? then "" else a.role.value + "-");
    if a.role.Some? {
      Assoc(p, a.role.value + "-", a.tag);
      Assoc(p, a.role.value + "-", b.tag);
    } else {
      assert q == p;
    }
    assert TagFileName(root, a).value == q + a.tag;
    assert TagFileName(root, b).value == q + b.tag;
    assert (q + a.tag)[|q|..] == a.tag;
    assert (q + b.tag)[|q|..] == b.tag;
  }

  lemma PartRelative(s: string)
    requires ValidPart(s)
    ensures Relative(s)
  {
    if s != "*" {
      assert IsPartChar(s[0]) && IsPartChar(s[|s| - 1]);
    }
  }

  /** instruction_file_dir: root[/domains/...]/.muddle/instructions; here
      only a non-empty domain counts. */
  function InstructionFileDir(root: string, domain: Option<string>): (r: Result<string>)
    ensures !Given(domain) ==> r == Ok(JoinPath(root, [".muddle", "instructions"]))
  {
    var base :- if Given(domain) then
                  var sub :- DomainSubpath(domain); Ok(PosixJoin(root, sub))
                else Ok(root);
    Ok(JoinPath(base, [".muddle", "instructions"]))
  }

  /** instruction_file_name: only for packages; dir/name/role.xml, or
      dir/name/_default.xml for a label without a role. */
  function InstructionFileName(root: string, l: Label): (r: Result<string>)
    ensures l.ty != Package ==> r.Err? && r.error.MuddleBug?
    ensures l.ty == Package && !Given(l.domain) ==>
      r == Ok(JoinPath(JoinPath(root, [".muddle", "instructions"]), [l.name, InstructionLeaf(l.role)]))
  {
    if l.ty != Package then Err(MuddleBug("Attempt to retrieve instruction file name for non-package tag"))
    else
      var dir :- InstructionFileDir(root, l.domain);
      Ok(JoinPath(dir, [l.name, InstructionLeaf(l.role)]))
  }

  function InstructionLeaf(role: Option<string>): string {
    if role.None? then "_default.xml" else role.value + ".xml"
  }

  /** The default instruction file cannot be confused with a role's: a
      role's leaf is never _default.xml unless the role is "_default". */
  lemma InstructionLeafDistinct(a: Option<string>, b: Option<string>)
    ensures InstructionLeaf(a) == InstructionLeaf(b) <==> a == b || (a == Some("_default") && b.None?) || (a.None? && b == Some("_default"))
  {
    if a.Some? && b.Some? && InstructionLeaf(a) == InstructionLeaf(b) {
      var x, y := a.value + ".xml", b.value + ".xml";
      assert x[..|x| - 4] == a.value;
      assert y[..|y| - 4] == b.value;
    }
    if a.Some? && b.None? && InstructionLeaf(a) == InstructionLeaf(b) {
      var x := a.value + ".xml";
      assert x[..|x| - 4] == a.value;
      assert "_default.xml"[..8] == "_default";
    }
    if a.None? && b.Some? && InstructionLeaf(a) == InstructionLeaf(b) {
      var y := b.value + ".xml";
      assert y[..|y| - 4] == b.value;
      assert "_default.xml"[..8] == "_default";
    }
  }

  // ---------------------------------------------------------------------
  // PathFile

  /** What readline() returns: up to and including the first newline. */
  function FirstLine(content: string): (r: string)
    ensures StartsWith(content, r)
    ensures content != "" ==> r != ""
  {
    var k := Find(content, '\n');
    if k < 0 then content else content[..k + 1]
  }

  /** The value read from a db file: its first line without the newline;
      an empty file fails on indexing and is reported as a GiveUp. */
  function ReadValue(content: string): (r: Result<string>)
    ensures r.Ok? <==> content != ""
    ensures r.Ok? ==> '\n' !in r.value && StartsWith(content, r.value)
  {
    var line := FirstLine(content);
    if line == "" then
      Err(GiveUp("Contents of db file are empty"))
    else
      var v := if line[|line| - 1] == '\n' then line[..|line| - 1] else line;
      assert '\n' !in v by {
        var k := Find(content, '\n');
        if k >= 0 { assert v == content[..k]; }
      }
      Ok(v)
  }

  /** A value without a newline written out by commit is read back as
      itself. */
  lemma WrittenValueReadBack(v: string)
    requires '\n' !in v
    ensures ReadValue(v + "\n") == Ok(v)
  {
    var c := v + "\n";
    FindAfterFree(v, "\n", '\n');
    assert c[..|v| + 1] == c;
    assert FirstLine(c) == c;
    assert c[..|c| - 1] == v;
  }

  /** A file holding one path name, with a cache. The files on disc are
      the map `disc` from file name to contents, passed in and out. */
  class PathFile {
    var fileName: string
    var value: Option<string>
    var valid: bool

    constructor (fileName: string)
      ensures this.fileName == fileName && value.None? && !valid
    {
      this.fileName := fileName;
      value := None;
      valid := false;
    }

    /** set: the value (possibly None) becomes the valid cached value. */
    method Set(v: Option<string>)
      modifies this
      ensures value == v && valid && fileName == old(fileName)
    {
      valid := true;
      value := v;
    }

    /** get: the cached value when valid, otherwise the file's, which is
        then cached. */
    method Get(disc: map<string, string>) returns (r: Result<Option<string>>)
      modifies this
      ensures fileName == old(fileName)
      ensures old(valid) ==> r == Ok(old(value)) && value == old(value) && valid
      ensures !old(valid) ==> r == FromDisc(disc, fileName)
      ensures r.Ok? ==> valid && value == r.value
      ensures r.Err? ==> r.error.GiveUp? && value == old(value) && valid == old(valid)
    {
      if valid {
        return Ok(value);
      }
      r := FromDiscCached(disc);
    }

    /** from_disc: read, cache and return the file's value; a missing file
        or an empty one is a GiveUp. */
    method FromDiscCached(disc: map<string, string>) returns (r: Result<Option<string>>)
      modifies this
      ensures r == FromDisc(disc, fileName) && fileName == old(fileName)
      ensures r.Ok? ==> valid && value == r.value
      ensures r.Err? ==> value == old(value) && valid == old(valid)
    {
      r := FromDisc(disc, fileName);
      if r.Ok? {
        value := r.value;
        valid := true;
      }
    }

    /** commit: nothing unless the value is valid; None removes the file,
        a string is written with a newline. */
    method Commit(disc: map<string, string>) returns (disc': map<string, string>)
      ensures !valid ==> disc' == disc
      ensures valid && value.None? ==> disc' == disc - {fileName}
      ensures valid && value.Some? ==> disc' == disc[fileName := value.value + "\n"]
    {
      if !valid {
        return disc;
      }
      if value.None? {
        return disc - {fileName};
      }
      return disc[fileName := value.value + "\n"];
    }
  }

  function FromDisc(disc: map<string, string>, fileName: string): (r: Result<Option<string>>)
    ensures r.Ok? <==> fileName in disc && disc[fileName] != ""
    ensures r.Ok? ==> r.value.Some?
    ensures r.Err? ==> r.error.GiveUp?
  {
    if fileName !in disc then Err(GiveUp("Error retrieving value from db file"))
    else
      var v :- ReadValue(disc[fileName]);
      Ok(Some(v))
  }

  /** get_if_it_exists: like from_disc, but a missing file is None and
      nothing is cached. */
  function GetIfItExists(disc: map<string, string>, fileName: string): (r: Result<Option<string>>)
    ensures fileName !in disc ==> r == Ok(None)
    ensures fileName in disc ==> r == FromDisc(disc, fileName)
  {
    if fileName !in disc then Ok(None) else FromDisc(disc, fileName)
  }

  /** A value set and committed is what a fresh PathFile reads from disc;
      a None set and committed leaves no file. */
  lemma CommitThenRead(disc: map<string, string>, fileName: string, v: Option<string>)
    requires v.Some? ==> '\n' !in v.value
    ensures v.Some? ==> FromDisc(disc[fileName := v.value + "\n"], fileName) == Ok(v)
    ensures v.None? ==> GetIfItExists(disc - {fileName}, fileName) == Ok(None)
  {
    if v.Some? {
      WrittenValueReadBack(v.value);
    }
  }
}
