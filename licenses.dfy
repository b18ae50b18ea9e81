// muddled/licenses.py: licences and their categories, the licence tables of
// the database (muddled/db.py), which checkouts carry which kind of licence,
// and how GPL-ness propagates from a GPL checkout to the checkouts that are
// built against it.

module Licenses {
  import opened Wrappers
  import opened Labels
  import opened LabelMatching
  import opened Vocabulary
  import opened Db
  import Rules

  // ---------------------------------------------------------------------
  // Licences

  /** ALL_LICENSE_CATEGORIES. */
  const AllCategories: set<string> := {"gpl", "open-source", "prop-source", "binary", "private"}

  /** The class of a licence: License itself (or one of the subclasses that
      only fix the category), or LicenseGPL, `lesser` for LicenseLGPL. */
  datatype Kind = Base | Gpl(withException: bool, lesser: bool)

  datatype License = License(name: string, category: string, version: Option<string>, kind: Kind)

  /** What the constructors guarantee: a known category, and 'gpl' for the
      GPL classes. */
  predicate Valid(l: License) {
    l.category in AllCategories && (l.kind.Gpl? ==> l.category == "gpl")
  }

  /** License(name, category, version): an unknown category is refused. */
  function NewLicense(name: string, category: string, version: Option<string>): (r: Result<License>)
    ensures r.Ok? <==> category in AllCategories
    ensures r.Err? ==> r.error.GiveUp?
    ensures r.Ok? ==> Valid(r.value) && !r.value.kind.Gpl? && !Propagates(r.value) && !IsLgpl(r.value)
    ensures r.Ok? ==> r.value.name == name && r.value.category == category && r.value.version == version
  {
    if category !in AllCategories then Err(GiveUp("Attempt to create License with unrecognised category"))
    else Ok(License(name, category, version, Base))
  }

  /** LicenseGPL and LicenseLGPL: category 'gpl'; a licence propagates
      unless it has a linking exception. */
  function NewGpl(name: string, version: Option<string>, withException: bool, lesser: bool): (l: License)
    ensures Valid(l) && IsGpl(l) && IsOpen(l) && DistributeAsSource(l)
    ensures Propagates(l) <==> !withException
    ensures IsLgpl(l) <==> lesser
  {
    License(name, "gpl", version, Gpl(withException, lesser))
  }

  predicate DistributeAsSource(l: License) { l.category in {"open-source", "gpl", "prop-source"} }
  predicate IsOpen(l: License) { l.category in {"open-source", "gpl"} }
  predicate IsOpenNotGpl(l: License) { l.category == "open-source" }
  predicate IsProprietarySource(l: License) { l.category == "prop-source" }
  predicate IsGpl(l: License) { l.kind.Gpl? || l.category == "gpl" }
  predicate IsLgpl(l: License) { l.kind.Gpl? && l.kind.lesser }
  predicate IsBinary(l: License) { l.category == "binary" }
  predicate IsPrivate(l: License) { l.category == "private" }
  predicate Propagates(l: License) { l.kind.Gpl? && !l.kind.withException }

  /** A valid licence is in exactly one of the five categories; it is
      distributed as source unless it is binary or private; open means
      GPL or open-but-not-GPL; only a GPL licence propagates, and LGPL is
      a kind of GPL. */
  lemma CategoryPartition(l: License)
    requires Valid(l)
    ensures IsOpenNotGpl(l) || IsGpl(l) || IsProprietarySource(l) || IsBinary(l) || IsPrivate(l)
    ensures IsGpl(l) ==> !IsOpenNotGpl(l) && !IsProprietarySource(l) && !IsBinary(l) && !IsPrivate(l)
    ensures IsOpenNotGpl(l) ==> !IsProprietarySource(l) && !IsBinary(l) && !IsPrivate(l)
    ensures IsProprietarySource(l) ==> !IsBinary(l) && !IsPrivate(l)
    ensures IsBinary(l) ==> !IsPrivate(l)
    ensures DistributeAsSource(l) <==> !IsBinary(l) && !IsPrivate(l)
    ensures IsOpen(l) <==> IsGpl(l) || IsOpenNotGpl(l)
    ensures Propagates(l) ==> IsGpl(l)
    ensures IsLgpl(l) ==> IsGpl(l)
  {
  }

  /** License.__eq__, and LicenseGPL.__eq__ which also compares
      with_exception. Python tries the subclass's __eq__ first, so whenever
      a GPL licence meets a plain licence with the same name, category and
      version, the GPL side asks the other for a with_exception it does not
      have. */
  function Equal(a: License, b: License): (r: Result<bool>)
    ensures r.Err? <==> SameBase(a, b) && a.kind.Gpl? != b.kind.Gpl?
    ensures r.Ok? ==> (r.value <==> SameBase(a, b) && (a.kind.Gpl? ==> a.kind.withException == b.kind.withException))
  {
    if !SameBase(a, b) then Ok(false)
    else if a.kind.Gpl? && b.kind.Gpl? then Ok(a.kind.withException == b.kind.withException)
    else if a.kind.Gpl? || b.kind.Gpl? then Err(Crash("AttributeError: with_exception"))
    else Ok(true)
  }

  predicate SameBase(a: License, b: License) {
    a.name == b.name && a.category == b.category && a.version == b.version
  }

  /** What __hash__ hashes: (name, category, version) for License, and
      (name, category, with_exception) for LicenseGPL. */
  datatype HashKey = Plain(name: string, category: string, version: Option<string>)
                   | WithException(name: string, category: string, withException: bool)

  function Hash(l: License): HashKey {
    if l.kind.Gpl? then WithException(l.name, l.category, l.kind.withException)
    else Plain(l.name, l.category, l.version)
  }

  /** Equality is reflexive and symmetric, and equal licences hash alike,
      so licences can be kept in sets and dictionaries. */
  lemma EqualHashesAlike(a: License, b: License)
    ensures Equal(a, a) == Ok(true)
    ensures Equal(a, b) == Equal(b, a)
    ensures Equal(a, b) == Ok(true) ==> Hash(a) == Hash(b)
  {
  }

  /** copy_with_version: the same licence with another version. */
  function CopyWithVersion(l: License, version: Option<string>): (r: License)
    ensures r.version == version
    ensures Equal(r, l) == Ok(version == l.version) || Equal(r, l).Err?
    ensures Valid(r) == Valid(l) && Hash(r).WithException? == l.kind.Gpl?
    ensures IsGpl(r) == IsGpl(l) && Propagates(r) == Propagates(l) && IsLgpl(r) == IsLgpl(l)
    ensures DistributeAsSource(r) == DistributeAsSource(l) && IsBinary(r) == IsBinary(l) && IsPrivate(r) == IsPrivate(l)
  {
    l.(version := version)
  }

  /** The version of a GPL licence does not take part in its hash. */
  lemma GplHashIgnoresVersion(l: License, version: Option<string>)
    requires l.kind.Gpl?
    ensures Hash(CopyWithVersion(l, version)) == Hash(l)
    ensures Equal(CopyWithVersion(l, version), l) == Ok(version == l.version)
  {
  }

  /** LicenseOpen: category 'open-source'. */
  function Open(name: string, version: Option<string>): (l: License)
    ensures Valid(l) && IsOpenNotGpl(l) && !Propagates(l)
  {
    License(name, "open-source", version, Base)
  }

  /** The first entry of a table with the given key, as a dictionary
      lookup. */
  function Lookup<T>(table: seq<(string, T)>, key: string): (r: Option<T>)
    ensures r.Some? ==> exists i | 0 <= i < |table| :: table[i] == (key, r.value)
    ensures r.None? ==> forall i | 0 <= i < |table| :: table[i].0 != key
  {
    if table == [] then None
    else if table[0].0 == key then Some(table[0].1)
    else Lookup(table[1..], key)
  }

  /** The LicenseOpen entries of standard_licenses: mnemonic, name, version. */
  const OpenLicenses: seq<(string, (string, Option<string>))> := [
    ("Apache-2.0", ("Apache", Some("2.0"))),
    ("APL-1.0", ("Adaptive Public License", Some("1.0"))),
    ("Artistic-2.0", ("Artistic License", Some("2.0"))),
    ("BSD-3-Clause", ("BSD 3-clause \"New\" or \"Revised\" license", None)),
    ("BSD-4-Clause", ("BSD 4-clause \"Original\" license (\"with advertising\")", None)),
    ("BSD-2-Clause", ("BSD 2-clause \"Simplified\" or \"FreeBSD\"", None)),
    ("BSL-1.0", ("Boost Software License", Some("1.0"))),
    ("CDDL-1.0", ("Common Development and Distribution License", None)),
    ("EPL-1.0", ("Eclipse Public License", Some("1.0"))),
    ("IPA", ("IPA Font License", None)),
    ("MIT", ("MIT License", None)),
    ("MPL-1.1", ("Mozilla Public License", Some("1.1"))),
    ("MPL-2.0", ("Mozilla Public License", Some("2.0"))),
    ("OFL-1.1", ("Open Font License", Some("1.1"))),
    ("OSL-3.0", ("Open Software License", Some("3.0"))),
    ("Python-2.0", ("Python License", Some("2.0"))),
    ("QPL-1.0", ("Q Public License", Some("1.0"))),
    ("UKOGL", ("UK Open Government License", None)),
    ("Libpng", ("libpng license", None)),
    ("Zlib", ("zlib license", None))
  ]

  /** The LicenseGPL entries without an exception, all named "GPL": mnemonic, version. */
  const PlainGplLicenses: seq<(string, string)> := [
    ("GPL", "any version"),
    ("GPL-2.0", "v2.0 only"),
    ("GPL-2.0+", "v2.0 or later"),
    ("GPL-3.0", "v3.0 only"),
    ("GPL-3.0+", "v3.0 or later")
  ]

  /** The LicenseGPL entries with an exception: mnemonic, name, version. */
  const GplExceptionLicenses: seq<(string, (string, string))> := [
    ("GPL-2.0-linux", ("GPL", "v2.0")),
    ("GPL-2.0-with-autoconf-exception", ("GPL with Autoconf exception", "v2.0")),
    ("GPL-2.0-with-bison-exception", ("GPL with Bison exception", "v2.0")),
    ("GPL-2.0-with-classpath-exception", ("GPL with Classpath exception", "v2.0")),
    ("GPL-2.0-with-font-exception", ("GPL with Font exception", "v2.0")),
    ("GPL-2.0-with-GCC-exception", ("GPL with GCC Runtime Library exception", "v2.0")),
    ("GPL-3.0-with-autoconf-exception", ("GPL with Autoconf exception", "v3.0")),
    ("GPL-3.0-with-bison-exception", ("GPL with Bison exception", "v3.0")),
    ("GPL-3.0-with-classpath-exception", ("GPL with Classpath exception", "v3.0")),
    ("GPL-3.0-with-font-exception", ("GPL with Font exception", "v3.0")),
    ("GPL-3.0-with-GCC-exception", ("GPL with GCC Runtime Library exception", "v3.0"))
  ]

  /** The LicenseLGPL entries, all named "Lesser GPL": mnemonic, version. */
  const LgplLicenses: seq<(string, string)> := [
    ("LGPL", "any version"),
    ("LGPL-2.0", "v2.0 only"),
    ("LGPL-2.0+", "v2.0 or later"),
    ("LGPL-2.1", "v2.1 only"),
    ("LGPL-2.1+", "v2.1 or later"),
    ("LGPL-3.0", "v3.0 only"),
    ("LGPL-3.0+", "v3.0 or later")
  ]

  /** The LicenseProprietarySource entries: mnemonic, name. */
  const ProprietaryLicenses: seq<(string, string)> := [
    ("Proprietary", "Proprietary Source")
  ]

  /** The LicensePrivate entries: mnemonic, name. */
  const PrivateLicenses: seq<(string, string)> := [
    ("Private", "Private"),
    ("CODE NIGHTMARE GREEN", "Code Nightmare Green")
  ]

  /** standard_licenses: the licence a mnemonic set_license accepts stands
      for. Every one is valid, and only the plain GPL and LGPL ones
      propagate: the linux kernel's GPL and those with a named exception
      do not. */
  function Standard(key: string): (r: Option<License>)
    ensures r.Some? ==> Valid(r.value)
    ensures r.Some? && Propagates(r.value) ==> r.value.name in {"GPL", "Lesser GPL"}
    ensures r.Some? && IsLgpl(r.value) ==> Propagates(r.value)
    ensures (r.Some? && r.value.kind.Gpl? && r.value.kind.withException) <==>
            (Lookup(OpenLicenses, key).None? && Lookup(PlainGplLicenses, key).None? && Lookup(GplExceptionLicenses, key).Some?)
  {
    var o := Lookup(OpenLicenses, key);
    if o.Some? then Some(Open(o.value.0, o.value.1)) else
    var g := Lookup(PlainGplLicenses, key);
    if g.Some? then Some(NewGpl("GPL", Some(g.value), false, false)) else
    var e := Lookup(GplExceptionLicenses, key);
    if e.Some? then Some(NewGpl(e.value.0, Some(e.value.1), true, false)) else
    var lg := Lookup(LgplLicenses, key);
    if lg.Some? then Some(NewGpl("Lesser GPL", Some(lg.value), false, true)) else
    var ps := Lookup(ProprietaryLicenses, key);
    if ps.Some? then Some(License(ps.value, "prop-source", None, Base)) else
    var pv := Lookup(PrivateLicenses, key);
    if pv.Some? then Some(License(pv.value, "private", None, Base)) else None
  }

  // ---------------------------------------------------------------------
  // The licence tables of the database

  /** The licence filed under a checkout's key, if any. */
  function LicenseOf(m: map<Label, License>, co: Label): Option<License> {
    if CheckoutKey(co) in m then Some(m[CheckoutKey(co)]) else None
  }

  /** Setting a checkout's licence is seen through every label of the same
      checkout (whatever its role, tag or flags) and through no other. */
  lemma SetThenGet(m: map<Label, License>, co: Label, l: License, other: Label)
    requires co.ty == Checkout && other.ty == Checkout
    ensures LicenseOf(m[CheckoutKey(co) := l], other) ==
            if other.domain == co.domain && other.name == co.name then Some(l) else LicenseOf(m, other)
  {
    SharedEntry(co, other);
  }

  /** The checkout_licenses and checkout_license_files dictionaries of the
      database, both keyed on normalised checkout labels. */
  class LicenseTable {
    var licenses: map<Label, License>
    var licenseFiles: map<Label, string>

    ghost predicate Valid()
      reads this
    {
      KeysNormalised(licenses.Keys) && KeysNormalised(licenseFiles.Keys)
    }

    constructor ()
      ensures Valid() && licenses == map[] && licenseFiles == map[]
    {
      licenses := map[];
      licenseFiles := map[];
    }

    /** set_checkout_license: filed under the checkout's key; normalising
        refuses any other label. */
    method SetCheckoutLicense(co: Label, l: License) returns (o: Outcome)
      requires Valid()
      modifies this`licenses
      ensures Valid()
      ensures o.Pass? <==> co.ty == Checkout
      ensures o.Fail? ==> o.error.MuddleBug?
      ensures licenses == if o.Pass? then old(licenses)[CheckoutKey(co) := l] else old(licenses)
    {
      NormaliseToKey(co);
      var k := Rules.NormaliseCheckoutLabel(co, "*");
      if k.Err? {
        return Fail(k.error);
      }
      licenses := licenses[k.value := l];
      return Pass;
    }

    /** get_checkout_license: the licence, None for an unlicensed checkout
        when absent_is_None, and GiveUp for one otherwise. */
    function GetCheckoutLicense(co: Label, absentIsNone: bool): (r: Result<Option<License>>)
      reads this`licenses
      ensures r.Err? <==> co.ty != Checkout || (!absentIsNone && LicenseOf(licenses, co).None?)
      ensures r.Err? && co.ty != Checkout ==> r.error.MuddleBug?
      ensures r.Err? && co.ty == Checkout ==> r.error.GiveUp?
      ensures r.Ok? ==> r.value == LicenseOf(licenses, co)
    {
      NormaliseToKey(co);
      var k :- Rules.NormaliseCheckoutLabel(co, "*");
      if k in licenses then Ok(Some(licenses[k]))
      else if absentIsNone then Ok(None)
      else Err(GiveUp("There is no license registered for label"))
    }

    /** checkout_has_license. */
    function CheckoutHasLicense(co: Label): (r: Result<bool>)
      reads this`licenses
      ensures r.Ok? <==> co.ty == Checkout
      ensures r.Ok? ==> (r.value <==> LicenseOf(licenses, co).Some?)
    {
      NormaliseToKey(co);
      var k :- Rules.NormaliseCheckoutLabel(co, "*");
      Ok(k in licenses)
    }

    /** set_checkout_license_file. */
    method SetCheckoutLicenseFile(co: Label, file: string) returns (o: Outcome)
      requires Valid()
      modifies this`licenseFiles
      ensures Valid()
      ensures o.Pass? <==> co.ty == Checkout
      ensures licenseFiles == if o.Pass? then old(licenseFiles)[CheckoutKey(co) := file] else old(licenseFiles)
    {
      NormaliseToKey(co);
      var k := Rules.NormaliseCheckoutLabel(co, "*");
      if k.Err? {
        return Fail(k.error);
      }
      licenseFiles := licenseFiles[k.value := file];
      return Pass;
    }

    /** get_checkout_license_file, with the same absent_is_None rule as
        get_checkout_license. */
    function GetCheckoutLicenseFile(co: Label, absentIsNone: bool): (r: Result<Option<string>>)
      reads this`licenseFiles
      ensures r.Err? <==> co.ty != Checkout || (!absentIsNone && CheckoutKey(co) !in licenseFiles)
      ensures r.Ok? ==> r.value == if CheckoutKey(co) in licenseFiles then Some(licenseFiles[CheckoutKey(co)]) else None
    {
      NormaliseToKey(co);
      var k :- Rules.NormaliseCheckoutLabel(co, "*");
      if k in licenseFiles then Ok(Some(licenseFiles[k]))
      else if absentIsNone then Ok(None)
      else Err(GiveUp("There is no license file registered for label"))
    }
  }

  // ---------------------------------------------------------------------
  // set_license and set_license_for_names

  /** A checkout given by label, or by name (a checkout label with no
      domain and tag '*'). */
  datatype CheckoutRef = ByLabel(checkout: Label) | ByName(name: string)

  /** A licence given outright, or by its standard mnemonic. */
  datatype LicenseRef = Given(license: License) | Mnemonic(key: string)

  function CheckoutOf(co: CheckoutRef): (r: Result<Label>)
    ensures co.ByLabel? ==> r == Ok(co.checkout)
    ensures co.ByName? ==> (r.Ok? <==> ValidPart(co.name))
    ensures co.ByName? && r.Ok? ==> r.value == NameKey(co.name)
  {
    if co.ByLabel? then Ok(co.checkout)
    else NewLabel(Checkout, co.name, None, "*", false, false, None)
  }

  /** The key of the checkout with this name and no domain. */
  function NameKey(name: string): Label {
    Label(Checkout, None, name, None, "*", false, false)
  }

  /** The licence a reference stands for; `standard` is the table of
      standard licences (Standard). A mnemonic that is not in it is a
      KeyError. */
  function Resolve(l: LicenseRef, standard: string -> Option<License>): (r: Result<License>)
    ensures l.Given? ==> r == Ok(l.license)
    ensures l.Mnemonic? ==> (r.Ok? <==> standard(l.key).Some?)
    ensures l.Mnemonic? && r.Ok? ==> r.value == standard(l.key).value
  {
    if l.Given? then Ok(l.license)
    else if standard(l.key).Some? then Ok(standard(l.key).value)
    else Err(Crash("KeyError: not a standard license"))
  }

  /** set_license: records the licence, then the licence file if one is
      named, then (if asked) that nothing builds against the checkout.
      Every error is raised before anything is recorded. */
  method SetLicense(lt: LicenseTable, db: Database, co: CheckoutRef, l: LicenseRef,
                    file: Option<string>, notBuiltAgainst: bool, standard: string -> Option<License>) returns (o: Outcome)
    requires lt.Valid() && db.Valid()
    modifies lt, db
    ensures lt.Valid() && db.Valid()
    ensures o.Pass? <==> CheckoutOf(co).Ok? && Resolve(l, standard).Ok? && CheckoutOf(co).value.ty == Checkout
    ensures o.Pass? ==> lt.licenses == old(lt.licenses)[CheckoutKey(CheckoutOf(co).value) := Resolve(l, standard).value]
    ensures o.Pass? ==> (lt.licenseFiles ==
      if file.Some? && file.value != "" then old(lt.licenseFiles)[CheckoutKey(CheckoutOf(co).value) := file.value]
      else old(lt.licenseFiles))
    ensures o.Pass? ==> (db.nothingBuildsAgainst ==
      if notBuiltAgainst then old(db.nothingBuildsAgainst) + {CheckoutKey(CheckoutOf(co).value)}
      else old(db.nothingBuildsAgainst))
    ensures o.Fail? ==> lt.licenses == old(lt.licenses) && lt.licenseFiles == old(lt.licenseFiles)
    ensures db.nothingBuildsAgainst == old(db.nothingBuildsAgainst) || o.Pass?
    ensures db.rootPath == old(db.rootPath) && db.checkoutData == old(db.checkoutData) && db.upstreams == old(db.upstreams)
    ensures db.domainBuildDesc == old(db.domainBuildDesc) && db.licenseNotAffectedBy == old(db.licenseNotAffectedBy)
  {
    var named := CheckoutOf(co);
    if named.Err? {
      return Fail(named.error);
    }
    var license := Resolve(l, standard);
    if license.Err? {
      return Fail(license.error);
    }
    o := lt.SetCheckoutLicense(named.value, license.value);
    if o.Fail? {
      return;
    }
    if file.Some? && file.value != "" {
      var done := lt.SetCheckoutLicenseFile(named.value, file.value);
    }
    if notBuiltAgainst {
      var done := db.SetNothingBuildsAgainst(named.value);
    }
  }

  /** The licence table after setting `l` for each of the names in turn. */
  function Assigned(m: map<Label, License>, names: seq<string>, l: License): map<Label, License> {
    if names == [] then m else Assigned(m, names[..|names| - 1], l)[NameKey(names[|names| - 1]) := l]
  }

  /** Each named checkout gets the licence; every other entry is kept. */
  lemma {:induction false} AssignedSees(m: map<Label, License>, names: seq<string>, l: License, k: Label)
    ensures k in Assigned(m, names, l) <==> k in m || exists i | 0 <= i < |names| :: k == NameKey(names[i])
    ensures (exists i | 0 <= i < |names| :: k == NameKey(names[i])) ==> Assigned(m, names, l)[k] == l
    ensures (forall i | 0 <= i < |names| :: k != NameKey(names[i])) && k in m ==> Assigned(m, names, l)[k] == m[k]
  {
    if names != [] {
      var front := names[..|names| - 1];
      AssignedSees(m, front, l, k);
      assert forall i | 0 <= i < |front| :: front[i] == names[i];
      if k != NameKey(names[|names| - 1]) && exists i | 0 <= i < |names| :: k == NameKey(names[i]) {
        var i :| 0 <= i < |names| && k == NameKey(names[i]);
        assert i < |front|;
      }
    }
  }

  /** set_license_for_names: a single string is refused; otherwise the
      licence is set for a checkout label made from each name in turn (as
      set_license does with no licence file). */
  method SetLicenseForNames(lt: LicenseTable, names: Names, l: LicenseRef, standard: string -> Option<License>) returns (o: Outcome)
    requires lt.Valid()
    modifies lt`licenses
    ensures lt.Valid()
    ensures names.OneName? ==> o.Fail? && o.error.GiveUp? && lt.licenses == old(lt.licenses)
    ensures o.Pass? <==> names.ManyNames? && (names.list == [] || Resolve(l, standard).Ok?) &&
                         forall i | 0 <= i < |names.list| :: ValidPart(names.list[i])
    ensures o.Pass? && names.ManyNames? && names.list != [] ==>
      Resolve(l, standard).Ok? && lt.licenses == Assigned(old(lt.licenses), names.list, Resolve(l, standard).value)
  {
    if names.OneName? {
      return Fail(GiveUp("Second argument to set_license_for_names() must be a sequence, not a string"));
    }
    var list := names.list;
    var i := 0;
    while i < |list|
      invariant 0 <= i <= |list|
      invariant lt.Valid()
      invariant forall j | 0 <= j < i :: ValidPart(list[j])
      invariant i > 0 ==> Resolve(l, standard).Ok? && lt.licenses == Assigned(old(lt.licenses), list[..i], Resolve(l, standard).value)
      invariant i == 0 ==> lt.licenses == old(lt.licenses)
    {
      var named := CheckoutOf(ByName(list[i]));
      if named.Err? {
        return Fail(named.error);
      }
      var license := Resolve(l, standard);
      if license.Err? {
        return Fail(license.error);
      }
      ghost var next := Assigned(old(lt.licenses), list[..i + 1], license.value);
      assert next == lt.licenses[NameKey(list[i]) := license.value] by {
        var upto := list[..i + 1];
        assert upto[..|upto| - 1] == list[..i] && upto[|upto| - 1] == list[i];
        if i == 0 {
          assert list[..i] == [];
          assert Assigned(old(lt.licenses), [], license.value) == old(lt.licenses);
        }
      }
      o := lt.SetCheckoutLicense(named.value, license.value);
      i := i + 1;
    }
    assert list[..i] == list;
    return Pass;
  }

  // ---------------------------------------------------------------------
  // Which checkouts have which licences

  /** The selections of get_gpl_checkouts, get_open_checkouts,
      get_open_not_gpl_checkouts, get_prop_source_checkouts,
      get_binary_checkouts and get_private_checkouts. */
  datatype Selection = AnyGpl | AnyOpen | OpenNotGpl | PropSource | BinaryOnly | PrivateOnly

  predicate Selects(s: Selection, l: License) {
    match s
    case AnyGpl => IsGpl(l)
    case AnyOpen => IsOpen(l)
    case OpenNotGpl => l.category == "open-source"
    case PropSource => IsProprietarySource(l)
    case BinaryOnly => IsBinary(l)
    case PrivateOnly => IsPrivate(l)
  }

  predicate Checkouts(ls: set<Label>) { forall c | c in ls :: c.ty == Checkout }

  /** The checkouts whose licence the selection accepts. */
  function Licensed(m: map<Label, License>, all: set<Label>, s: Selection): set<Label> {
    set c | c in all && LicenseOf(m, c).Some? && Selects(s, LicenseOf(m, c).value)
  }

  /** get_*_checkouts: every checkout whose licence is of the selected
      kind; an unlicensed checkout is never selected. */
  method CheckoutsWhere(lt: LicenseTable, all: set<Label>, s: Selection) returns (r: set<Label>)
    requires Checkouts(all)
    ensures r == Licensed(lt.licenses, all, s)
  {
    r := {};
    var todo := all;
    while todo != {}
      invariant todo <= all
      invariant r == Licensed(lt.licenses, all - todo, s)
    {
      var co :| co in todo;
      var l := lt.GetCheckoutLicense(co, true);
      if l.value.Some? && Selects(s, l.value.value) {
        r := r + {co};
      }
      todo := todo - {co};
    }
  }

  /** The selections do what their names say: the open checkouts are the
      GPL ones and the open-but-not-GPL ones, and no checkout with a valid
      licence is both binary and private, or both GPL and private. */
  lemma SelectionsRelate(m: map<Label, License>, all: set<Label>)
    requires forall k | k in m :: Valid(m[k])
    ensures Licensed(m, all, AnyOpen) == Licensed(m, all, AnyGpl) + Licensed(m, all, OpenNotGpl)
    ensures Licensed(m, all, BinaryOnly) !! Licensed(m, all, PrivateOnly)
    ensures Licensed(m, all, AnyGpl) !! Licensed(m, all, PrivateOnly)
    ensures Licensed(m, all, AnyGpl) !! Licensed(m, all, BinaryOnly)
  {
    forall c | c in all && LicenseOf(m, c).Some?
      ensures Selects(AnyOpen, LicenseOf(m, c).value) <==>
              Selects(AnyGpl, LicenseOf(m, c).value) || Selects(OpenNotGpl, LicenseOf(m, c).value)
    {
      CategoryPartition(LicenseOf(m, c).value);
    }
  }

  /** get_not_licensed_checkouts: the normalised label of every checkout
      with no licence. */
  method GetNotLicensedCheckouts(lt: LicenseTable, all: set<Label>) returns (r: set<Label>)
    requires Checkouts(all)
    ensures r == set c | c in all && LicenseOf(lt.licenses, c).None? :: CheckoutKey(c)
    ensures forall c | c in all :: CheckoutKey(c) in r <==> LicenseOf(lt.licenses, c).None?
  {
    r := {};
    var todo := all;
    while todo != {}
      invariant todo <= all
      invariant r == set c | c in all - todo && LicenseOf(lt.licenses, c).None? :: CheckoutKey(c)
    {
      var co :| co in todo;
      var has := lt.CheckoutHasLicense(co);
      if !has.value {
        NormaliseToKey(co);
        r := r + {Rules.NormaliseCheckoutLabel(co, "*").value};
      }
      todo := todo - {co};
    }
  }

  /** checkout_license_allowed: true for an unlicensed checkout, otherwise
      whether its category is one of those given. */
  function CheckoutLicenseAllowed(lt: LicenseTable, co: Label, categories: set<string>): (r: Result<bool>)
    reads lt`licenses
    ensures r.Ok? <==> co.ty == Checkout
    ensures r.Ok? ==> (r.value <==> LicenseOf(lt.licenses, co).None? || LicenseOf(lt.licenses, co).value.category in categories)
  {
    var l :- lt.GetCheckoutLicense(co, true);
    Ok(l.None? || l.value.category in categories)
  }

  /** get_license_clashes: of the given checkouts, those with a binary
      licence and (the others) those with a private licence. */
  method GetLicenseClashes(lt: LicenseTable, implicit: set<Label>) returns (r: Result<(set<Label>, set<Label>)>)
    ensures r.Err? <==> !Checkouts(implicit)
    ensures r.Ok? ==> r.value.0 == Licensed(lt.licenses, implicit, BinaryOnly)
    ensures r.Ok? ==> r.value.1 == Licensed(lt.licenses, implicit, PrivateOnly) - r.value.0
    ensures r.Ok? ==> r.value.0 !! r.value.1
  {
    var binary: set<Label> := {};
    var private: set<Label> := {};
    var todo := implicit;
    while todo != {}
      invariant todo <= implicit
      invariant Checkouts(implicit - todo)
      invariant binary == Licensed(lt.licenses, implicit - todo, BinaryOnly)
      invariant private == Licensed(lt.licenses, implicit - todo, PrivateOnly) - binary
    {
      var co :| co in todo;
      var l := lt.GetCheckoutLicense(co, true);
      if l.Err? {
        return Err(l.error);
      }
      if l.value.None? {
      } else if IsBinary(l.value.value) {
        binary := binary + {co};
      } else if IsPrivate(l.value.value) {
        private := private + {co};
      }
      todo := todo - {co};
    }
    return Ok((binary, private));
  }

  // ---------------------------------------------------------------------
  // get_implicit_gpl_checkouts

  /** Why a checkout was made GPL: "<dependent> depends on <source>". */
  datatype Reason = Reason(dependent: Label, source: Label)

  /** copy_with_tag('*'), which also clears both flags. */
  function Wildcarded(l: Label): (r: Label)
    ensures CopyWithTag(l, "*", false, false) == Ok(r)
  {
    assert ValidPart("*");
    l.(tag := "*", system := false, transient := false)
  }

  /** `co in s` for a set of labels: label equality ignores the flags. */
  predicate Exempted(s: set<Label>, co: Label) {
    exists k | k in s :: Same(k, co)
  }

  /** get_nothing_builds_against. */
  predicate Blocked(nothing: set<Label>, co: Label) {
    exists c | c in nothing :: c.domain == co.domain && c.name == co.name
  }

  /** A GPL checkout whose licence propagates and that something may build
      against. */
  predicate Propagating(m: map<Label, License>, nothing: set<Label>, co: Label) {
    LicenseOf(m, co).Some? && IsGpl(LicenseOf(m, co).value) && Propagates(LicenseOf(m, co).value)
    && !Blocked(nothing, co)
  }

  /** add_if_not_us_or_gpl: neither a variant of the source nor already
      GPL. */
  predicate Keeps(m: map<Label, License>, co: Label, x: Label) {
    !JustMatch(co, x) && !(LicenseOf(m, x).Some? && IsGpl(LicenseOf(m, x).value))
  }

  /** What a checkout `x` of package `p` contributes. */
  function PackageCheckout(m: map<Label, License>, na: map<Label, set<Label>>, co: Label, p: Label, x: Label): set<(Label, Reason)> {
    if !Exempted(Exempt(na, StarKey(x)), co) && Keeps(m, co, x) then {(Wildcarded(x), Reason(Wildcarded(p), co))} else {}
  }

  /** What a package contributes through some of its checkouts, nothing
      when the package itself is exempt. */
  function ViaPackage(m: map<Label, License>, na: map<Label, set<Label>>, co: Label, p: Label, xs: set<Label>): set<(Label, Reason)> {
    if Exempted(Exempt(na, StarKey(p)), co) then {}
    else set x, e | x in xs && e in PackageCheckout(m, na, co, p, x) :: e
  }

  /** What one label that depends on the source contributes: a package
      through its checkouts, a checkout itself, anything else nothing. */
  function Dependent(m: map<Label, License>, na: map<Label, set<Label>>, co: Label, d: Label,
                     checkoutsOf: Label -> set<Label>): set<(Label, Reason)> {
    if d.ty == Package then ViaPackage(m, na, co, d, checkoutsOf(d))
    else if d.ty == Checkout && Keeps(m, co, d) then {(Wildcarded(d), Reason(Wildcarded(d), co))}
    else {}
  }

  function FromSource(m: map<Label, License>, na: map<Label, set<Label>>, co: Label, ds: set<Label>,
                      checkoutsOf: Label -> set<Label>): set<(Label, Reason)> {
    set d, e | d in ds && e in Dependent(m, na, co, d, checkoutsOf) :: e
  }

  /** Every (label, reason) pair get_implicit_gpl_checkouts records for the
      sources among `gpl`. */
  function Implicit(m: map<Label, License>, na: map<Label, set<Label>>, nothing: set<Label>, gpl: set<Label>,
                    deps: Label -> Result<set<Label>>, checkoutsOf: Label -> set<Label>): set<(Label, Reason)> {
    set co, e | co in gpl && Propagating(m, nothing, co) && deps(co).Ok? &&
                e in FromSource(m, na, co, deps(co).value, checkoutsOf) :: e
  }

  /** The labels of the pairs: `result`. */
  function Firsts(acc: set<(Label, Reason)>): set<Label> {
    set e | e in acc :: e.0
  }

  /** The reasons grouped by label: `because`. */
  function Group(acc: set<(Label, Reason)>): map<Label, set<Reason>> {
    map l | l in Firsts(acc) :: set e | e in acc && e.0 == l :: e.1
  }

  lemma AddPair(acc: set<(Label, Reason)>, l: Label, r: Reason)
    ensures Firsts(acc + {(l, r)}) == Firsts(acc) + {l}
    ensures Group(acc + {(l, r)}) == Group(acc)[l := (if l in Group(acc) then Group(acc)[l] else {}) + {r}]
  {
    var a := acc + {(l, r)};
    assert Firsts(a) == Firsts(acc) + {l} by {
      assert (l, r) in a;
      forall x | x in Firsts(a) ensures x in Firsts(acc) + {l} {
        var e :| e in a && e.0 == x;
      }
    }
    var g := Group(acc)[l := (if l in Group(acc) then Group(acc)[l] else {}) + {r}];
    forall k | k in Firsts(a) ensures Group(a)[k] == g[k] {
      if k == l {
        if l !in Group(acc) {
          forall e | e in acc ensures e.0 != l {
            assert e.0 in Firsts(acc);
          }
        }
      }
    }
  }

  /** add_if_not_us_or_gpl, on result and because. */
  method AddIfNotUsOrGpl(lt: LicenseTable, co: Label, x: Label, reason: Reason,
                         result: set<Label>, because: map<Label, set<Reason>>, ghost acc: set<(Label, Reason)>)
    returns (result': set<Label>, because': map<Label, set<Reason>>, ghost acc': set<(Label, Reason)>)
    requires x.ty == Checkout
    requires result == Firsts(acc) && because == Group(acc)
    ensures acc' == acc + (if Keeps(lt.licenses, co, x) then {(Wildcarded(x), reason)} else {})
    ensures result' == Firsts(acc') && because' == Group(acc')
  {
    result', because', acc' := result, because, acc;
    if JustMatch(co, x) {
      return;
    }
    var l := lt.GetCheckoutLicense(x, true);
    if l.value.Some? && IsGpl(l.value.value) {
      return;
    }
    var lbl := Wildcarded(x);
    AddPair(acc, lbl, reason);
    assert {} + {reason} == {reason};
    acc' := acc + {(lbl, reason)};
    result' := result + {lbl};
    if lbl in because {
      because' := because[lbl := because[lbl] + {reason}];
    } else {
      because' := because[lbl := {reason}];
    }
  }

  lemma ViaPackageStep(m: map<Label, License>, na: map<Label, set<Label>>, co: Label, p: Label, xs: set<Label>, x: Label)
    requires !Exempted(Exempt(na, StarKey(p)), co)
    ensures ViaPackage(m, na, co, p, xs + {x}) == ViaPackage(m, na, co, p, xs) + PackageCheckout(m, na, co, p, x)
  {
  }

  /** The inner loop over the checkouts of a package. */
  method AddPackage(lt: LicenseTable, db: Database, co: Label, p: Label, xs: set<Label>,
                    result: set<Label>, because: map<Label, set<Reason>>, ghost acc: set<(Label, Reason)>)
    returns (result': set<Label>, because': map<Label, set<Reason>>, ghost acc': set<(Label, Reason)>)
    requires db.Valid() && Checkouts(xs)
    requires result == Firsts(acc) && because == Group(acc)
    ensures acc' == acc + ViaPackage(lt.licenses, db.licenseNotAffectedBy, co, p, xs)
    ensures result' == Firsts(acc') && because' == Group(acc')
  {
    result', because', acc' := result, because, acc;
    var notAffected := db.GetLicenseNotAffectedBy(p);
    if Exempted(notAffected, co) {
      return;
    }
    var todo := xs;
    while todo != {}
      invariant todo <= xs
      invariant acc' == acc + ViaPackage(lt.licenses, db.licenseNotAffectedBy, co, p, xs - todo)
      invariant result' == Firsts(acc') && because' == Group(acc')
    {
      var x :| x in todo;
      ViaPackageStep(lt.licenses, db.licenseNotAffectedBy, co, p, xs - todo, x);
      var exempt := db.GetLicenseNotAffectedBy(x);
      if !Exempted(exempt, co) {
        result', because', acc' := AddIfNotUsOrGpl(lt, co, x, Reason(Wildcarded(p), co), result', because', acc');
      }
      assert xs - (todo - {x}) == (xs - todo) + {x};
      todo := todo - {x};
    }
    assert xs - todo == xs;
  }

  lemma FromSourceStep(m: map<Label, License>, na: map<Label, set<Label>>, co: Label, ds: set<Label>, d: Label,
                       checkoutsOf: Label -> set<Label>)
    ensures FromSource(m, na, co, ds + {d}, checkoutsOf) == FromSource(m, na, co, ds, checkoutsOf) + Dependent(m, na, co, d, checkoutsOf)
  {
  }

  /** The loop over everything that depends on one source. */
  method AddSource(lt: LicenseTable, db: Database, co: Label, ds: set<Label>, checkoutsOf: Label -> set<Label>,
                   result: set<Label>, because: map<Label, set<Reason>>, ghost acc: set<(Label, Reason)>)
    returns (result': set<Label>, because': map<Label, set<Reason>>, ghost acc': set<(Label, Reason)>)
    requires db.Valid()
    requires forall p: Label | p.ty == Package :: Checkouts(checkoutsOf(p))
    requires result == Firsts(acc) && because == Group(acc)
    ensures acc' == acc + FromSource(lt.licenses, db.licenseNotAffectedBy, co, ds, checkoutsOf)
    ensures result' == Firsts(acc') && because' == Group(acc')
  {
    result', because', acc' := result, because, acc;
    var todo := ds;
    while todo != {}
      invariant todo <= ds
      invariant acc' == acc + FromSource(lt.licenses, db.licenseNotAffectedBy, co, ds - todo, checkoutsOf)
      invariant result' == Firsts(acc') && because' == Group(acc')
    {
      var d :| d in todo;
      FromSourceStep(lt.licenses, db.licenseNotAffectedBy, co, ds - todo, d, checkoutsOf);
      if d.ty == Package {
        result', because', acc' := AddPackage(lt, db, co, d, checkoutsOf(d), result', because', acc');
      } else if d.ty == Checkout {
        result', because', acc' := AddIfNotUsOrGpl(lt, co, d, Reason(Wildcarded(d), co), result', because', acc');
      }
      assert ds - (todo - {d}) == (ds - todo) + {d};
      todo := todo - {d};
    }
    assert ds - todo == ds;
  }

  lemma ImplicitStep(m: map<Label, License>, na: map<Label, set<Label>>, nothing: set<Label>, gpl: set<Label>, co: Label,
                     deps: Label -> Result<set<Label>>, checkoutsOf: Label -> set<Label>)
    ensures Implicit(m, na, nothing, gpl + {co}, deps, checkoutsOf) ==
            Implicit(m, na, nothing, gpl, deps, checkoutsOf) +
            (if Propagating(m, nothing, co) && deps(co).Ok? then FromSource(m, na, co, deps(co).value, checkoutsOf) else {})
  {
  }

  /** get_implicit_gpl_checkouts: for each GPL checkout whose licence
      propagates and that something builds against, every checkout of a
      package that depends on it, and every checkout that depends on it,
      unless exempt, a variant of the source, or GPL itself. The labels
      required_by gives are `deps`, and the checkouts a package is built
      from `checkoutsOf`. */
  method GetImplicitGplCheckouts(lt: LicenseTable, db: Database, all: set<Label>,
                                 deps: Label -> Result<set<Label>>, checkoutsOf: Label -> set<Label>)
    returns (r: Result<(set<Label>, map<Label, set<Reason>>)>)
    requires db.Valid() && Checkouts(all)
    requires forall p: Label | p.ty == Package :: Checkouts(checkoutsOf(p))
    ensures r.Err? <==> exists co | co in Licensed(lt.licenses, all, AnyGpl) :: Propagating(lt.licenses, db.nothingBuildsAgainst, co) && deps(co).Err?
    ensures r.Ok? ==> r.value.0 == Firsts(Implicit(lt.licenses, db.licenseNotAffectedBy, db.nothingBuildsAgainst,
                                                   Licensed(lt.licenses, all, AnyGpl), deps, checkoutsOf))
    ensures r.Ok? ==> r.value.1 == Group(Implicit(lt.licenses, db.licenseNotAffectedBy, db.nothingBuildsAgainst,
                                                  Licensed(lt.licenses, all, AnyGpl), deps, checkoutsOf))
  {
    var gpl := CheckoutsWhere(lt, all, AnyGpl);
    var result: set<Label> := {};
    var because: map<Label, set<Reason>> := map[];
    ghost var acc: set<(Label, Reason)> := {};
    ghost var m, na, nothing := lt.licenses, db.licenseNotAffectedBy, db.nothingBuildsAgainst;
    var todo := gpl;
    while todo != {}
      invariant todo <= gpl
      invariant acc == Implicit(m, na, nothing, gpl - todo, deps, checkoutsOf)
      invariant result == Firsts(acc) && because == Group(acc)
      invariant forall co | co in gpl - todo :: Propagating(m, nothing, co) ==> deps(co).Ok?
    {
      var co :| co in todo;
      ImplicitStep(m, na, nothing, gpl - todo, co, deps, checkoutsOf);
      var license := lt.GetCheckoutLicense(co, false);
      if Propagates(license.value.value) {
        var blocked := db.GetNothingBuildsAgainst(co);
        if !blocked.value {
          var ds := deps(co);
          if ds.Err? {
            return Err(ds.error);
          }
          result, because, acc := AddSource(lt, db, co, ds.value, checkoutsOf, result, because, acc);
        }
      }
      assert gpl - (todo - {co}) == (gpl - todo) + {co};
      todo := todo - {co};
    }
    assert gpl - todo == gpl;
    return Ok((result, because));
  }

  /** What the recorded pairs say: the label is a wildcarded checkout that
      is not GPL and not a variant of the source; the source is a
      propagating GPL checkout that something builds against; and the
      dependent that made it so carries tag '*'. */
  lemma ImplicitIsSound(m: map<Label, License>, na: map<Label, set<Label>>, nothing: set<Label>, gpl: set<Label>,
                        deps: Label -> Result<set<Label>>, checkoutsOf: Label -> set<Label>, e: (Label, Reason))
    requires forall co | co in gpl :: co.tag == "*"
    requires forall p: Label | p.ty == Package :: Checkouts(checkoutsOf(p))
    requires e in Implicit(m, na, nothing, gpl, deps, checkoutsOf)
    ensures e.0.ty == Checkout && e.0.tag == "*" && !e.0.system && !e.0.transient
    ensures !(LicenseOf(m, e.0).Some? && IsGpl(LicenseOf(m, e.0).value))
    ensures e.1.source in gpl && Propagating(m, nothing, e.1.source)
    ensures !JustMatch(e.1.source, e.0)
    ensures e.1.dependent.tag == "*"
    ensures e.1.dependent.ty == Checkout ==> e.1.dependent == e.0
  {
    var co, ds :| co in gpl && Propagating(m, nothing, co) && deps(co).Ok? && ds == deps(co).value &&
                  e in FromSource(m, na, co, ds, checkoutsOf);
    var d :| d in ds && e in Dependent(m, na, co, d, checkoutsOf);
    var x: Label;
    if d.ty == Package {
      x :| x in checkoutsOf(d) && e in PackageCheckout(m, na, co, d, x);
    } else {
      x := d;
    }
    assert e.0 == Wildcarded(x) && e.1.source == co && Keeps(m, co, x);
    assert CheckoutKey(e.0) == CheckoutKey(x);
    FieldValues(co); FieldValues(x); FieldValues(e.0);
    assert JustMatch(co, e.0) == JustMatch(co, x);
  }

  /** No GPL checkout that propagates, or that something builds against,
      can make anything GPL: with none, the result is empty. */
  lemma NoSourcesNoImplicit(m: map<Label, License>, na: map<Label, set<Label>>, nothing: set<Label>, gpl: set<Label>,
                            deps: Label -> Result<set<Label>>, checkoutsOf: Label -> set<Label>)
    requires forall co | co in gpl :: !Propagating(m, nothing, co)
    ensures Implicit(m, na, nothing, gpl, deps, checkoutsOf) == {}
  {
  }
}
