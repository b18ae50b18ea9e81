// The decision logic of muddled/mechanics.py that needs no Builder state:
// build-name checking, the directory layout of a build tree and the
// classification of a directory inside it.

module Mechanics {
  import opened Wrappers
  import opened Text
  import opened Labels
  import opened Vocabulary
  import opened DomainNames
  import opened Utils

  /** check_build_name: a build name is a full match of [A-Za-z0-9_-]+. */
  function CheckBuildName(name: string): (o: Outcome)
    ensures o.Pass? <==> IsName(name)
    ensures o.Fail? ==> o.error.GiveUp?
  {
    if IsName(name) then Pass else Fail(GiveUp("Build name is not allowed"))
  }

  // ---------------------------------------------------------------------
  // Paths in a build tree

  /** Label.domain used as a truth value: set and not empty. */
  predicate HasDomain(d: Option<string>) { d.Some? && d.value != "" }

  /** The directory a (sub)domain's build lives in: the root itself, or
      root/domains/a/domains/b for the domain 'a(b)'. */
  function DomainBase(root: string, domain: Option<string>): (r: Result<string>)
    ensures !HasDomain(domain) ==> r == Ok(root)
  {
    if HasDomain(domain) then
      var sub :- DomainSubpath(domain);
      Ok(PosixJoin(root, sub))
    else Ok(root)
  }

  /** Builder.package_obj_path: base/obj, then /name and /role when the
      label has them. */
  function PackageObjPath(root: string, l: Label): (r: Result<string>)
    requires l.ty == Package
    ensures r.Ok? <==> DomainBase(root, l.domain).Ok?
  {
    var base :- DomainBase(root, l.domain);
    var p := PosixJoin(base, "obj");
    if l.name == "" then Ok(p)
    else
      var q := PosixJoin(p, l.name);
      if l.role.Some? && l.role.value != "" then Ok(PosixJoin(q, l.role.value)) else Ok(q)
  }

  /** Builder.role_install_path: base/install, then /role unless the role
      is None. */
  function RoleInstallPath(root: string, role: Option<string>, domain: Option<string>): (r: Result<string>)
    ensures r.Ok? <==> DomainBase(root, domain).Ok?
  {
    var base :- DomainBase(root, domain);
    var p := PosixJoin(base, "install");
    if role.Some? then Ok(PosixJoin(p, role.value)) else Ok(p)
  }

  /** Builder.package_install_path: the install path of the label's role,
      with role '*' meaning the role-less path. */
  function PackageInstallPath(root: string, l: Label): (r: Result<string>)
    requires l.ty == Package
    ensures l.role == Some("*") ==> r == RoleInstallPath(root, None, l.domain)
    ensures l.role != Some("*") ==> r == RoleInstallPath(root, l.role, l.domain)
  {
    RoleInstallPath(root, if l.role == Some("*") then None else l.role, l.domain)
  }

  /** Builder.deploy_path: base/deploy/name. */
  function DeployPath(root: string, l: Label): (r: Result<string>)
    requires l.ty == Deployment
    ensures r.Ok? <==> DomainBase(root, l.domain).Ok?
  {
    var base :- DomainBase(root, l.domain);
    Ok(PosixJoin(PosixJoin(base, "deploy"), l.name))
  }

  lemma PartNoSlash(s: string)
    requires ValidPart(s)
    ensures |s| > 0 && '/' !in s
  {
    assert forall i | 0 <= i < |s| :: s[i] != '/';
  }

  /** The components below the base of an object directory. */
  function ObjParts(l: Label): seq<string> {
    ["obj", l.name] + (if l.role.Some? then [l.role.value] else [])
  }

  /** An object directory is base/obj/name/role (base/obj/name without a
      role). */
  lemma ObjPathShape(root: string, l: Label, base: string)
    requires l.ty == Package && PartsValid(l)
    requires DomainBase(root, l.domain) == Ok(base)
    ensures PackageObjPath(root, l) == Ok(JoinPath(base, ObjParts(l)))
  {
    PartNoSlash(l.name);
    var ps := ObjParts(l);
    var p := PosixJoin(base, "obj");
    var q := PosixJoin(p, l.name);
    assert JoinPath(base, ps) == JoinPath(p, ps[1..]);
    assert ps[1..][0] == l.name;
    assert JoinPath(p, ps[1..]) == JoinPath(q, ps[2..]);
    if l.role.Some? {
      PartNoSlash(l.role.value);
      assert ps[2..] == [l.role.value];
      JoinPathOne(q, l.role.value);
    } else {
      assert ps[2..] == [];
    }
  }


  lemma PartsPlain(l: Label)
    requires PartsValid(l)
    ensures PlainComponents(ObjParts(l))
  {
    PartNoSlash(l.name);
    if l.role.Some? {
      PartNoSlash(l.role.value);
    }
  }

  /** Distinct lists of plain components join to distinct paths. */
  lemma JoinPathInjective(base: string, p: seq<string>, q: seq<string>)
    requires JoinableBase(base) && PlainComponents(p) && PlainComponents(q) && p != [] && q != []
    ensures JoinPath(base, p) == JoinPath(base, q) ==> p == q
  {
    PlainIsRelative(p);
    PlainIsRelative(q);
    JoinPathFlat(base, p);
    JoinPathFlat(base, q);
    var jp, jq := Join(p, "/"), Join(q, "/");
    assert (base + "/" + jp)[|base| + 1..] == jp;
    assert (base + "/" + jq)[|base| + 1..] == jq;
    SplitJoin(p, '/');
    SplitJoin(q, '/');
  }

  /** Different name or role, different component list. */
  lemma ObjPartsInjective(a: Label, b: Label)
    ensures ObjParts(a) == ObjParts(b) ==> a.name == b.name && a.role == b.role
  {
    assert ObjParts(a)[1] == a.name && ObjParts(b)[1] == b.name;
    assert a.role.Some? ==> ObjParts(a)[2] == a.role.value;
    assert b.role.Some? ==> ObjParts(b)[2] == b.role.value;
  }

  /** Two packages of one domain that differ in name or role get different
      object directories. */
  lemma ObjPathsDiffer(root: string, a: Label, b: Label, base: string)
    requires a.ty == Package && b.ty == Package && PartsValid(a) && PartsValid(b)
    requires a.domain == b.domain
    requires DomainBase(root, a.domain) == Ok(base) && JoinableBase(base)
    requires a.name != b.name || a.role != b.role
    ensures PackageObjPath(root, a) != PackageObjPath(root, b)
  {
    ObjPathShape(root, a, base);
    ObjPathShape(root, b, base);
    PartsPlain(a);
    PartsPlain(b);
    JoinPathInjective(base, ObjParts(a), ObjParts(b));
    ObjPartsInjective(a, b);
  }

  /** A deployment directory is base/deploy/name. */
  lemma DeployPathShape(root: string, l: Label, base: string)
    requires l.ty == Deployment && PartsValid(l)
    requires DomainBase(root, l.domain) == Ok(base)
    ensures DeployPath(root, l) == Ok(JoinPath(base, ["deploy", l.name]))
  {
    var ps := ["deploy", l.name];
    assert ps[1..] == [l.name];
    assert JoinPath(base, ps) == JoinPath(PosixJoin(base, "deploy"), [l.name]);
    JoinPathOne(PosixJoin(base, "deploy"), l.name);
  }

  /** An install directory is base/install/role (base/install for no
      role). */
  lemma InstallPathShape(root: string, role: Option<string>, domain: Option<string>, base: string)
    requires DomainBase(root, domain) == Ok(base)
    ensures RoleInstallPath(root, role, domain) ==
      Ok(JoinPath(base, ["install"] + (if role.Some? then [role.value] else [])))
  {
    var ps := ["install"] + (if role.Some? then [role.value] else []);
    var p := PosixJoin(base, "install");
    assert JoinPath(base, ps) == JoinPath(p, ps[1..]);
    if role.Some? {
      assert ps[1..] == [role.value];
      JoinPathOne(p, role.value);
    } else {
      assert ps[1..] == [];
    }
  }

  // ---------------------------------------------------------------------
  // Builder.find_location_in_tree

  datatype DirType = Root | DomainRoot | CheckoutDir | ObjectDir | InstallDir | DeployedDir
                   | MuddleDir | VersionsDir | Unexpected

  /** What a directory is: its kind, the label it stands for if any, and
      the subdomain it is in. */
  datatype Location = Location(kind: DirType, subject: Option<Label>, domain: Option<string>)

  /** The test find_location_in_tree applies to a checkout location:
      `lookfor` starts with it and os.path.relpath(lookfor, location) does
      not start with "..", i.e. the location is `lookfor` itself or one of
      its ancestors, component by component. */
  predicate Within(lookfor: string, location: string) {
    && StartsWith(lookfor, location)
    && (|lookfor| == |location|
        || (lookfor[|location|] == '/' && !StartsWith(lookfor[|location| + 1..], "..")))
  }

  /** The checkout whose directory holds `lookfor`, if any, searching the
      checkout locations in no particular order. */
  method FindCheckout(lookfor: string, domain: Option<string>, locations: map<Label, string>)
    returns (found: Option<Label>)
    ensures found.Some? ==> found.value in locations && found.value.domain == domain
                            && Within(lookfor, locations[found.value])
    ensures found.None? ==> forall l | l in locations && l.domain == domain :: !Within(lookfor, locations[l])
  {
    var todo := locations.Keys;
    while todo != {}
      invariant todo <= locations.Keys
      invariant forall l | l in locations.Keys - todo && l.domain == domain :: !Within(lookfor, locations[l])
      decreases |todo|
    {
      var l :| l in todo;
      if Within(lookfor, locations[l]) && domain == l.domain {
        return Some(l);
      }
      todo := todo - {l};
    }
    return None;
  }

  /** The classification part of find_location_in_tree, given the
      components `rest` of the directory below its build (or subdomain)
      root, the subdomain it is in, and the locations of the checkouts. A
      directory name that is not a valid label part makes the label
      constructor give up. */
  method Locate(rest: seq<string>, domain: Option<string>, locations: map<Label, string>)
    returns (r: Result<Location>)
    requires |rest| >= 1
    ensures r.Ok? ==> r.value.domain == domain
    ensures r.Ok? ==> r.value == Classify(rest, domain, r.value.subject)
    ensures r.Ok? && rest[0] == "src" && r.value.subject.Some? ==>
      var sub := DomainSubpath(domain);
      && |rest| > 1 && sub.Ok?
      && var l := r.value.subject.value;
         l in locations && l.domain == domain && Within(JoinPath(sub.value, ["src"] + rest[1..]), locations[l])
    ensures rest[0] == "src" && r.Ok? && r.value.subject.None? && |rest| > 1 ==>
      var sub := DomainSubpath(domain);
      sub.Ok? && forall l | l in locations && l.domain == domain ::
        !Within(JoinPath(sub.value, ["src"] + rest[1..]), locations[l])
    ensures rest[0] != "src" ==> r == Classified(rest, domain)
  {
    if rest[0] == "src" {
      var found: Option<Label> := None;
      if |rest| > 1 {
        var sub :- DomainSubpath(domain);
        var lookfor := JoinPath(sub, ["src"] + rest[1..]);
        found := FindCheckout(lookfor, domain, locations);
      }
      return Ok(Location(CheckoutDir, found, domain));
    }
    r := Classified(rest, domain);
  }

  /** The checkout branch of the classification: a checkout directory,
      with or without a checkout. */
  function Classify(rest: seq<string>, domain: Option<string>, checkout: Option<Label>): Location
    requires |rest| >= 1
  {
    if rest[0] == "src" then Location(CheckoutDir, checkout, domain)
    else match Classified(rest, domain)
      case Ok(loc) => loc
      case Err(_) => Location(Unexpected, None, domain)
  }

  /** Every branch but src/: obj/<package>/<role>, install/<role>,
      deploy/<deployment>, and the fixed directories. */
  function Classified(rest: seq<string>, domain: Option<string>): (r: Result<Location>)
    requires |rest| >= 1
    ensures r.Ok? ==> r.value.domain == domain
    ensures r.Err? ==> r.error.GiveUp? && |rest| >= 2 && rest[0] in {"obj", "install", "deploy"}
  {
    if rest[0] == "obj" then
      if |rest| > 2 then
        var l :- NewLabel(Package, rest[1], Some(rest[2]), "*", false, false, domain);
        Ok(Location(ObjectDir, Some(l), domain))
      else if |rest| == 2 then
        var l :- NewLabel(Package, rest[1], Some("*"), "*", false, false, domain);
        Ok(Location(ObjectDir, Some(l), domain))
      else Ok(Location(ObjectDir, None, domain))
    else if rest[0] == "install" then
      if |rest| > 1 then
        var l :- NewLabel(Package, "*", Some(rest[1]), "*", false, false, domain);
        Ok(Location(InstallDir, Some(l), domain))
      else Ok(Location(InstallDir, None, domain))
    else if rest[0] == "deploy" then
      if |rest| > 1 then
        var l :- NewLabel(Deployment, rest[1], None, "*", false, false, domain);
        Ok(Location(DeployedDir, Some(l), domain))
      else Ok(Location(DeployedDir, None, domain))
    else if rest[0] == "domains" then Ok(Location(DomainRoot, None, domain))
    else if rest[0] == ".muddle" then Ok(Location(MuddleDir, None, domain))
    else if rest[0] == "versions" then Ok(Location(VersionsDir, None, domain))
    else Ok(Location(Unexpected, None, domain))
  }

  /** The object directory of a package classifies back to that package
      (with tag '*'), and likewise install and deployment directories: the
      path builders and the classifier agree. */
  lemma ClassifyObjPath(l: Label)
    requires l.ty == Package && Valid(l) && l.role.Some?
    ensures Classified(ObjParts(l), l.domain) ==
      Ok(Location(ObjectDir, Some(l.(tag := "*", transient := false, system := false)), l.domain))
  {
    assert ValidPart("*") by { assert "*" == "*"; }
    assert l.domain != Some("");
  }

  lemma ClassifyInstallPath(role: string, domain: Option<string>)
    requires ValidPart(role) && (domain.None? || SplitLabelDomain(domain.value).Ok?) && domain != Some("")
    ensures Classified(["install", role], domain) ==
      Ok(Location(InstallDir, Some(Label(Package, domain, "*", Some(role), "*", false, false)), domain))
  {
  }

  lemma ClassifyDeployPath(l: Label)
    requires l.ty == Deployment && Valid(l)
    ensures Classified(["deploy", l.name], l.domain) ==
      Ok(Location(DeployedDir, Some(l.(role := None, tag := "*", transient := false, system := false)), l.domain))
  {
    assert l.domain != Some("");
  }
}
