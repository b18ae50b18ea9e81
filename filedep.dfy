/** File deployments (muddled/deployments/filedep.py): the builder that
    copies every role's install tree into one deployment and applies the
    roles' instructions, and the rules that register such a deployment. */
module FileDeployments {
  import opened Wrappers
  import opened Labels
  import opened Rules
  import Vocabulary
  import Deployments
  import DomainNames

  // ---------------------------------------------------------------------
  // The builder and its roles

  /** One (role, domain) pair of a file deployment; a domain that is None
      or empty means the builder's own domain. */
  datatype RoleDomain = RoleDomain(role: string, domain: Option<string>)

  /** The domain a role is given when its deployment is included in the
      sub-domain `d`: `d(domain)` when it had one, else `d`. */
  function Nest(d: string, domain: Option<string>): string {
    if domain.Some? && domain.value != "" then d + "(" + domain.value + ")" else d
  }

  /** One pair after the sweep into sub-domain `d`. */
  function SweepOne(p: RoleDomain, d: string): RoleDomain {
    RoleDomain(p.role, Some(Nest(d, p.domain)))
  }

  /** Every pair after the sweep into sub-domain `d`, in order. */
  function Swept(ps: seq<RoleDomain>, d: string): (r: seq<RoleDomain>)
    ensures |r| == |ps|
    ensures forall i | 0 <= i < |ps| :: r[i].role == ps[i].role && r[i].domain == Some(Nest(d, ps[i].domain))
  {
    seq(|ps|, i requires 0 <= i < |ps| => SweepOne(ps[i], d))
  }

  /** A role's nested domain splits into the new sub-domain followed by the
      parts of the domain it had before. */
  lemma SweptDomainNests(d: string, domain: string, parts: seq<string>)
    requires DomainNames.PlainPart(d) && domain != ""
    requires |parts| >= 1 && DomainNames.JoinDomain(parts) == domain
    requires forall i | 0 <= i < |parts| :: DomainNames.PlainPart(parts[i])
    ensures DomainNames.SplitDomain(Some(Nest(d, Some(domain)))) == Ok([d] + parts)
  {
    var ps := [d] + parts;
    assert ps[1..] == parts;
    assert DomainNames.JoinDomain(ps) == Nest(d, Some(domain));
    assert forall i | 0 <= i < |ps| :: DomainNames.PlainPart(ps[i]) by {
      forall i | 0 <= i < |ps| ensures DomainNames.PlainPart(ps[i]) {
        if i > 0 { assert ps[i] == parts[i - 1]; }
      }
    }
    DomainNames.SplitJoinDomain(ps);
  }

  /** The action filed under a file deployment's rules. */
  const FileAction := Builder("FileDeploymentBuilder")

  /** FileDeploymentBuilder: the (role, domain) pairs it deploys, the
      directory in the target where the deployment ends up, and whether
      its domains still wait to be swept into an including build. */
  class FileDeploymentBuilder {
    var roles: seq<RoleDomain>
    var targetDir: string
    var unswept: bool

    /** A new builder waits to be swept. */
    constructor (roles: seq<RoleDomain>, targetDir: string)
      ensures this.roles == roles && this.targetDir == targetDir && unswept
    {
      this.roles := roles;
      this.targetDir := targetDir;
      unswept := true;
    }

    /** _change_domain: while unswept, every pair moves into the new
        sub-domain, in order and with its role kept, and the builder is
        marked swept; once swept, nothing changes. */
    method ChangeDomain(newDomain: string)
      modifies this
      ensures old(unswept) ==> roles == Swept(old(roles), newDomain)
      ensures !old(unswept) ==> roles == old(roles)
      ensures !unswept && targetDir == old(targetDir)
    {
      if unswept {
        var acc: seq<RoleDomain> := [];
        var i := 0;
        while i < |roles|
          invariant 0 <= i <= |roles|
          invariant |acc| == i
          invariant forall k | 0 <= k < i :: acc[k] == SweepOne(roles[k], newDomain)
        {
          var p := roles[i];
          var domain: string;
          if p.domain.Some? && p.domain.value != "" {
            domain := newDomain + "(" + p.domain.value + ")";
          } else {
            domain := newDomain;
          }
          acc := acc + [RoleDomain(p.role, Some(domain))];
          i := i + 1;
        }
        assert acc == Swept(roles, newDomain);
        roles := acc;
        unswept := false;
      }
    }

    /** _mark_unswept: the next change of domain applies again. */
    method MarkUnswept()
      modifies this
      ensures unswept && roles == old(roles) && targetDir == old(targetDir)
    {
      unswept := true;
    }
  }

  // ---------------------------------------------------------------------
  // Building a label

  /** What build_label does for a label. */
  datatype Step = DeployRoles | ApplyInstructions

  /** build_label: the deployed tag copies the roles in, the
      instructionsapplied tag applies their instructions, and any other tag
      is refused. */
  function Dispatch(l: Label): (r: Result<Step>)
    ensures r == Ok(DeployRoles) <==> l.tag == Vocabulary.Deployed
    ensures r == Ok(ApplyInstructions) <==> l.tag == Vocabulary.InstructionsApplied
    ensures r.Err? ==> r.error.GiveUp?
  {
    if l.tag == Vocabulary.Deployed then Ok(DeployRoles)
    else if l.tag == Vocabulary.InstructionsApplied then Ok(ApplyInstructions)
    else Err(GiveUp("Attempt to build a deployment with an unexpected tag"))
  }

  /** The instructions a file deployment knows: the keys of app_dict. */
  predicate Known(name: string) { name == "chown" || name == "chmod" || name == "mknod" }

  /** needs_privilege of the implementor for a known instruction: chown
      (CollectApplyChown) and mknod need root, chmod (FIApplyChmod) does not. */
  predicate NeedsPrivilege(name: string) { name == "chown" || name == "mknod" }

  predicate AllKnown(names: seq<string>) {
    forall i | 0 <= i < |names| :: Known(names[i])
  }

  /** The instructions that make the second pass run under sudo. */
  function RootNeeds(names: seq<string>): set<string> {
    set n | n in names && Known(n) && NeedsPrivilege(n)
  }

  /** The check of deploy: every instruction of every role, in order, must
      be known (all are checked before privilege is sought); the result is
      the set of instruction names that need root. */
  method NeedRootFor(names: seq<string>) returns (r: Result<set<string>>)
    ensures r.Ok? <==> AllKnown(names)
    ensures r.Err? ==> r.error.GiveUp?
    ensures r.Ok? ==> r.value == RootNeeds(names) && r.value <= {"chown", "mknod"}
  {
    var need: set<string> := {};
    var i := 0;
    while i < |names|
      invariant 0 <= i <= |names|
      invariant AllKnown(names[..i])
      invariant need == RootNeeds(names[..i])
    {
      var n := names[i];
      assert names[..i + 1] == names[..i] + [n];
      if Known(n) {
        if NeedsPrivilege(n) {
          need := need + {n};
        }
      } else {
        return Err(GiveUp("File deployments don't know about instruction " + n));
      }
      i := i + 1;
    }
    assert names[..i] == names;
    return Ok(need);
  }

  /** The label deploy asks a second muddle to build:
      deployment:(domain)name/instructionsapplied. */
  function PermissionsLabel(l: Label): Label {
    Label(Vocabulary.Deployment, l.domain, l.name, None, Vocabulary.InstructionsApplied, false, false)
  }

  /** How deploy runs the second pass: under sudo or not, for a label. */
  datatype Rerun = Rerun(sudo: bool, target: Label)

  /** The end of deploy: the second muddle builds the permissions label of
      the deployment, under sudo exactly when some instruction needs root. */
  function RerunFor(l: Label, needRoot: set<string>): (r: Rerun)
    ensures r.sudo <==> needRoot != {}
    ensures r.target.tag == Vocabulary.InstructionsApplied && r.target.name == l.name && r.target.domain == l.domain
    ensures Dispatch(r.target) == Ok(ApplyInstructions)
  {
    Rerun(needRoot != {}, PermissionsLabel(l))
  }

  /** apply_instructions: the instructions are applied in order; the first
      unknown one stops the build with GiveUp after those before it have
      been applied. `applied` is what was applied. */
  method ApplyAll(names: seq<string>) returns (applied: seq<string>, o: Outcome)
    ensures applied <= names && AllKnown(applied)
    ensures o.Pass? <==> AllKnown(names)
    ensures o.Pass? ==> applied == names
    ensures o.Fail? ==> o.error.GiveUp? && |applied| < |names| && !Known(names[|applied|])
  {
    applied := [];
    var i := 0;
    while i < |names|
      invariant 0 <= i <= |names|
      invariant applied == names[..i] && AllKnown(applied)
    {
      if !Known(names[i]) {
        return applied, Fail(GiveUp("File deployments don't know about instruction " + names[i]));
      }
      applied := applied + [names[i]];
      i := i + 1;
    }
    assert applied == names;
    return applied, Pass;
  }

  // ---------------------------------------------------------------------
  // Registering a file deployment

  /** The role labels a deployment waits for: package:(domain)*{role}/postinstalled. */
  function PostLabels(ps: seq<RoleDomain>): set<Label> {
    set p | p in ps :: Deployments.AnyPackageLabel(p.role, Vocabulary.PostInstalled, p.domain)
  }

  /** Every pair names a valid role and a domain the Label constructor takes. */
  predicate PairsOk(ps: seq<RoleDomain>) {
    forall i | 0 <= i < |ps| :: ValidPart(ps[i].role) && Deployments.DomainOk(ps[i].domain)
  }

  /** deployment:name/instructionsapplied, transient. */
  function AppliedLabel(name: string): Label {
    Label(Vocabulary.Deployment, None, name, None, Vocabulary.InstructionsApplied, true, false)
  }

  /** The rules deploy_with_domains adds: the deployed rule waiting for every
      role, the standalone instructionsapplied rule, then the clean rule. */
  function FileDeploymentRules(m: map<Label, Rule>, name: string, ps: seq<RoleDomain>): map<Label, Rule> {
    var deployed := Rule(Deployments.DeploymentLabel(name, Vocabulary.Deployed, None), Some(FileAction), PostLabels(ps));
    var app := Rule(AppliedLabel(name), Some(FileAction), {});
    var clean := Rule(Deployments.DeploymentLabel(name, Vocabulary.Clean, None), Some(Deployments.CleanAction), {});
    AddRule(AddRule(AddRule(m, deployed), app), clean)
  }

  lemma PostLabelsStep(ps: seq<RoleDomain>, i: nat)
    requires i < |ps|
    ensures PostLabels(ps[..i + 1]) == PostLabels(ps[..i]) + {Deployments.AnyPackageLabel(ps[i].role, Vocabulary.PostInstalled, ps[i].domain)}
  {
    assert ps[..i + 1] == ps[..i] + [ps[i]];
    assert forall x :: x in ps[..i + 1] <==> x in ps[..i] || x == ps[i];
  }

  lemma PairsOkStep(ps: seq<RoleDomain>, i: nat)
    requires i < |ps| && PairsOk(ps[..i])
    ensures PairsOk(ps[..i + 1]) <==> ValidPart(ps[i].role) && Deployments.DomainOk(ps[i].domain)
  {
    assert forall k | 0 <= k < i :: ps[..i + 1][k] == ps[..i][k];
  }

  /** The labels deploy_with_domains builds, checked in order: the
      deployment's deployed and instructionsapplied labels, then one
      postinstalled label per pair. Nothing is filed until all are made. */
  method RoleRule(name: string, ps: seq<RoleDomain>) returns (r: Result<Rule>)
    requires ValidPart(name)
    ensures r.Ok? <==> PairsOk(ps)
    ensures r.Err? ==> r.error.GiveUp?
    ensures r.Ok? ==> r.value == Rule(Deployments.DeploymentLabel(name, Vocabulary.Deployed, None), Some(FileAction), PostLabels(ps))
  {
    var rule := Rule(Deployments.DeploymentLabel(name, Vocabulary.Deployed, None), Some(FileAction), {});
    var i := 0;
    assert ps[..0] == [];
    while i < |ps|
      invariant 0 <= i <= |ps|
      invariant PairsOk(ps[..i])
      invariant rule == Rule(Deployments.DeploymentLabel(name, Vocabulary.Deployed, None), Some(FileAction), PostLabels(ps[..i]))
    {
      var l := Deployments.NewAnyPackageLabel(ps[i].role, Vocabulary.PostInstalled, ps[i].domain);
      PairsOkStep(ps, i);
      if l.Err? {
        assert !PairsOk(ps) by {
          assert !(ValidPart(ps[i].role) && Deployments.DomainOk(ps[i].domain));
        }
        return Err(l.error);
      }
      PostLabelsStep(ps, i);
      rule := AddDep(rule, l.value);
      i := i + 1;
    }
    assert ps[..i] == ps;
    return Ok(rule);
  }

  /** deploy_with_domains: a deployment with a valid name and valid
      (role, domain) pairs adds its deployed, instructionsapplied and clean
      rules; anything else is refused with GiveUp before a rule is added. */
  method DeployWithDomains(rs: RuleSet, targetDir: string, name: string, ps: seq<RoleDomain>) returns (o: Outcome)
    modifies rs
    requires rs.Valid()
    ensures rs.Valid()
    ensures o.Pass? <==> ValidPart(name) && PairsOk(ps)
    ensures o.Fail? ==> o.error.GiveUp? && rs.rules == old(rs.rules)
    ensures o.Pass? ==> rs.rules == FileDeploymentRules(old(rs.rules), name, ps)
  {
    Deployments.NamesValid();
    var dep := Deployments.NewDeploymentLabel(name, Vocabulary.Deployed, None);
    if dep.Err? {
      return Fail(dep.error);
    }
    var rule := RoleRule(name, ps);
    if rule.Err? {
      return Fail(rule.error);
    }
    rs.Add(rule.value);
    rs.Add(Rule(AppliedLabel(name), Some(FileAction), {}));
    o := Deployments.RegisterCleanup(rs, name);
  }

  /** deploy's pairing of every role with one domain. */
  function WithDomain(roles: seq<string>, domain: Option<string>): (r: seq<RoleDomain>)
    ensures |r| == |roles|
    ensures forall i | 0 <= i < |roles| :: r[i] == RoleDomain(roles[i], domain)
  {
    seq(|roles|, i requires 0 <= i < |roles| => RoleDomain(roles[i], domain))
  }

  /** deploy: the roles are paired with the builder's default domain, in
      order, and registered as deploy_with_domains does. */
  method Deploy(rs: RuleSet, targetDir: string, name: string, roles: seq<string>, defaultDomain: Option<string>)
    returns (o: Outcome)
    modifies rs
    requires rs.Valid()
    ensures rs.Valid()
    ensures o.Pass? <==> ValidPart(name) && PairsOk(WithDomain(roles, defaultDomain))
    ensures o.Fail? ==> o.error.GiveUp? && rs.rules == old(rs.rules)
    ensures o.Pass? ==> rs.rules == FileDeploymentRules(old(rs.rules), name, WithDomain(roles, defaultDomain))
  {
    var ps: seq<RoleDomain> := [];
    var i := 0;
    while i < |roles|
      invariant 0 <= i <= |roles|
      invariant |ps| == i
      invariant forall k | 0 <= k < i :: ps[k] == RoleDomain(roles[k], defaultDomain)
    {
      ps := ps + [RoleDomain(roles[i], defaultDomain)];
      i := i + 1;
    }
    assert ps == WithDomain(roles, defaultDomain);
    o := DeployWithDomains(rs, targetDir, name, ps);
  }

  /** The pairs deploy makes are acceptable exactly when there are no roles,
      or every role is a valid part and the default domain is acceptable. */
  lemma WithDomainOk(roles: seq<string>, domain: Option<string>)
    ensures PairsOk(WithDomain(roles, domain)) <==>
      roles == [] || (Deployments.DomainOk(domain) && forall i | 0 <= i < |roles| :: ValidPart(roles[i]))
  {
    if roles != [] && PairsOk(WithDomain(roles, domain)) {
      assert WithDomain(roles, domain)[0].domain == domain;
    }
  }

  /** After deploy_with_domains, the deployed rule waits for every role's
      postinstalled label and runs the file deployment builder when it was
      new; a new instructionsapplied rule waits for nothing. */
  lemma FileDeploymentShape(m: map<Label, Rule>, name: string, ps: seq<RoleDomain>)
    ensures var n := FileDeploymentRules(m, name, ps);
      var d := Deployments.DeploymentLabel(name, Vocabulary.Deployed, None);
      && d in n && AppliedLabel(name) in n
      && PostLabels(ps) <= n[d].deps
      && (d !in m ==> n[d].deps == PostLabels(ps) && n[d].action == Some(FileAction))
      && (AppliedLabel(name) !in m ==> n[AppliedLabel(name)].deps == {})
      && n[AppliedLabel(name)].action == Some(FileAction)
  {
    var d := Deployments.DeploymentLabel(name, Vocabulary.Deployed, None);
    var c := Deployments.DeploymentLabel(name, Vocabulary.Clean, None);
    var a := AppliedLabel(name);
    var deployed := Rule(d, Some(FileAction), PostLabels(ps));
    var app := Rule(a, Some(FileAction), {});
    var clean := Rule(c, Some(Deployments.CleanAction), {});
    var m1 := AddRule(m, deployed);
    var m2 := AddRule(m1, app);
    AddRuleUnion(m, deployed);
    AddRuleUnion(m1, app);
    AddRuleUnion(m2, clean);
    assert d != a && d != c && a != c by { TagsDiffer(); }
    assert a in m1 <==> a in m;
  }

  lemma TagsDiffer()
    ensures Vocabulary.Deployed != Vocabulary.InstructionsApplied
    ensures Vocabulary.Deployed != Vocabulary.Clean
    ensures Vocabulary.InstructionsApplied != Vocabulary.Clean
  {
    assert Vocabulary.Deployed[0] == 'd' && Vocabulary.InstructionsApplied[0] == 'i' && Vocabulary.Clean[0] == 'c';
  }
}
