/** The common rules of deployments (muddled/deployment.py): the clean rule,
    dependencies between packages and deployments, and the lookup of a
    deployment's rule. Every helper changes a RuleSet in place. */
module Deployments {
  import opened Wrappers
  import opened Labels
  import opened Rules
  import Vocabulary
  import Packages

  // ---------------------------------------------------------------------
  // Labels built here

  /** The label type and tags used here pass Label._check_part. */
  lemma NamesValid()
    ensures ValidPart(Vocabulary.Deployment) && ValidPart(Vocabulary.Package)
    ensures ValidPart(Vocabulary.Deployed) && ValidPart(Vocabulary.Clean) && ValidPart(Vocabulary.DistClean)
    ensures ValidPart(Vocabulary.PreConfig) && ValidPart(Vocabulary.PostInstalled)
  {
    Packages.TypesValid();
    Packages.TagsValid();
    Packages.PartOfLetters(Vocabulary.Deployment);
    Packages.PartOfLetters(Vocabulary.Deployed);
  }

  /** A domain the Label constructor accepts: none, empty (read as none),
      or one that splits into nested names. */
  predicate DomainOk(domain: Option<string>) {
    domain.None? || domain.value == "" || SplitLabelDomain(domain.value).Ok?
  }

  /** The domain a label is given: an empty one is none. */
  function DomainOf(domain: Option<string>): Option<string> {
    if domain == Some("") then None else domain
  }

  /** depend.Label(LabelType.Deployment, name, None, tag, domain=domain). */
  function DeploymentLabel(name: string, tag: string, domain: Option<string>): Label {
    Label(Vocabulary.Deployment, DomainOf(domain), name, None, tag, false, false)
  }

  /** depend.Label(LabelType.Package, "*", role, tag, domain=domain). */
  function AnyPackageLabel(role: string, tag: string, domain: Option<string>): Label {
    Label(Vocabulary.Package, DomainOf(domain), "*", Some(role), tag, false, false)
  }

  /** The Label constructor for a deployment label with one of the
      standard tags used here. */
  function NewDeploymentLabel(name: string, tag: string, domain: Option<string>): (r: Result<Label>)
    requires tag == Vocabulary.Deployed || tag == Vocabulary.Clean
    ensures r.Ok? <==> ValidPart(name) && DomainOk(domain)
    ensures r.Ok? ==> r.value == DeploymentLabel(name, tag, domain)
    ensures r.Err? ==> r.error.GiveUp?
  {
    NamesValid();
    NewLabel(Vocabulary.Deployment, name, None, tag, false, false, domain)
  }

  /** The Label constructor for a package label that names every package
      in a role. */
  function NewAnyPackageLabel(role: string, tag: string, domain: Option<string>): (r: Result<Label>)
    requires tag == Vocabulary.PreConfig || tag == Vocabulary.PostInstalled
    ensures r.Ok? <==> ValidPart(role) && DomainOk(domain)
    ensures r.Ok? ==> r.value == AnyPackageLabel(role, tag, domain)
    ensures r.Err? ==> r.error.GiveUp?
  {
    NamesValid();
    NewLabel(Vocabulary.Package, "*", Some(role), tag, false, false, domain)
  }

  // ---------------------------------------------------------------------
  // The clean rule

  /** The action of the clean rule. */
  const CleanAction := Builder("CleanDeploymentBuilder")

  /** CleanDeploymentBuilder.build_label: only a deployment's clean or
      distclean label is accepted; the deployment's directory is removed
      and the label whose tag is then killed is returned. */
  function CleanDeployment(l: Label): (r: Result<Label>)
    ensures r.Ok? <==> l.ty == Vocabulary.Deployment && (l.tag == Vocabulary.Clean || l.tag == Vocabulary.DistClean)
    ensures r.Err? ==> r.error.GiveUp?
    ensures r.Ok? ==> r.value.tag == Vocabulary.Deployed && r.value.ty == l.ty && r.value.domain == l.domain
                      && r.value.name == l.name && r.value.role == l.role
  {
    if l.ty == Vocabulary.Deployment && (l.tag == Vocabulary.Clean || l.tag == Vocabulary.DistClean) then
      Ok(l.(tag := Vocabulary.Deployed, system := false, transient := false))
    else Err(GiveUp("Attempt to invoke CleanDeploymentBuilder on unrecognised label"))
  }

  /** register_cleanup: the deployment's clean label gets a rule whose
      action is the clean builder. */
  method RegisterCleanup(rs: RuleSet, deployment: string) returns (o: Outcome)
    modifies rs
    requires rs.Valid()
    ensures rs.Valid()
    ensures o.Pass? <==> ValidPart(deployment)
    ensures o.Fail? ==> o.error.GiveUp? && rs.rules == old(rs.rules)
    ensures o.Pass? ==> rs.rules == AddRule(old(rs.rules), Rule(DeploymentLabel(deployment, Vocabulary.Clean, None), Some(CleanAction), {}))
  {
    var target := NewDeploymentLabel(deployment, Vocabulary.Clean, None);
    if target.Err? {
      return Fail(target.error);
    }
    rs.Add(Rule(target.value, Some(CleanAction), {}));
    return Pass;
  }

  /** The rule register_cleanup files runs the clean builder, which accepts
      its target and kills the deployment's deployed label. */
  lemma CleanupRuleRuns(m: map<Label, Rule>, deployment: string)
    ensures var t := DeploymentLabel(deployment, Vocabulary.Clean, None);
      && AddRule(m, Rule(t, Some(CleanAction), {}))[t].action == Some(CleanAction)
      && CleanDeployment(t) == Ok(DeploymentLabel(deployment, Vocabulary.Deployed, None))
  {
    AddRuleUnion(m, Rule(DeploymentLabel(deployment, Vocabulary.Clean, None), Some(CleanAction), {}));
  }

  // ---------------------------------------------------------------------
  // Packages depending on a deployment

  /** Every target label pkg_depends_on_deployment builds is accepted
      (there are none when there are no roles). */
  predicate TargetsOk(pkg: string, roles: seq<string>) {
    roles == [] || (ValidPart(pkg) && RolesOk(roles))
  }

  /** The rules pkg_depends_on_deployment adds, one per role: the package's
      preconfig in that role depends on the deployment. */
  function PreconfigRules(pkg: string, roles: seq<string>, dep: Label): (rs: seq<Rule>)
    ensures |rs| == |roles|
  {
    seq(|roles|, i requires 0 <= i < |roles| =>
      Rule(Packages.PackageLabel(pkg, Some(roles[i]), Vocabulary.PreConfig, false), None, {dep}))
  }

  lemma PreconfigRulesSnoc(pkg: string, roles: seq<string>, dep: Label, i: nat)
    requires i < |roles|
    ensures PreconfigRules(pkg, roles[..i + 1], dep)
         == PreconfigRules(pkg, roles[..i], dep) + [Rule(Packages.PackageLabel(pkg, Some(roles[i]), Vocabulary.PreConfig, false), None, {dep})]
  {
  }

  /** pkg_depends_on_deployment(builder, pkg, roles, deployment, domain).
      A label the constructor refuses is a GiveUp, leaving the rules added
      before it. */
  method PkgDependsOnDeployment(rs: RuleSet, pkg: string, roles: seq<string>, deployment: string, domain: Option<string>)
    returns (o: Outcome)
    modifies rs
    requires rs.Valid()
    ensures rs.Valid()
    ensures o.Pass? <==> ValidPart(deployment) && DomainOk(domain) && TargetsOk(pkg, roles)
    ensures o.Fail? ==> o.error.GiveUp?
    ensures o.Pass? ==> rs.rules == AddAll(old(rs.rules), PreconfigRules(pkg, roles, DeploymentLabel(deployment, Vocabulary.Deployed, domain)))
  {
    NamesValid();
    var dep := NewDeploymentLabel(deployment, Vocabulary.Deployed, domain);
    if dep.Err? {
      return Fail(dep.error);
    }
    ghost var m := rs.rules;
    var i := 0;
    while i < |roles|
      invariant 0 <= i <= |roles| && rs.Valid()
      invariant (i > 0 ==> ValidPart(pkg)) && RolesOk(roles[..i])
      invariant rs.rules == AddAll(m, PreconfigRules(pkg, roles[..i], dep.value))
    {
      var target := Packages.NewPackageLabel(pkg, Some(roles[i]), Vocabulary.PreConfig, false);
      if target.Err? {
        return Fail(target.error);
      }
      var r := Rule(target.value, None, {dep.value});
      rs.Add(r);
      PreconfigRulesSnoc(pkg, roles, dep.value, i);
      AddAllSnoc(m, PreconfigRules(pkg, roles[..i], dep.value), r);
      RolesOkStep(roles, i);
      i := i + 1;
    }
    assert roles[..i] == roles;
    return Pass;
  }

  /** What pkg_depends_on_deployment promises: in every role the package's
      preconfig depends on the deployment's deployed label, and every rule
      there before keeps its dependencies. */
  lemma PreconfigsDependOnDeployment(m: map<Label, Rule>, pkg: string, roles: seq<string>, dep: Label)
    ensures var n := AddAll(m, PreconfigRules(pkg, roles, dep));
      && (forall i | 0 <= i < |roles| ::
            var t := Packages.PackageLabel(pkg, Some(roles[i]), Vocabulary.PreConfig, false);
            t in n && dep in n[t].deps)
      && (forall k | k in m :: k in n && m[k].deps <= n[k].deps)
  {
    var rs := PreconfigRules(pkg, roles, dep);
    AddAllKeepsDeps(m, rs);
    forall i | 0 <= i < |roles|
      ensures var t := Packages.PackageLabel(pkg, Some(roles[i]), Vocabulary.PreConfig, false);
        t in AddAll(m, rs) && dep in AddAll(m, rs)[t].deps
    {
      assert rs[i].deps == {dep};
    }
  }

  /** role_depends_on_deployment: every package's preconfig in the role
      depends on the deployment. */
  method RoleDependsOnDeployment(rs: RuleSet, role: string, deployment: string, domain: Option<string>)
    returns (o: Outcome)
    modifies rs
    requires rs.Valid()
    ensures rs.Valid()
    ensures o.Pass? <==> ValidPart(role) && ValidPart(deployment) && DomainOk(domain)
    ensures o.Fail? ==> o.error.GiveUp? && rs.rules == old(rs.rules)
    ensures o.Pass? ==> var t := AnyPackageLabel(role, Vocabulary.PreConfig, None);
      && rs.rules == AddRule(old(rs.rules), Rule(t, None, {DeploymentLabel(deployment, Vocabulary.Deployed, domain)}))
      && DeploymentLabel(deployment, Vocabulary.Deployed, domain) in rs.rules[t].deps
  {
    var target := NewAnyPackageLabel(role, Vocabulary.PreConfig, None);
    if target.Err? {
      return Fail(target.error);
    }
    var dep := NewDeploymentLabel(deployment, Vocabulary.Deployed, domain);
    if dep.Err? {
      return Fail(dep.error);
    }
    AddRuleUnion(rs.rules, Rule(target.value, None, {dep.value}));
    rs.Add(Rule(target.value, None, {dep.value}));
    return Pass;
  }

  // ---------------------------------------------------------------------
  // A deployment depending on roles or on another deployment

  /** The labels deployment_depends_on_roles adds: every package's
      postinstalled label in each role. */
  function RoleLabels(roles: seq<string>, domain: Option<string>): set<Label> {
    set r | r in roles :: AnyPackageLabel(r, Vocabulary.PostInstalled, domain)
  }

  /** One more role's label added to the deployed rule where it is filed. */
  lemma RoleLabelAdded(m: map<Label, Rule>, t: Label, r0: Rule, roles: seq<string>, role: string, domain: Option<string>)
    ensures var r := r0.(deps := r0.deps + RoleLabels(roles, domain));
      m[t := r][t := AddDep(r, AnyPackageLabel(role, Vocabulary.PostInstalled, domain))] ==
      m[t := r0.(deps := r0.deps + RoleLabels(roles + [role], domain))]
  {
    assert forall x :: x in roles + [role] <==> x in roles || x == role;
    var l := AnyPackageLabel(role, Vocabulary.PostInstalled, domain);
    assert RoleLabels(roles + [role], domain) == RoleLabels(roles, domain) + {l};
    var r := r0.(deps := r0.deps + RoleLabels(roles, domain));
    assert AddDep(r, l) == r0.(deps := r0.deps + RoleLabels(roles + [role], domain));
  }

  /** Every role is accepted as a label part. */
  predicate RolesOk(roles: seq<string>) {
    forall i | 0 <= i < |roles| :: ValidPart(roles[i])
  }

  lemma RolesOkStep(roles: seq<string>, i: nat)
    requires i < |roles| && RolesOk(roles[..i]) && ValidPart(roles[i])
    ensures RolesOk(roles[..i + 1])
  {
    assert forall k | 0 <= k < i :: roles[..i + 1][k] == roles[..i][k];
  }

  lemma TakeOneMore<T>(s: seq<T>, i: nat)
    requires i < |s|
    ensures s[..i + 1] == s[..i] + [s[i]]
  {
  }

  /** deployment_depends_on_roles: the deployment's deployed rule (created
      empty when absent) gains each role's postinstalled packages as
      dependencies. The rule object is changed where it is filed. A label
      the constructor refuses is a GiveUp, leaving what was added. */
  method DeploymentDependsOnRoles(rs: RuleSet, deployment: string, roles: seq<string>, domain: Option<string>)
    returns (o: Outcome)
    modifies rs
    requires rs.Valid()
    ensures rs.Valid()
    ensures o.Pass? <==> ValidPart(deployment) && (roles == [] || (RolesOk(roles) && DomainOk(domain)))
    ensures o.Fail? ==> o.error.GiveUp?
    ensures !ValidPart(deployment) ==> rs.rules == old(rs.rules)
    ensures o.Pass? ==> var t := DeploymentLabel(deployment, Vocabulary.Deployed, None);
      var e := Packages.Existing(old(rs.rules), t);
      rs.rules == old(rs.rules)[t := e.(deps := e.deps + RoleLabels(roles, domain))]
  {
    var target := NewDeploymentLabel(deployment, Vocabulary.Deployed, None);
    if target.Err? {
      return Fail(target.error);
    }
    var t := target.value;
    ghost var m0 := rs.rules;
    var _ := rs.RuleForTarget(t, true);
    ghost var m := rs.rules;
    ghost var e := Packages.Existing(m0, t);
    assert m == m0[t := e];
    assert RoleLabels(roles[..0], domain) == {};
    assert e.(deps := e.deps + {}) == e;
    var i := 0;
    while i < |roles|
      invariant 0 <= i <= |roles| && rs.Valid()
      invariant RolesOk(roles[..i]) && (i > 0 ==> DomainOk(domain))
      invariant rs.rules == m0[t := e.(deps := e.deps + RoleLabels(roles[..i], domain))]
    {
      var l := NewAnyPackageLabel(roles[i], Vocabulary.PostInstalled, domain);
      if l.Err? {
        return Fail(l.error);
      }
      RoleLabelAdded(m0, t, e, roles[..i], roles[i], domain);
      RolesOkStep(roles, i);
      TakeOneMore(roles, i);
      rs.rules := rs.rules[t := AddDep(rs.rules[t], l.value)];
      i := i + 1;
    }
    assert roles[..i] == roles;
    return Pass;
  }

  /** deployment_depends_on_deployment: the deployed rule of `what`
      (created empty when absent) depends on the deployed label of
      `dependsOn`. The rule is created before the second label is built, so
      when that label is refused the empty rule stays. */
  method DeploymentDependsOnDeployment(rs: RuleSet, what: string, dependsOn: string, domain: Option<string>)
    returns (o: Outcome)
    modifies rs
    requires rs.Valid()
    ensures rs.Valid()
    ensures o.Pass? <==> ValidPart(what) && ValidPart(dependsOn) && DomainOk(domain)
    ensures o.Fail? ==> o.error.GiveUp?
    ensures var t := DeploymentLabel(what, Vocabulary.Deployed, None);
      var e := Packages.Existing(old(rs.rules), t);
      && (!ValidPart(what) ==> rs.rules == old(rs.rules))
      && (o.Fail? && ValidPart(what) ==> rs.rules == old(rs.rules)[t := e])
      && (o.Pass? ==> rs.rules == old(rs.rules)[t := AddDep(e, DeploymentLabel(dependsOn, Vocabulary.Deployed, domain))])
  {
    var target := NewDeploymentLabel(what, Vocabulary.Deployed, None);
    if target.Err? {
      return Fail(target.error);
    }
    var _ := rs.RuleForTarget(target.value, true);
    var dep := NewDeploymentLabel(dependsOn, Vocabulary.Deployed, domain);
    if dep.Err? {
      return Fail(dep.error);
    }
    rs.rules := rs.rules[target.value := AddDep(rs.rules[target.value], dep.value)];
    return Pass;
  }

  // ---------------------------------------------------------------------
  // Finding a deployment's rule

  /** deployment_rule_from_name: the exact, wildcard-free lookup of the
      deployment's deployed rule; anything but exactly one rule is a
      GiveUp. */
  method DeploymentRuleFromName(rs: RuleSet, name: string) returns (r: Result<Rule>)
    ensures r.Ok? <==> ValidPart(name) && DeploymentLabel(name, Vocabulary.Deployed, None) in rs.rules
    ensures r.Ok? ==> r.value == rs.rules[DeploymentLabel(name, Vocabulary.Deployed, None)]
    ensures r.Err? ==> r.error.GiveUp?
  {
    var l := NewDeploymentLabel(name, Vocabulary.Deployed, None);
    if l.Err? {
      return Err(l.error);
    }
    var found := rs.RulesForTarget(l.value, true, false);
    if |found| != 1 {
      return Err(GiveUp("Attempt to retrieve rule for deployment: the returned list does not have length 1"));
    }
    var x :| x in found;
    return Ok(x);
  }

  /** After deployment_depends_on_roles has run, the lookup finds the rule,
      and it depends on every role's postinstalled packages. */
  lemma DependedRuleFound(m: map<Label, Rule>, deployment: string, roles: seq<string>, domain: Option<string>)
    requires ValidPart(deployment)
    ensures var t := DeploymentLabel(deployment, Vocabulary.Deployed, None);
      var e := Packages.Existing(m, t);
      var n := m[t := e.(deps := e.deps + RoleLabels(roles, domain))];
      t in n && RoleLabels(roles, domain) <= n[t].deps
  {
  }
}
