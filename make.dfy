/** Packages built with make: the name of the makefile, what each stage of
    the package runs, and the rules `simple` and `medium` register. */
module MakePackages {
  import opened Wrappers
  import opened Labels
  import opened Rules
  import opened Packages
  import Vocabulary
  import Utils

  const DefaultMakefileName := "Makefile.muddle"

  /** deduce_makefile_name(makefile_name, per_role, role). */
  function DeduceMakefileName(name: Option<string>, perRole: bool, role: Option<string>): (r: string)
  {
    var base := name.GetOr(DefaultMakefileName);
    if perRole && role.Some? then base + "." + role.value else base
  }

  /** The makefile name for a given base name. */
  lemma BaseShape(base: string, perRole: bool, role: Option<string>, other: Option<string>)
    ensures var r := if perRole && role.Some? then base + "." + role.value else base;
      && |r| >= |base| && r[..|base|] == base
      && (r == base <==> !(perRole && role.Some?))
      && (perRole && role.Some? ==> r[|base|..] == "." + role.value)
    ensures var r := if perRole && role.Some? then base + "." + role.value else base;
      var r' := if perRole && other.Some? then base + "." + other.value else base;
      perRole && role.Some? && other.Some? && r == r' ==> role == other
  {
    if perRole && role.Some? {
      var r := base + "." + role.value;
      assert r[..|base|] == base;
      assert r[|base|..] == "." + role.value;
      if other.Some? {
        var r' := base + "." + other.value;
        assert r[|base| + 1..] == role.value;
        assert r'[|base| + 1..] == other.value;
      }
    }
  }

  /** The makefile name starts with the base name, or the default one, and
      is exactly that name unless makefiles are per role and there is a
      role, in which case `.<role>` follows it. Makefiles per role therefore
      keep apart two different roles. */
  lemma MakefileNameShape(name: Option<string>, perRole: bool, role: Option<string>, other: Option<string>)
    ensures var r := DeduceMakefileName(name, perRole, role);
      var base := name.GetOr(DefaultMakefileName);
      && |r| >= |base| && r[..|base|] == base
      && (r == base <==> !(perRole && role.Some?))
      && (perRole && role.Some? ==> r[|base|..] == "." + role.value)
    ensures (perRole && role.Some? && other.Some? &&
             DeduceMakefileName(name, perRole, role) == DeduceMakefileName(name, perRole, other)) ==> role == other
  {
    BaseShape(name.GetOr(DefaultMakefileName), perRole, role, other);
  }

  /** MakeBuilder._make_command: make, reading the given makefile. */
  function MakeCommand(makefile: string): seq<string> {
    ["make", "-f", makefile]
  }

  /** The options a make package is created with. */
  datatype Settings = Settings(hasMakeConfig: bool, perRoleMakefiles: bool, makefileName: Option<string>,
                               usesAutoconf: bool, rewriteAutoconf: bool, execRelPath: Option<string>)

  /** The default options of `simple`. */
  const DefaultSettings := Settings(true, false, Some(DefaultMakefileName), false, false, None)

  /** A MakeBuilder: the package name and role, its checkout, and its options. */
  datatype MakeBuilder = MakeBuilder(name: string, role: Option<string>, co: string, settings: Settings)

  /** What building one label of the package does. */
  datatype Step =
    | Nothing
    | RunMake(argv: seq<string>)
    | RewriteAutoconf(objPath: string, execPrefix: Option<string>)

  /** The tags build_label knows. */
  predicate KnownTag(tag: string) {
    tag in {Vocabulary.PreConfig, Vocabulary.Configured, Vocabulary.Built, Vocabulary.Installed,
            Vocabulary.PostInstalled, Vocabulary.Clean, Vocabulary.DistClean}
  }

  /** The make target a tag runs; "" for a plain make. */
  function TargetFor(tag: string): string {
    if tag == Vocabulary.Configured then "config"
    else if tag == Vocabulary.Installed then "install"
    else if tag == Vocabulary.Clean then "clean"
    else if tag == Vocabulary.DistClean then "distclean"
    else ""
  }

  /** MakeBuilder.build_label for a label with the given tag and role. The
      checkout directory not existing is the GiveUp of ensure_dirs; `objPath`
      is the package's object directory. */
  function BuildLabel(b: MakeBuilder, tag: string, role: Option<string>, checkoutExists: bool, objPath: string)
    : (r: Result<Step>)
    ensures r.Err? <==> !checkoutExists || !KnownTag(tag)
    ensures !checkoutExists ==> r.Err? && r.error.GiveUp?
    ensures checkoutExists && !KnownTag(tag) ==> r.Err? && r.error.MuddleBug?
    ensures r.Ok? && r.value.Nothing? <==>
      checkoutExists && (tag == Vocabulary.PreConfig
        || (tag == Vocabulary.Configured && !b.settings.hasMakeConfig)
        || (tag == Vocabulary.PostInstalled && !b.settings.rewriteAutoconf))
    ensures r.Ok? && r.value.RewriteAutoconf? <==>
      checkoutExists && tag == Vocabulary.PostInstalled && b.settings.rewriteAutoconf
    ensures r.Ok? && r.value.RewriteAutoconf? ==>
      && r.value.objPath == objPath
      && (r.value.execPrefix.Some? <==> b.settings.execRelPath.Some?)
      && (r.value.execPrefix.Some? ==> r.value.execPrefix.value == Utils.PosixJoin(objPath, b.settings.execRelPath.value))
    ensures r.Ok? && r.value.RunMake? ==> (
      var file := DeduceMakefileName(b.settings.makefileName, b.settings.perRoleMakefiles, role);
      r.value.argv == MakeCommand(file) + (if tag == Vocabulary.Built then [] else [TargetFor(tag)]))
  {
    if !checkoutExists then Err(GiveUp("Missing source directory for checkout " + b.co))
    else
      var file := DeduceMakefileName(b.settings.makefileName, b.settings.perRoleMakefiles, role);
      var make := MakeCommand(file);
      if tag == Vocabulary.PreConfig then Ok(Nothing)
      else if tag == Vocabulary.Configured then
        if b.settings.hasMakeConfig then Ok(RunMake(make + ["config"])) else Ok(Nothing)
      else if tag == Vocabulary.Built then Ok(RunMake(make))
      else if tag == Vocabulary.Installed then Ok(RunMake(make + ["install"]))
      else if tag == Vocabulary.PostInstalled then
        if b.settings.rewriteAutoconf then
          var prefix := if b.settings.execRelPath.None? then None
                        else Some(Utils.PosixJoin(objPath, b.settings.execRelPath.value));
          Ok(RewriteAutoconf(objPath, prefix))
        else Ok(Nothing)
      else if tag == Vocabulary.Clean then Ok(RunMake(make + ["clean"]))
      else if tag == Vocabulary.DistClean then Ok(RunMake(make + ["distclean"]))
      else Err(MuddleBug("Invalid tag specified for MakePackage building " + tag))
  }

  /** Every label `simple` registers for the package (the chain, and the
      clean and distclean that depend on the checkout) has a tag the builder
      knows, so none of them is a MuddleBug once the checkout exists; and two
      tags that run make never run the same command. */
  lemma RegisteredTagsBuild(b: MakeBuilder, role: Option<string>, objPath: string, t1: string, t2: string)
    ensures forall t | t in [Vocabulary.PreConfig] + PackageChainTags + [Vocabulary.Clean, Vocabulary.DistClean] ::
      BuildLabel(b, t, role, true, objPath).Ok?
    ensures var r1 := BuildLabel(b, t1, role, true, objPath);
      var r2 := BuildLabel(b, t2, role, true, objPath);
      r1.Ok? && r1.value.RunMake? && r2.Ok? && r2.value.RunMake? && r1.value.argv == r2.value.argv ==> t1 == t2
  {
    var r1 := BuildLabel(b, t1, role, true, objPath);
    var r2 := BuildLabel(b, t2, role, true, objPath);
    if r1.Ok? && r1.value.RunMake? && r2.Ok? && r2.value.RunMake? && r1.value.argv == r2.value.argv {
      assert |r1.value.argv| == 3 <==> t1 == Vocabulary.Built;
      assert |r2.value.argv| == 3 <==> t2 == Vocabulary.Built;
      if t1 != Vocabulary.Built {
        assert r1.value.argv[3] == TargetFor(t1) && r2.value.argv[3] == TargetFor(t2);
      }
    }
  }

  // ---------------------------------------------------------------------
  // simple and medium

  /** The action of every rule a make package registers. */
  const MakeAction := Builder("MakeBuilder")

  /** The package chain of a make package. */
  function ChainOf(name: string, role: Option<string>): seq<Rule> {
    ChainRules(Some(MakeAction), PackageLabel(name, role, Vocabulary.PreConfig, false), PackageChainTags)
  }

  /** The rules package_depends_on_checkout adds for a make package. */
  function CheckoutRulesOf(name: string, role: Option<string>, co: string): seq<Rule> {
    [Rule(PackageLabel(name, role, Vocabulary.PreConfig, false), Some(MakeAction), {CheckoutLabel(co)}),
     Rule(PackageLabel(name, role, Vocabulary.Clean, true), Some(MakeAction), {CheckoutLabel(co)}),
     Rule(PackageLabel(name, role, Vocabulary.DistClean, true), Some(MakeAction), {CheckoutLabel(co)})]
  }

  /** The rule map after `simple`: the package chain, then the package's
      dependency on its checkout, one rule after another. */
  function SimpleRules(m: map<Label, Rule>, name: string, role: Option<string>, co: string): map<Label, Rule> {
    AddAll(m, ChainOf(name, role) + CheckoutRulesOf(name, role, co))
  }

  /** The same map, as add_package_rules and then package_depends_on_checkout
      build it. */
  lemma SimpleRulesInTurn(m: map<Label, Rule>, name: string, role: Option<string>, co: string)
    ensures SimpleRules(m, name, role, co) ==
      PackageCheckoutRules(AddAll(m, ChainOf(name, role)), name, role, co, Some(MakeAction))
  {
    var c := ChainOf(name, role);
    var l := CheckoutRulesOf(name, role, co);
    assert c + l == ((c + [l[0]]) + [l[1]]) + [l[2]];
    AddAllSnoc(m, c, l[0]);
    AddAllSnoc(m, c + [l[0]], l[1]);
    AddAllSnoc(m, (c + [l[0]]) + [l[1]], l[2]);
  }

  /** simple(builder, name, role, checkout, ...): returns the builder it
      created as the action of the rules it adds. A refused package name
      or role leaves the rules alone; a refused checkout name leaves the
      chain added. */
  method Simple(rs: RuleSet, name: string, role: Option<string>, co: string, settings: Settings)
    returns (o: Outcome, b: MakeBuilder)
    modifies rs
    requires rs.Valid()
    ensures rs.Valid()
    ensures b == MakeBuilder(name, role, co, settings)
    ensures o.Pass? <==> ValidPart(name) && RoleOk(role) && ValidPart(co)
    ensures o.Fail? ==> o.error.GiveUp?
    ensures !(ValidPart(name) && RoleOk(role)) ==> rs.rules == old(rs.rules)
    ensures o.Pass? ==> rs.rules == SimpleRules(old(rs.rules), name, role, co)
  {
    b := MakeBuilder(name, role, co, settings);
    o := AddPackageRules(rs, name, role, Some(MakeAction));
    if o.Fail? {
      return;
    }
    o := PackageDependsOnCheckout(rs, name, role, co, Some(MakeAction));
    SimpleRulesInTurn(old(rs.rules), name, role, co);
  }

  /** Every dependency of `m` is still there in `n`. */
  ghost predicate Grows(m: map<Label, Rule>, n: map<Label, Rule>) {
    forall k | k in m :: k in n && m[k].deps <= n[k].deps
  }

  /** The rule map after package_depends_on_packages succeeds. */
  function DependsRules(m: map<Label, Rule>, name: string, role: Option<string>, tag: string, deps: seq<string>)
    : map<Label, Rule>
  {
    var t := PackageLabel(name, role, tag, false);
    var r := Existing(m, t);
    m[t := r.(deps := r.deps + PostInstalledSet(deps, role))]
  }

  /** The rule map after `medium` has handled one more role: `simple`,
      then the dependencies at the tag. */
  function RoleRules(m: map<Label, Rule>, name: string, role: string, co: string, tag: string, deps: seq<string>)
    : map<Label, Rule>
  {
    DependsRules(SimpleRules(m, name, Some(role), co), name, Some(role), tag, deps)
  }

  /** A rule map after the same step has been applied to the first `i`
      roles in turn. */
  function Fold(m: map<Label, Rule>, roles: seq<string>, i: nat, step: (map<Label, Rule>, string) -> map<Label, Rule>)
    : map<Label, Rule>
    requires i <= |roles|
  {
    if i == 0 then m else step(Fold(m, roles, i - 1, step), roles[i - 1])
  }

  /** The step `medium` takes for each role. */
  function MediumStep(name: string, co: string, tag: string, deps: seq<string>): (map<Label, Rule>, string) -> map<Label, Rule> {
    (x: map<Label, Rule>, role: string) => RoleRules(x, name, role, co, tag, deps)
  }

  /** The rule map after `medium` has handled its first `i` roles in turn. */
  function MediumRules(m: map<Label, Rule>, name: string, roles: seq<string>, i: nat, co: string, tag: string,
                       deps: seq<string>): map<Label, Rule>
    requires i <= |roles|
  {
    Fold(m, roles, i, MediumStep(name, co, tag, deps))
  }

  /** What `medium` needs for its first `i` roles to succeed. */
  predicate MediumOk(name: string, roles: seq<string>, i: nat, co: string, tag: string, deps: seq<string>)
    requires i <= |roles|
  {
    (forall j | 0 <= j < i :: ValidPart(roles[j]))
    && (i > 0 ==> ValidPart(name) && ValidPart(co) && ValidPart(tag) && AllValid(deps))
  }

  lemma MediumOkStep(name: string, roles: seq<string>, i: nat, co: string, tag: string, deps: seq<string>)
    requires i < |roles|
    ensures MediumOk(name, roles, i + 1, co, tag, deps) <==>
      MediumOk(name, roles, i, co, tag, deps) && ValidPart(roles[i]) && ValidPart(name) && ValidPart(co)
      && ValidPart(tag) && AllValid(deps)
  {
  }

  lemma MediumRulesStep(m: map<Label, Rule>, name: string, roles: seq<string>, i: nat, co: string, tag: string, deps: seq<string>)
    requires i < |roles|
    ensures MediumRules(m, name, roles, i + 1, co, tag, deps) == RoleRules(MediumRules(m, name, roles, i, co, tag, deps), name, roles[i], co, tag, deps)
  {
  }

  /** One role of `medium`: `simple`, then package_depends_on_packages. */
  method MediumRole(rs: RuleSet, name: string, role: string, co: string, tag: string, deps: seq<string>, settings: Settings)
    returns (o: Outcome)
    modifies rs
    requires rs.Valid()
    ensures rs.Valid()
    ensures o.Pass? <==> ValidPart(role) && ValidPart(name) && ValidPart(co) && ValidPart(tag) && AllValid(deps)
    ensures o.Fail? ==> o.error.GiveUp?
    ensures o.Pass? ==> rs.rules == RoleRules(old(rs.rules), name, role, co, tag, deps)
  {
    var b;
    o, b := Simple(rs, name, Some(role), co, settings);
    if o.Fail? {
      return;
    }
    o := PackageDependsOnPackages(rs, name, Some(role), tag, deps);
  }

  /** medium(builder, name, roles, checkout, deps, dep_tag, ...): for each
      role in turn, `simple`, then the package at `dep_tag` in that role
      depends on each dependency's postinstalled label in the same role.
      No deps (None) is an empty list. The first refused name stops it. */
  method Medium(rs: RuleSet, name: string, roles: seq<string>, co: string, deps: Option<seq<string>>, tag: string,
                settings: Settings)
    returns (o: Outcome)
    modifies rs
    requires rs.Valid()
    ensures rs.Valid()
    ensures var ds := if deps.None? then [] else deps.value;
      o.Pass? <==> MediumOk(name, roles, |roles|, co, tag, ds)
    ensures o.Fail? ==> o.error.GiveUp?
    ensures var ds := if deps.None? then [] else deps.value;
      o.Pass? ==> rs.rules == MediumRules(old(rs.rules), name, roles, |roles|, co, tag, ds)
  {
    var ds: seq<string> := if deps.None? then [] else deps.value;
    ghost var m := rs.rules;
    var i := 0;
    while i < |roles|
      invariant 0 <= i <= |roles| && rs.Valid()
      invariant MediumOk(name, roles, i, co, tag, ds)
      invariant rs.rules == MediumRules(m, name, roles, i, co, tag, ds)
    {
      MediumOkStep(name, roles, i, co, tag, ds);
      MediumRulesStep(m, name, roles, i, co, tag, ds);
      o := MediumRole(rs, name, roles[i], co, tag, ds, settings);
      if o.Fail? {
        return;
      }
      i := i + 1;
    }
    o := Pass;
  }

  lemma GrowsTrans(a: map<Label, Rule>, b: map<Label, Rule>, c: map<Label, Rule>)
    requires Grows(a, b) && Grows(b, c)
    ensures Grows(a, c)
  {
  }

  /** `simple` and package_depends_on_packages only add dependencies. */
  lemma SimpleGrows(m: map<Label, Rule>, name: string, role: Option<string>, co: string)
    ensures Grows(m, SimpleRules(m, name, role, co))
  {
    var chained := AddAll(m, ChainOf(name, role));
    AddAllKeepsDeps(m, ChainOf(name, role));
    PackageNeedsCheckout(chained, name, role, co, Some(MakeAction));
    SimpleRulesInTurn(m, name, role, co);
  }

  lemma DependsGrows(m: map<Label, Rule>, name: string, role: Option<string>, tag: string, deps: seq<string>)
    ensures Grows(m, DependsRules(m, name, role, tag, deps))
  {
  }

  /** What `medium` promises for one role: the package's preconfig depends
      on its checkout, and the package at `dep_tag` depends on the
      postinstalled label of every dependency, all in that role. */
  ghost predicate RoleWired(n: map<Label, Rule>, name: string, role: string, co: string, tag: string, deps: seq<string>) {
    && PackageLabel(name, Some(role), Vocabulary.PreConfig, false) in n
    && CheckoutLabel(co) in n[PackageLabel(name, Some(role), Vocabulary.PreConfig, false)].deps
    && PackageLabel(name, Some(role), tag, false) in n
    && PostInstalledSet(deps, Some(role)) <= n[PackageLabel(name, Some(role), tag, false)].deps
  }

  lemma WiredKept(a: map<Label, Rule>, b: map<Label, Rule>, name: string, role: string, co: string, tag: string, deps: seq<string>)
    requires RoleWired(a, name, role, co, tag, deps) && Grows(a, b)
    ensures RoleWired(b, name, role, co, tag, deps)
  {
  }

  /** The role `medium` has just handled is wired up, and the roles
      before it stay so. */
  lemma RoleRulesWire(before: map<Label, Rule>, name: string, role: string, co: string, tag: string, deps: seq<string>)
    ensures Grows(before, RoleRules(before, name, role, co, tag, deps))
    ensures RoleWired(RoleRules(before, name, role, co, tag, deps), name, role, co, tag, deps)
  {
    var s := SimpleRules(before, name, Some(role), co);
    var chained := AddAll(before, ChainOf(name, Some(role)));
    PackageNeedsCheckout(chained, name, Some(role), co, Some(MakeAction));
    SimpleRulesInTurn(before, name, Some(role), co);
    SimpleGrows(before, name, Some(role), co);
    DependsGrows(s, name, Some(role), tag, deps);
    GrowsTrans(before, s, RoleRules(before, name, role, co, tag, deps));
  }

  /** Any step that keeps every dependency and wires up the role it is
      given, applied to roles in turn, wires up all of them. */
  lemma {:induction false} FoldWires(m: map<Label, Rule>, roles: seq<string>, i: nat, step: (map<Label, Rule>, string) -> map<Label, Rule>,
                                     name: string, co: string, tag: string, deps: seq<string>)
    requires i <= |roles|
    requires forall x, r :: Grows(x, step(x, r)) && RoleWired(step(x, r), name, r, co, tag, deps)
    ensures Grows(m, Fold(m, roles, i, step))
    ensures forall j | 0 <= j < i :: RoleWired(Fold(m, roles, i, step), name, roles[j], co, tag, deps)
  {
    if i > 0 {
      var before := Fold(m, roles, i - 1, step);
      var n := step(before, roles[i - 1]);
      FoldWires(m, roles, i - 1, step, name, co, tag, deps);
      GrowsTrans(m, before, n);
      forall j | 0 <= j < i - 1
        ensures RoleWired(n, name, roles[j], co, tag, deps)
      {
        WiredKept(before, n, name, roles[j], co, tag, deps);
      }
    }
  }

  /** After `medium`, every role it was given is wired up, and nothing the
      rule set held before is lost. */
  lemma MediumWiresEveryRole(m: map<Label, Rule>, name: string, roles: seq<string>, co: string, tag: string, deps: seq<string>)
    ensures Grows(m, MediumRules(m, name, roles, |roles|, co, tag, deps))
    ensures forall j | 0 <= j < |roles| :: RoleWired(MediumRules(m, name, roles, |roles|, co, tag, deps), name, roles[j], co, tag, deps)
  {
    var step := MediumStep(name, co, tag, deps);
    forall x, r
      ensures Grows(x, step(x, r)) && RoleWired(step(x, r), name, r, co, tag, deps)
    {
      RoleRulesWire(x, name, r, co, tag, deps);
    }
    FoldWires(m, roles, |roles|, step, name, co, tag, deps);
  }
}
