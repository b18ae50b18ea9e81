/** The standard rules of checkouts and packages (muddled/pkg.py): what a
    checkout's VCS action is asked to build, the package rule chain, and the
    dependencies of packages on checkouts and on other packages. Every
    helper changes a RuleSet in place. */
module Packages {
  import opened Wrappers
  import opened Labels
  import opened Rules
  import Vocabulary

  // ---------------------------------------------------------------------
  // Labels built by the helpers

  /** A non-empty run of lower-case letters and '_' is a label part. */
  lemma PartOfLetters(s: string)
    requires |s| > 0 && forall i | 0 <= i < |s| :: 'a' <= s[i] <= 'z' || s[i] == '_'
    ensures ValidPart(s)
  {
  }

  /** The label types used here pass Label._check_part. */
  lemma TypesValid()
    ensures ValidPart(Vocabulary.Checkout) && ValidPart(Vocabulary.Package)
  {
    PartOfLetters(Vocabulary.Checkout);
    PartOfLetters(Vocabulary.Package);
  }

  /** So do the tags. */
  lemma TagsValid()
    ensures ValidPart(Vocabulary.CheckedOut) && ValidPart(Vocabulary.PreConfig)
    ensures ValidPart(Vocabulary.Clean) && ValidPart(Vocabulary.DistClean)
    ensures ValidPart(Vocabulary.PostInstalled)
  {
    PartOfLetters(Vocabulary.CheckedOut);
    PartOfLetters(Vocabulary.PreConfig);
    PartOfLetters(Vocabulary.Clean);
    PartOfLetters(Vocabulary.DistClean);
    PartOfLetters(Vocabulary.PostInstalled);
  }

  /** A role that Label's constructor accepts: none, or a valid part. */
  predicate RoleOk(role: Option<string>) { role.None? || ValidPart(role.value) }

  /** depend.Label(LabelType.Package, name, role, tag, transient=...). */
  function PackageLabel(name: string, role: Option<string>, tag: string, transient: bool): Label {
    Label(Vocabulary.Package, None, name, role, tag, transient, false)
  }

  /** The Label constructor for a package label in no domain: a name, role
      or tag it refuses is a GiveUp. */
  function NewPackageLabel(name: string, role: Option<string>, tag: string, transient: bool): (r: Result<Label>)
    ensures r.Ok? <==> ValidPart(name) && RoleOk(role) && ValidPart(tag)
    ensures r.Ok? ==> r.value == PackageLabel(name, role, tag, transient)
    ensures r.Err? ==> r.error.GiveUp?
  {
    TypesValid();
    NewLabel(Vocabulary.Package, name, role, tag, transient, false, None)
  }

  /** depend.Label(LabelType.Checkout, name, None, LabelTag.CheckedOut). */
  function CheckoutLabel(name: string): Label {
    Label(Vocabulary.Checkout, None, name, None, Vocabulary.CheckedOut, false, false)
  }

  /** copy_with_tag with a standard tag, which always passes the tag check:
      the system flag is dropped and the transient flag is as given. */
  function WithTag(l: Label, tag: string, transient: bool): Label {
    l.(tag := tag, system := false, transient := transient)
  }

  // ---------------------------------------------------------------------
  // add_checkout_rules

  /** The label add_checkout_rules works from: the label itself when it is
      already tagged checked_out, otherwise a copy so tagged. */
  function CheckedOutLabel(l: Label): (co: Label)
    ensures co.tag == Vocabulary.CheckedOut
    ensures co.ty == l.ty && co.domain == l.domain && co.name == l.name && co.role == l.role
  {
    if l.tag == Vocabulary.CheckedOut then l else WithTag(l, Vocabulary.CheckedOut, false)
  }

  /** The transient label of one VCS operation on a checkout. */
  function OperationLabel(co: Label, tag: string): Label {
    WithTag(co, tag, true)
  }

  /** No rule of the rule set has one of the checkout's five targets. */
  predicate NoneFiled(m: map<Label, Rule>, co: Label) {
    && co !in m
    && OperationLabel(co, Vocabulary.Pulled) !in m
    && OperationLabel(co, Vocabulary.Merged) !in m
    && OperationLabel(co, Vocabulary.ChangesPushed) !in m
    && OperationLabel(co, Vocabulary.ChangesCommitted) !in m
  }

  /** The rule map after the first four rules of add_checkout_rules:
      checked_out with no dependencies, pulled and merged depending on
      checked_out, and changes_pushed with none. */
  function FirstCheckoutRules(m: map<Label, Rule>, co: Label, pulled: Label, merged: Label, pushed: Label,
                              action: Action): map<Label, Rule>
  {
    var m1 := AddRule(m, Rule(co, Some(action), {}));
    var m2 := AddRule(m1, Rule(pulled, Some(action), {co}));
    var m3 := AddRule(m2, Rule(merged, Some(action), {co}));
    AddRule(m3, Rule(pushed, Some(action), {}))
  }

  /** The rule map after all five rules. The changes_committed rule is added
      with no dependency; the later rule.add(pulled_label) reaches the rule
      set only when that rule object is the one filed, that is when no rule
      for the target was there before (otherwise the new rule was merged into
      the existing one and the dependency went to a discarded copy). */
  function CheckoutRulesOf(m: map<Label, Rule>, co: Label, pulled: Label, merged: Label, pushed: Label,
                           committed: Label, action: Action, mustPullBeforeCommit: bool): map<Label, Rule>
  {
    var before := FirstCheckoutRules(m, co, pulled, merged, pushed, action);
    var after := AddRule(before, Rule(committed, Some(action), {}));
    if mustPullBeforeCommit && committed !in before then
      after[committed := AddDep(after[committed], pulled)]
    else after
  }

  /** The rule map after add_checkout_rules. */
  function CheckoutRuleMap(m: map<Label, Rule>, l: Label, action: Action, mustPullBeforeCommit: bool): map<Label, Rule> {
    var co := CheckedOutLabel(l);
    CheckoutRulesOf(m, co, OperationLabel(co, Vocabulary.Pulled), OperationLabel(co, Vocabulary.Merged),
                    OperationLabel(co, Vocabulary.ChangesPushed), OperationLabel(co, Vocabulary.ChangesCommitted),
                    action, mustPullBeforeCommit)
  }

  /** The five targets of a checkout's rules. */
  function CheckoutTargets(co: Label): set<Label> {
    {co, OperationLabel(co, Vocabulary.Pulled), OperationLabel(co, Vocabulary.Merged),
     OperationLabel(co, Vocabulary.ChangesPushed), OperationLabel(co, Vocabulary.ChangesCommitted)}
  }

  /** add_checkout_rules(builder, co_label, action): the checkout's rules,
      each with the same action. `mustPullBeforeCommit` is what the action's
      must_pull_before_commit answers. The pulled and merged rules are built
      empty and given their dependency before they are added. */
  method AddCheckoutRules(rs: RuleSet, l: Label, action: Action, mustPullBeforeCommit: bool)
    modifies rs
    requires rs.Valid()
    ensures rs.Valid()
    ensures rs.rules == CheckoutRuleMap(old(rs.rules), l, action, mustPullBeforeCommit)
  {
    var co := l;
    if co.tag != Vocabulary.CheckedOut {
      co := WithTag(co, Vocabulary.CheckedOut, false);
    }
    var pulled := OperationLabel(co, Vocabulary.Pulled);
    var merged := OperationLabel(co, Vocabulary.Merged);
    var pushed := OperationLabel(co, Vocabulary.ChangesPushed);
    var committed := OperationLabel(co, Vocabulary.ChangesCommitted);
    ghost var m := rs.rules;
    rs.Add(Rule(co, Some(action), {}));
    rs.Add(Rule(pulled, Some(action), {co}));
    rs.Add(Rule(merged, Some(action), {co}));
    rs.Add(Rule(pushed, Some(action), {}));
    assert rs.rules == FirstCheckoutRules(m, co, pulled, merged, pushed, action);
    // The rule object is filed only when the target is new; the dependency
    // added to it afterwards is then seen through the rule set.
    var filed := committed !in rs.rules;
    rs.Add(Rule(committed, Some(action), {}));
    if mustPullBeforeCommit && filed {
      rs.rules := rs.rules[committed := AddDep(rs.rules[committed], pulled)];
    }
    assert rs.rules == CheckoutRulesOf(m, co, pulled, merged, pushed, committed, action, mustPullBeforeCommit);
    assert co == CheckedOutLabel(l);
  }

  /** The five labels carry five different tags. */
  lemma CheckoutTagsDiffer()
    ensures Vocabulary.CheckedOut != Vocabulary.Pulled && Vocabulary.CheckedOut != Vocabulary.Merged
    ensures Vocabulary.CheckedOut != Vocabulary.ChangesPushed && Vocabulary.CheckedOut != Vocabulary.ChangesCommitted
    ensures Vocabulary.Pulled != Vocabulary.Merged && Vocabulary.Pulled != Vocabulary.ChangesPushed
    ensures Vocabulary.Pulled != Vocabulary.ChangesCommitted && Vocabulary.Merged != Vocabulary.ChangesPushed
    ensures Vocabulary.Merged != Vocabulary.ChangesCommitted && Vocabulary.ChangesPushed != Vocabulary.ChangesCommitted
  {
    assert Vocabulary.CheckedOut[0] == 'c' && Vocabulary.Pulled[0] == 'p' && Vocabulary.Merged[0] == 'm';
    assert Vocabulary.ChangesPushed[8] == 'p' && Vocabulary.ChangesCommitted[8] == 'c';
  }

  /** A rule for a new target is filed as it is. */
  lemma AddNewRule(m: map<Label, Rule>, r: Rule)
    requires r.target !in m
    ensures AddRule(m, r) == m[r.target := r]
  {
  }

  /** Five different targets. */
  predicate Distinct5(a: Label, b: Label, c: Label, d: Label, e: Label) {
    a != b && a != c && a != d && a != e && b != c && b != d && b != e && c != d && c != e && d != e
  }

  /** The five rules on a rule set that has none of their targets are
      filed as they are built. */
  lemma FreshRules(m: map<Label, Rule>, co: Label, pulled: Label, merged: Label, pushed: Label,
                   committed: Label, action: Action, mustPullBeforeCommit: bool)
    requires Distinct5(co, pulled, merged, pushed, committed)
    requires co !in m && pulled !in m && merged !in m && pushed !in m && committed !in m
    ensures CheckoutRulesOf(m, co, pulled, merged, pushed, committed, action, mustPullBeforeCommit) ==
      m[co := Rule(co, Some(action), {})][pulled := Rule(pulled, Some(action), {co})]
       [merged := Rule(merged, Some(action), {co})][pushed := Rule(pushed, Some(action), {})]
       [committed := Rule(committed, Some(action), if mustPullBeforeCommit then {pulled} else {})]
  {
    var r1, r2, r3, r4 := Rule(co, Some(action), {}), Rule(pulled, Some(action), {co}),
                          Rule(merged, Some(action), {co}), Rule(pushed, Some(action), {});
    var r5 := Rule(committed, Some(action), {});
    var m1 := m[co := r1];
    AddNewRule(m, r1);
    var m2 := m1[pulled := r2];
    AddNewRule(m1, r2);
    var m3 := m2[merged := r3];
    AddNewRule(m2, r3);
    var m4 := m3[pushed := r4];
    AddNewRule(m3, r4);
    AddNewRule(m4, r5);
    if mustPullBeforeCommit {
      assert AddDep(r5, pulled) == Rule(committed, Some(action), {pulled});
      assert m4[committed := r5][committed := AddDep(r5, pulled)] == m4[committed := AddDep(r5, pulled)];
    }
  }

  /** On a rule set that has none of a checkout's targets, add_checkout_rules
      files exactly the standard rules and changes nothing else: checked_out
      with no dependencies, transient pulled and merged on checked_out,
      transient changes_pushed with none, and transient changes_committed on
      pulled exactly when the VCS must pull before committing. */
  lemma CheckoutRulesFresh(m: map<Label, Rule>, l: Label, action: Action, mustPullBeforeCommit: bool)
    requires NoneFiled(m, CheckedOutLabel(l))
    ensures var co := CheckedOutLabel(l);
      var pulled := OperationLabel(co, Vocabulary.Pulled);
      var merged := OperationLabel(co, Vocabulary.Merged);
      var pushed := OperationLabel(co, Vocabulary.ChangesPushed);
      var committed := OperationLabel(co, Vocabulary.ChangesCommitted);
      CheckoutRuleMap(m, l, action, mustPullBeforeCommit) ==
        m[co := Rule(co, Some(action), {})][pulled := Rule(pulled, Some(action), {co})]
         [merged := Rule(merged, Some(action), {co})][pushed := Rule(pushed, Some(action), {})]
         [committed := Rule(committed, Some(action), if mustPullBeforeCommit then {pulled} else {})]
  {
    var co := CheckedOutLabel(l);
    CheckoutTagsDiffer();
    var pulled, merged := OperationLabel(co, Vocabulary.Pulled), OperationLabel(co, Vocabulary.Merged);
    var pushed, committed := OperationLabel(co, Vocabulary.ChangesPushed), OperationLabel(co, Vocabulary.ChangesCommitted);
    FreshRules(m, co, pulled, merged, pushed, committed, action, mustPullBeforeCommit);
  }

  /** Adding a rule keeps every target and dependency already filed, and
      files the rule's target with at least its dependencies. */
  lemma AddRuleGrows(m: map<Label, Rule>, r: Rule)
    ensures var n := AddRule(m, r);
      && r.target in n && r.deps <= n[r.target].deps
      && (forall k | k in m :: k in n && m[k].deps <= n[k].deps)
  {
    AddRuleUnion(m, r);
  }

  /** Adding a rule leaves the rules of other targets as they are. */
  lemma AddOtherRule(m: map<Label, Rule>, r: Rule, k: Label)
    requires k in m && k != r.target
    ensures k in AddRule(m, r) && AddRule(m, r)[k] == m[k]
  {
  }

  /** A committed rule already filed keeps the dependencies it had. */
  lemma FiledCommittedRule(m: map<Label, Rule>, co: Label, pulled: Label, merged: Label, pushed: Label,
                           committed: Label, action: Action)
    requires committed != co && committed != pulled && committed != merged && committed != pushed
    requires committed in m
    ensures var n := CheckoutRulesOf(m, co, pulled, merged, pushed, committed, action, true);
      committed in n && n[committed].deps == m[committed].deps
  {
    var m1 := AddRule(m, Rule(co, Some(action), {}));
    AddOtherRule(m, Rule(co, Some(action), {}), committed);
    var m2 := AddRule(m1, Rule(pulled, Some(action), {co}));
    AddOtherRule(m1, Rule(pulled, Some(action), {co}), committed);
    var m3 := AddRule(m2, Rule(merged, Some(action), {co}));
    AddOtherRule(m2, Rule(merged, Some(action), {co}), committed);
    var m4 := AddRule(m3, Rule(pushed, Some(action), {}));
    AddOtherRule(m3, Rule(pushed, Some(action), {}), committed);
    assert m4 == FirstCheckoutRules(m, co, pulled, merged, pushed, action);
    var r5 := Rule(committed, Some(action), {});
    assert AddRule(m4, r5)[committed] == Merged(m[committed], r5);
  }

  /** changes_committed is given its pull dependency only when its rule is
      new: when the rule set already holds a rule for that target without
      it, the dependency does not reach the rule set. */
  lemma CommittedRuleKeptWithoutPull(m: map<Label, Rule>, l: Label, action: Action)
    requires var co := CheckedOutLabel(l);
      var committed := OperationLabel(co, Vocabulary.ChangesCommitted);
      committed in m && OperationLabel(co, Vocabulary.Pulled) !in m[committed].deps
    ensures var co := CheckedOutLabel(l);
      var committed := OperationLabel(co, Vocabulary.ChangesCommitted);
      var n := CheckoutRuleMap(m, l, action, true);
      committed in n && OperationLabel(co, Vocabulary.Pulled) !in n[committed].deps
  {
    var co := CheckedOutLabel(l);
    CheckoutTagsDiffer();
    FiledCommittedRule(m, co, OperationLabel(co, Vocabulary.Pulled), OperationLabel(co, Vocabulary.Merged),
                       OperationLabel(co, Vocabulary.ChangesPushed), OperationLabel(co, Vocabulary.ChangesCommitted), action);
  }

  // ---------------------------------------------------------------------
  // package_depends_on_checkout

  /** The rule map after package_depends_on_checkout: preconfig, and the
      transient clean and distclean, each depending on the checkout being
      checked out. */
  function PackageCheckoutRules(m: map<Label, Rule>, pkg: string, role: Option<string>, co: string, action: Option<Action>)
    : map<Label, Rule>
  {
    var m1 := AddRule(m, Rule(PackageLabel(pkg, role, Vocabulary.PreConfig, false), action, {CheckoutLabel(co)}));
    var m2 := AddRule(m1, Rule(PackageLabel(pkg, role, Vocabulary.Clean, true), action, {CheckoutLabel(co)}));
    AddRule(m2, Rule(PackageLabel(pkg, role, Vocabulary.DistClean, true), action, {CheckoutLabel(co)}))
  }

  /** package_depends_on_checkout(ruleset, pkg_name, role_name, co_name,
      action): a name or role the Label constructor refuses is a GiveUp
      before anything is added. */
  method PackageDependsOnCheckout(rs: RuleSet, pkg: string, role: Option<string>, co: string, action: Option<Action>)
    returns (o: Outcome)
    modifies rs
    requires rs.Valid()
    ensures rs.Valid()
    ensures o.Pass? <==> ValidPart(co) && ValidPart(pkg) && RoleOk(role)
    ensures o.Fail? ==> o.error.GiveUp? && rs.rules == old(rs.rules)
    ensures o.Pass? ==> rs.rules == PackageCheckoutRules(old(rs.rules), pkg, role, co, action)
  {
    TypesValid();
    TagsValid();
    var checkout := NewLabel(Vocabulary.Checkout, co, None, Vocabulary.CheckedOut, false, false, None);
    if checkout.Err? {
      return Fail(checkout.error);
    }
    var preconfig := NewPackageLabel(pkg, role, Vocabulary.PreConfig, false);
    if preconfig.Err? {
      return Fail(preconfig.error);
    }
    assert checkout.value == CheckoutLabel(co);
    assert preconfig.value == PackageLabel(pkg, role, Vocabulary.PreConfig, false);
    ghost var m := rs.rules;
    // Rule(preconfig, action) with the checkout added to it.
    rs.Add(Rule(preconfig.value, action, {checkout.value}));
    ghost var m1 := rs.rules;
    var clean := PackageLabel(pkg, role, Vocabulary.Clean, true);
    rs.Add(Rule(clean, action, {checkout.value}));
    ghost var m2 := rs.rules;
    var distclean := PackageLabel(pkg, role, Vocabulary.DistClean, true);
    rs.Add(Rule(distclean, action, {checkout.value}));
    assert rs.rules == AddRule(AddRule(AddRule(m, Rule(preconfig.value, action, {checkout.value})),
                                       Rule(clean, action, {checkout.value})),
                               Rule(distclean, action, {checkout.value}));
    return Pass;
  }

  /** After package_depends_on_checkout, whatever the rule set held before,
      the package's preconfig, clean and distclean each depend on the
      checkout being checked out, and every earlier dependency stays. */
  lemma PackageNeedsCheckout(m: map<Label, Rule>, pkg: string, role: Option<string>, co: string, action: Option<Action>)
    ensures var n := PackageCheckoutRules(m, pkg, role, co, action);
      && PackageLabel(pkg, role, Vocabulary.PreConfig, false) in n
      && CheckoutLabel(co) in n[PackageLabel(pkg, role, Vocabulary.PreConfig, false)].deps
      && PackageLabel(pkg, role, Vocabulary.Clean, true) in n
      && CheckoutLabel(co) in n[PackageLabel(pkg, role, Vocabulary.Clean, true)].deps
      && PackageLabel(pkg, role, Vocabulary.DistClean, true) in n
      && CheckoutLabel(co) in n[PackageLabel(pkg, role, Vocabulary.DistClean, true)].deps
      && (forall k | k in m :: k in n && m[k].deps <= n[k].deps)
  {
    var r1 := Rule(PackageLabel(pkg, role, Vocabulary.PreConfig, false), action, {CheckoutLabel(co)});
    var r2 := Rule(PackageLabel(pkg, role, Vocabulary.Clean, true), action, {CheckoutLabel(co)});
    var r3 := Rule(PackageLabel(pkg, role, Vocabulary.DistClean, true), action, {CheckoutLabel(co)});
    var m1 := AddRule(m, r1);
    var m2 := AddRule(m1, r2);
    AddRuleGrows(m, r1);
    AddRuleGrows(m1, r2);
    AddRuleGrows(m2, r3);
  }

  // ---------------------------------------------------------------------
  // package_depends_on_packages

  /** The rule filed under a target, or the empty rule rule_for_target
      creates for it. */
  function Existing(m: map<Label, Rule>, t: Label): Rule {
    if t in m then m[t] else Rule(t, None, {})
  }

  /** The postinstalled labels of the named packages in one role. */
  function PostInstalledSet(names: seq<string>, role: Option<string>): set<Label> {
    set n | n in names :: PackageLabel(n, role, Vocabulary.PostInstalled, false)
  }

  lemma PostInstalledSnoc(names: seq<string>, n: string, role: Option<string>)
    ensures PostInstalledSet(names + [n], role) == PostInstalledSet(names, role) + {PackageLabel(n, role, Vocabulary.PostInstalled, false)}
  {
    assert forall x :: x in names + [n] <==> x in names || x == n;
  }

  /** One more dependency added to the rule of package_depends_on_packages. */
  lemma DependencyAdded(m: map<Label, Rule>, t: Label, r0: Rule, names: seq<string>, n: string, role: Option<string>)
    ensures var r := r0.(deps := r0.deps + PostInstalledSet(names, role));
      m[t := r][t := AddDep(r, PackageLabel(n, role, Vocabulary.PostInstalled, false))] ==
      m[t := r0.(deps := r0.deps + PostInstalledSet(names + [n], role))]
  {
    PostInstalledSnoc(names, n, role);
    var d := PackageLabel(n, role, Vocabulary.PostInstalled, false);
    assert (r0.deps + PostInstalledSet(names, role)) + {d} == r0.deps + (PostInstalledSet(names, role) + {d});
  }

  /** Every name of the sequence is a valid label part. */
  predicate AllValid(names: seq<string>) {
    forall i | 0 <= i < |names| :: ValidPart(names[i])
  }

  /** Valid names one by one are valid names as depend_chain checks them. */
  lemma {:induction false} ValidPartsOfAll(ps: seq<string>)
    requires AllValid(ps)
    ensures ValidParts(ps)
    decreases |ps|
  {
    if ps != [] {
      ValidPartsOfAll(ps[..|ps| - 1]);
    }
  }

  /** package_depends_on_packages(ruleset, pkg_name, role, tag_name, deps):
      the rule for the package at the tag is fetched, or created empty, and
      each dependency's postinstalled label in the same role is added to it
      in turn. The rule is the one filed, so the additions are seen through
      the rule set, and those made before a name that the Label constructor
      refuses stay. */
  method PackageDependsOnPackages(rs: RuleSet, pkg: string, role: Option<string>, tag: string, deps: seq<string>)
    returns (o: Outcome)
    modifies rs
    requires rs.Valid()
    ensures rs.Valid()
    ensures o.Pass? <==> ValidPart(pkg) && RoleOk(role) && ValidPart(tag) && AllValid(deps)
    ensures o.Fail? ==> o.error.GiveUp?
    ensures o.Pass? ==> var t := PackageLabel(pkg, role, tag, false);
      var r := Existing(old(rs.rules), t);
      rs.rules == old(rs.rules)[t := r.(deps := r.deps + PostInstalledSet(deps, role))]
  {
    TypesValid();
    TagsValid();
    var target := NewPackageLabel(pkg, role, tag, false);
    if target.Err? {
      return Fail(target.error);
    }
    var t := target.value;
    ghost var m := rs.rules;
    ghost var r0 := Existing(m, t);
    var r := rs.RuleForTarget(t, true);
    assert deps[..0] == [] && PostInstalledSet([], role) == {};
    assert r0.(deps := r0.deps + {}) == r0;
    assert rs.rules == m[t := r0];
    var i := 0;
    while i < |deps|
      invariant 0 <= i <= |deps| && rs.Valid()
      invariant AllValid(deps[..i])
      invariant rs.rules == m[t := r0.(deps := r0.deps + PostInstalledSet(deps[..i], role))]
    {
      var dep := NewPackageLabel(deps[i], role, Vocabulary.PostInstalled, false);
      if dep.Err? {
        return Fail(dep.error);
      }
      assert dep.value == PackageLabel(deps[i], role, Vocabulary.PostInstalled, false);
      rs.rules := rs.rules[t := AddDep(rs.rules[t], dep.value)];
      assert deps[..i + 1] == deps[..i] + [deps[i]];
      DependencyAdded(m, t, r0, deps[..i], deps[i], role);
      i := i + 1;
    }
    assert deps[..i] == deps;
    return Pass;
  }

  // ---------------------------------------------------------------------
  // add_package_rules

  /** The tags of the package chain after preconfig. */
  const PackageChainTags := [Vocabulary.Configured, Vocabulary.Built, Vocabulary.Installed, Vocabulary.PostInstalled]

  lemma PackageChainTagsValid()
    ensures ValidParts(PackageChainTags)
  {
    var ts := PackageChainTags;
    forall i | 0 <= i < |ts| ensures ValidPart(ts[i]) {
      PartOfLetters(ts[i]);
    }
    ValidPartsOfAll(ts);
  }

  /** add_package_rules(ruleset, pkg_name, role_name, action): the chain
      preconfig, configured, built, installed, postinstalled. */
  method AddPackageRules(rs: RuleSet, pkg: string, role: Option<string>, action: Option<Action>)
    returns (o: Outcome)
    modifies rs
    requires rs.Valid()
    ensures rs.Valid()
    ensures o.Pass? <==> ValidPart(pkg) && RoleOk(role)
    ensures o.Fail? ==> o.error.GiveUp? && rs.rules == old(rs.rules)
    ensures o.Pass? ==> rs.rules == AddAll(old(rs.rules),
      ChainRules(action, PackageLabel(pkg, role, Vocabulary.PreConfig, false), PackageChainTags))
  {
    TypesValid();
    TagsValid();
    var preconfig := NewPackageLabel(pkg, role, Vocabulary.PreConfig, false);
    if preconfig.Err? {
      return Fail(preconfig.error);
    }
    PackageChainTagsValid();
    o := rs.DependChain(action, preconfig.value, PackageChainTags);
  }

  /** After add_package_rules each stage of the package depends on the one
      before: configured on preconfig, built on configured, installed on
      built and postinstalled on installed. */
  lemma PackageStagesInOrder(m: map<Label, Rule>, pkg: string, role: Option<string>, action: Option<Action>)
    ensures var n := AddAll(m, ChainRules(action, PackageLabel(pkg, role, Vocabulary.PreConfig, false), PackageChainTags));
      && PackageLabel(pkg, role, Vocabulary.Configured, false) in n
      && PackageLabel(pkg, role, Vocabulary.Built, false) in n
      && PackageLabel(pkg, role, Vocabulary.Installed, false) in n
      && PackageLabel(pkg, role, Vocabulary.PostInstalled, false) in n
      && PackageLabel(pkg, role, Vocabulary.PreConfig, false) in n[PackageLabel(pkg, role, Vocabulary.Configured, false)].deps
      && PackageLabel(pkg, role, Vocabulary.Configured, false) in n[PackageLabel(pkg, role, Vocabulary.Built, false)].deps
      && PackageLabel(pkg, role, Vocabulary.Built, false) in n[PackageLabel(pkg, role, Vocabulary.Installed, false)].deps
      && PackageLabel(pkg, role, Vocabulary.Installed, false) in n[PackageLabel(pkg, role, Vocabulary.PostInstalled, false)].deps
  {
    var pre := PackageLabel(pkg, role, Vocabulary.PreConfig, false);
    var ts := PackageChainTags;
    ChainDepends(m, action, pre, ts);
    assert Retagged(pre, ts[0]) == PackageLabel(pkg, role, Vocabulary.Configured, false);
    assert Retagged(pre, ts[1]) == PackageLabel(pkg, role, Vocabulary.Built, false);
    assert Retagged(pre, ts[2]) == PackageLabel(pkg, role, Vocabulary.Installed, false);
    assert Retagged(pre, ts[3]) == PackageLabel(pkg, role, Vocabulary.PostInstalled, false);
  }

  // ---------------------------------------------------------------------
  // do_depend

  /** The role_names argument: a single role name or a list of them. */
  datatype RoleNames = OneRole(role: string) | Roles(roles: seq<string>)

  /** A string role_names stands for the one-element list. */
  function RoleList(rn: RoleNames): (rs: seq<string>)
    ensures rn.OneRole? ==> rs == [rn.role]
  {
    match rn
    case OneRole(r) => [r]
    case Roles(rs) => rs
  }

  /** The rule do_depend adds for one role and one (package, role) pair: the
      package's preconfig in that role depends on the other package's
      postinstalled, in the pair's role or, when that is None, in the same
      role. */
  function DependRule(pkg: string, role: string, dep: (string, Option<string>)): Rule {
    Rule(PackageLabel(pkg, Some(role), Vocabulary.PreConfig, false), None,
         {PackageLabel(dep.0, Some(dep.1.GetOr(role)), Vocabulary.PostInstalled, false)})
  }

  /** The labels of one role and pair can be built. */
  predicate PairValid(pkg: string, role: string, dep: (string, Option<string>)) {
    ValidPart(pkg) && ValidPart(role) && ValidPart(dep.0) && RoleOk(dep.1)
  }

  /** Every pair can be built in the role. */
  predicate RoleValid(pkg: string, role: string, deps: seq<(string, Option<string>)>) {
    forall j | 0 <= j < |deps| :: PairValid(pkg, role, deps[j])
  }

  /** Every role and pair can be built. */
  predicate PairsValid(pkg: string, roles: seq<string>, deps: seq<(string, Option<string>)>) {
    forall i | 0 <= i < |roles| :: RoleValid(pkg, roles[i], deps)
  }

  /** The rule map after the pairs of one role are added in turn. */
  function RoleDeps(m: map<Label, Rule>, pkg: string, role: string, deps: seq<(string, Option<string>)>): map<Label, Rule>
    decreases |deps|
  {
    if deps == [] then m
    else AddRule(RoleDeps(m, pkg, role, deps[..|deps| - 1]), DependRule(pkg, role, deps[|deps| - 1]))
  }

  /** The rule map after each role in turn. */
  function DependAll(m: map<Label, Rule>, pkg: string, roles: seq<string>, deps: seq<(string, Option<string>)>): map<Label, Rule>
    decreases |roles|
  {
    if roles == [] then m
    else RoleDeps(DependAll(m, pkg, roles[..|roles| - 1], deps), pkg, roles[|roles| - 1], deps)
  }

  /** The inner loop of do_depend, for one role. */
  method DependRole(rs: RuleSet, pkg: string, role: string, deps: seq<(string, Option<string>)>)
    returns (o: Outcome)
    modifies rs
    requires rs.Valid()
    ensures rs.Valid()
    ensures o.Pass? <==> RoleValid(pkg, role, deps)
    ensures o.Fail? ==> o.error.GiveUp?
    ensures o.Pass? ==> rs.rules == RoleDeps(old(rs.rules), pkg, role, deps)
  {
    TypesValid();
    TagsValid();
    ghost var start := rs.rules;
    var j := 0;
    while j < |deps|
      invariant 0 <= j <= |deps| && rs.Valid()
      invariant RoleValid(pkg, role, deps[..j])
      invariant rs.rules == RoleDeps(start, pkg, role, deps[..j])
    {
      var pre := NewPackageLabel(pkg, Some(role), Vocabulary.PreConfig, false);
      var post := NewPackageLabel(deps[j].0, Some(deps[j].1.GetOr(role)), Vocabulary.PostInstalled, false);
      if pre.Err? || post.Err? {
        RoleValidStep(pkg, role, deps, j);
        return Fail(if pre.Err? then pre.error else post.error);
      }
      rs.Add(Rule(pre.value, None, {post.value}));
      RoleValidStep(pkg, role, deps, j);
      RoleDepsStep(start, pkg, role, deps, j);
      j := j + 1;
    }
    assert deps[..j] == deps;
    return Pass;
  }

  lemma RoleValidStep(pkg: string, role: string, deps: seq<(string, Option<string>)>, j: nat)
    requires j < |deps|
    ensures RoleValid(pkg, role, deps[..j + 1]) <==> RoleValid(pkg, role, deps[..j]) && PairValid(pkg, role, deps[j])
    ensures !PairValid(pkg, role, deps[j]) ==> !RoleValid(pkg, role, deps)
  {
    assert deps[..j + 1][j] == deps[j];
    assert forall k | 0 <= k < j :: deps[..j + 1][k] == deps[..j][k];
  }

  lemma RoleDepsStep(m: map<Label, Rule>, pkg: string, role: string, deps: seq<(string, Option<string>)>, j: nat)
    requires j < |deps|
    ensures RoleDeps(m, pkg, role, deps[..j + 1]) == AddRule(RoleDeps(m, pkg, role, deps[..j]), DependRule(pkg, role, deps[j]))
  {
    assert deps[..j + 1][..j] == deps[..j];
  }

  lemma DependAllStep(m: map<Label, Rule>, pkg: string, roles: seq<string>, deps: seq<(string, Option<string>)>, i: nat)
    requires i < |roles|
    ensures DependAll(m, pkg, roles[..i + 1], deps) == RoleDeps(DependAll(m, pkg, roles[..i], deps), pkg, roles[i], deps)
  {
    assert roles[..i + 1][..i] == roles[..i];
  }

  lemma PairsValidStep(pkg: string, roles: seq<string>, deps: seq<(string, Option<string>)>, i: nat)
    requires i < |roles| && PairsValid(pkg, roles[..i], deps) && RoleValid(pkg, roles[i], deps)
    ensures PairsValid(pkg, roles[..i + 1], deps)
  {
    assert forall k | 0 <= k < i :: roles[..i + 1][k] == roles[..i][k];
  }

  lemma PairsInvalid(pkg: string, roles: seq<string>, deps: seq<(string, Option<string>)>, i: nat)
    requires i < |roles| && !RoleValid(pkg, roles[i], deps)
    ensures !PairsValid(pkg, roles, deps)
  {
  }

  /** do_depend(builder, pkg_name, role_names, deps). A label the Label
      constructor refuses stops the loops with a GiveUp, leaving the rules
      already added. */
  method DoDepend(rs: RuleSet, pkg: string, roleNames: RoleNames, deps: seq<(string, Option<string>)>)
    returns (o: Outcome)
    modifies rs
    requires rs.Valid()
    ensures rs.Valid()
    ensures o.Pass? <==> PairsValid(pkg, RoleList(roleNames), deps)
    ensures o.Fail? ==> o.error.GiveUp?
    ensures o.Pass? ==> rs.rules == DependAll(old(rs.rules), pkg, RoleList(roleNames), deps)
  {
    o := DependRoles(rs, pkg, RoleList(roleNames), deps);
  }

  /** The outer loop of do_depend, over the role names. */
  method DependRoles(rs: RuleSet, pkg: string, roles: seq<string>, deps: seq<(string, Option<string>)>)
    returns (o: Outcome)
    modifies rs
    requires rs.Valid()
    ensures rs.Valid()
    ensures o.Pass? <==> PairsValid(pkg, roles, deps)
    ensures o.Fail? ==> o.error.GiveUp?
    ensures o.Pass? ==> rs.rules == DependAll(old(rs.rules), pkg, roles, deps)
  {
    ghost var m := rs.rules;
    var i := 0;
    while i < |roles|
      invariant 0 <= i <= |roles| && rs.Valid()
      invariant PairsValid(pkg, roles[..i], deps)
      invariant rs.rules == DependAll(m, pkg, roles[..i], deps)
    {
      o := DependRole(rs, pkg, roles[i], deps);
      if o.Fail? {
        PairsInvalid(pkg, roles, deps, i);
        return;
      }
      PairsValidStep(pkg, roles, deps, i);
      DependAllStep(m, pkg, roles, deps, i);
      i := i + 1;
    }
    assert roles[..i] == roles;
    return Pass;
  }

  /** After the pairs of one role are added, the package's preconfig in that
      role depends on each pair's postinstalled label, and every rule there
      before keeps its dependencies. */
  lemma {:induction false} RoleDepsDepend(m: map<Label, Rule>, pkg: string, role: string, deps: seq<(string, Option<string>)>)
    ensures var n := RoleDeps(m, pkg, role, deps);
      && (forall k | k in m :: k in n && m[k].deps <= n[k].deps)
      && (forall j | 0 <= j < |deps| ::
            DependRule(pkg, role, deps[j]).target in n &&
            DependRule(pkg, role, deps[j]).deps <= n[DependRule(pkg, role, deps[j]).target].deps)
    decreases |deps|
  {
    if deps != [] {
      var init := deps[..|deps| - 1];
      RoleDepsDepend(m, pkg, role, init);
      var before := RoleDeps(m, pkg, role, init);
      var r := DependRule(pkg, role, deps[|deps| - 1]);
      AddRuleUnion(before, r);
      forall j | 0 <= j < |deps| - 1
        ensures DependRule(pkg, role, deps[j]).target in RoleDeps(m, pkg, role, deps)
        ensures DependRule(pkg, role, deps[j]).deps <= RoleDeps(m, pkg, role, deps)[DependRule(pkg, role, deps[j]).target].deps
      {
        assert deps[j] == init[j];
      }
    }
  }

  /** do_depend's promise: for every role and every pair, the package's
      preconfig in the role depends on the pair's package postinstalled, in
      the pair's role or, when that is None, in the same role. */
  lemma {:induction false} DependAllDepends(m: map<Label, Rule>, pkg: string, roles: seq<string>, deps: seq<(string, Option<string>)>)
    ensures var n := DependAll(m, pkg, roles, deps);
      forall i, j | 0 <= i < |roles| && 0 <= j < |deps| ::
        var pre := PackageLabel(pkg, Some(roles[i]), Vocabulary.PreConfig, false);
        pre in n && PackageLabel(deps[j].0, Some(deps[j].1.GetOr(roles[i])), Vocabulary.PostInstalled, false) in n[pre].deps
    decreases |roles|
  {
    if roles != [] {
      var init := roles[..|roles| - 1];
      var last := roles[|roles| - 1];
      DependAllDepends(m, pkg, init, deps);
      var before := DependAll(m, pkg, init, deps);
      RoleDepsDepend(before, pkg, last, deps);
      forall i, j | 0 <= i < |roles| && 0 <= j < |deps|
        ensures var pre := PackageLabel(pkg, Some(roles[i]), Vocabulary.PreConfig, false);
          pre in DependAll(m, pkg, roles, deps) &&
          PackageLabel(deps[j].0, Some(deps[j].1.GetOr(roles[i])), Vocabulary.PostInstalled, false) in DependAll(m, pkg, roles, deps)[pre].deps
      {
        if i < |roles| - 1 {
          assert roles[i] == init[i];
        } else {
          assert DependRule(pkg, last, deps[j]).target == PackageLabel(pkg, Some(roles[i]), Vocabulary.PreConfig, false);
        }
      }
    }
  }

  // ---------------------------------------------------------------------
  // VcsCheckoutBuilder.build_label

  /** The VCS handler operation a checkout tag asks for. */
  datatype VcsCall = CheckoutCall | PullCall | MergeCall | CommitCall | PushCall

  /** VcsCheckoutBuilder.build_label: the tag picks the operation; commit and
      push are skipped when the checkout has not been checked out; an
      unknown tag is a MuddleBug. The operation's outcome comes from `run`
      (true when pull or merge changed the checkout), and the checkout is
      recorded as just pulled after checking out, or after a pull or merge
      that changed it. */
  function BuildCheckoutLabel(l: Label, checkedOut: bool, run: VcsCall -> Result<bool>, justPulled: set<Label>)
    : (r: Result<set<Label>>)
    ensures r.Ok? ==> justPulled <= r.value <= justPulled + {l}
    ensures l.tag == Vocabulary.CheckedOut ==> (r.Ok? <==> run(CheckoutCall).Ok?) && (r.Ok? ==> l in r.value)
    ensures (l.tag == Vocabulary.ChangesCommitted || l.tag == Vocabulary.ChangesPushed) && !checkedOut ==>
      r == Ok(justPulled)
    ensures r.Err? && r.error.MuddleBug? && (forall c :: run(c).Ok?) ==>
      l.tag !in {Vocabulary.CheckedOut, Vocabulary.Pulled, Vocabulary.Merged, Vocabulary.ChangesCommitted, Vocabulary.ChangesPushed}
  {
    if l.tag == Vocabulary.CheckedOut then
      var _ :- run(CheckoutCall);
      Ok(justPulled + {l})
    else if l.tag == Vocabulary.Pulled || l.tag == Vocabulary.Merged then
      var changed :- run(if l.tag == Vocabulary.Pulled then PullCall else MergeCall);
      Ok(if changed then justPulled + {l} else justPulled)
    else if l.tag == Vocabulary.ChangesCommitted || l.tag == Vocabulary.ChangesPushed then
      if !checkedOut then Ok(justPulled)
      else
        var _ :- run(if l.tag == Vocabulary.ChangesCommitted then CommitCall else PushCall);
        Ok(justPulled)
    else Err(MuddleBug("Attempt to build unknown tag in checkout"))
  }

  /** A pull or merge records the checkout as just pulled exactly when the
      VCS reports that it changed it, and only checking out, pulling and
      merging ever record it. */
  lemma JustPulledOnChange(l: Label, checkedOut: bool, run: VcsCall -> Result<bool>, justPulled: set<Label>)
    requires l !in justPulled
    ensures var r := BuildCheckoutLabel(l, checkedOut, run, justPulled);
      r.Ok? ==> (l in r.value <==>
        || l.tag == Vocabulary.CheckedOut
        || (l.tag == Vocabulary.Pulled && run(PullCall) == Ok(true))
        || (l.tag == Vocabulary.Merged && run(MergeCall) == Ok(true)))
  {
    var p, m := Vocabulary.Pulled, Vocabulary.Merged;
    assert p != Vocabulary.CheckedOut && m != Vocabulary.CheckedOut && p != m;
  }
}
