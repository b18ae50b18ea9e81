// Build ordering over a rule set (depend.needed_to_build_labels and
// depend.required_by).

module Scheduler {
  import opened Wrappers
  import opened Labels
  import opened LabelMatching
  import opened Rules

  // ---------------------------------------------------------------------
  // What a build order must satisfy

  /** The rules that build `t`: those of every target that matches it, as
      rules_for_target returns them when wildcard matching is on (the tag
      flag is then ignored). */
  function Providers(m: map<Label, Rule>, t: Label): set<Rule> {
    Collect(m, m.Keys, JustMatching(t))
  }

  /** Every label some rule of `m` depends on. */
  function DepsOf(m: map<Label, Rule>): set<Label> {
    set k, d | k in m && d in m[k].deps :: d
  }

  /** The dependencies of `rules` not yet among the `built` labels. */
  function MissingDeps(rules: set<Rule>, built: set<Label>): set<Label> {
    set r, d | r in rules && d in r.deps && d !in built :: d
  }

  /** Providers as a function of the label alone. */
  function ProvidersOf(m: map<Label, Rule>): Label -> set<Rule> {
    t => Providers(m, t)
  }

  // The predicates below take the providers of each label as a function
  // `p`; for a rule set `m` it is ProvidersOf(m).

  /** `t` has rules, and every one of them is already in `prefix`. */
  ghost predicate Built(p: Label -> set<Rule>, t: Label, prefix: seq<Rule>) {
    p(t) != {} && forall r | r in p(t) :: r in prefix
  }

  ghost predicate AllBuilt(p: Label -> set<Rule>, ts: set<Label>, prefix: seq<Rule>) {
    forall t | t in ts :: Built(p, t, prefix)
  }

  /** A build order: every rule comes after all the rules of each label it
      depends on. */
  ghost predicate Ordered(p: Label -> set<Rule>, list: seq<Rule>) {
    forall i | 0 <= i < |list| :: Ready(p, list, i)
  }

  /** The `i`th rule of `list` comes after the rules of its dependencies. */
  ghost predicate Ready(p: Label -> set<Rule>, list: seq<Rule>, i: nat)
    requires i < |list|
  {
    AllBuilt(p, list[i].deps, list[..i])
  }

  /** Some rule of `t` depends on a label of `s`. */
  ghost predicate Blocked(p: Label -> set<Rule>, t: Label, s: set<Label>) {
    exists r, d | r in p(t) && d in r.deps :: d in s
  }

  /** Every label of `s` waits for another label of `s`: a cycle. */
  ghost predicate Stuck(p: Label -> set<Rule>, s: set<Label>) {
    forall t {:trigger Blocked(p, t, s)} | t in s :: Blocked(p, t, s)
  }

  lemma OrderedPrefix(p: Label -> set<Rule>, list: seq<Rule>, n: nat)
    requires n <= |list| && Ordered(p, list)
    ensures Ordered(p, list[..n])
  {
    forall i | 0 <= i < n ensures Ready(p, list[..n], i) {
      assert Ready(p, list, i);
      assert list[..n][..i] == list[..i] && list[..n][i] == list[i];
    }
  }

  /** No build order ever builds a label of a stuck set: each would need
      another to be built strictly earlier. */
  lemma {:induction false} StuckNeverBuilt(p: Label -> set<Rule>, s: set<Label>, list: seq<Rule>, t: Label)
    requires Stuck(p, s) && Ordered(p, list) && t in s
    ensures !Built(p, t, list)
    decreases |list|
  {
    if Built(p, t, list) {
      assert Blocked(p, t, s);
      var r, d :| r in p(t) && d in r.deps && d in s;
      assert r in list;
      var i :| 0 <= i < |list| && list[i] == r;
      assert Ready(p, list, i);
      assert Built(p, d, list[..i]);
      OrderedPrefix(p, list, i);
      StuckNeverBuilt(p, s, list[..i], d);
    }
  }

  /** A target of the rule set is always provided for, by its own rule. */
  lemma KeyProvided(m: map<Label, Rule>, k: Label)
    ensures k in m ==> m[k] in Providers(m, k)
  {
    if k in m {
      assert JustMatch(k, k);
    }
  }

  lemma ProvidersFromMap(m: map<Label, Rule>, t: Label, r: Rule)
    requires r in Providers(m, t)
    ensures r.deps <= DepsOf(m)
  {
    var k :| k in m && JustMatch(t, k) && m[k] == r;
    forall d | d in r.deps ensures d in DepsOf(m) {
      assert d in m[k].deps;
    }
  }

  lemma MissingFromMap(m: map<Label, Rule>, t: Label, built: set<Label>)
    ensures MissingDeps(Providers(m, t), built) <= DepsOf(m)
  {
    forall d | d in MissingDeps(Providers(m, t), built) ensures d in DepsOf(m) {
      var r :| r in Providers(m, t) && d in r.deps;
      ProvidersFromMap(m, t, r);
    }
  }

  // ---------------------------------------------------------------------
  // needed_to_build_labels

  /** The targets the requested labels stand for. */
  function Initial(m: map<Label, Rule>, ls: seq<Label>, useMatch: bool): (ts: set<Label>)
    ensures ts <= m.Keys
  {
    if ls == [] then {}
    else Initial(m, ls[..|ls| - 1], useMatch) + TargetsMatching(m, ls[|ls| - 1], useMatch)
  }

  method InitialTargets(rs: RuleSet, ls: seq<Label>, useMatch: bool) returns (ts: set<Label>)
    ensures ts == Initial(rs.rules, ls, useMatch)
  {
    ts := {};
    var i := 0;
    while i < |ls|
      invariant 0 <= i <= |ls|
      invariant ts == Initial(rs.rules, ls[..i], useMatch)
    {
      var found := rs.TargetsMatch(ls[i], useMatch);
      assert ls[..i + 1][..i] == ls[..i];
      ts := ts + found;
      i := i + 1;
    }
    assert ls[..i] == ls;
  }

  lemma EmptyDiff<T>(a: set<T>, b: set<T>)
    ensures (a - b == {}) <==> a <= b
  {
    if a - b == {} {
      forall x | x in a ensures x in b {
        assert x !in a - b;
      }
    }
  }

  lemma MissingOf(rules: set<Rule>, built: set<Label>, r: Rule)
    requires r in rules
    ensures r.deps - built <= MissingDeps(rules, built)
  {
  }

  lemma MissingStep(done: set<Rule>, r: Rule, built: set<Label>)
    ensures MissingDeps(done + {r}, built) == MissingDeps(done, built) + (r.deps - built)
  {
  }

  /** The scan of one rule's dependencies: each missing one becomes a new
      target unless it is a target already. */
  method ScanDeps(deps: set<Label>, built: set<Label>, targets: set<Label>, newTargets: set<Label>)
    returns (nt: set<Label>, can: bool, added: bool)
    ensures nt == newTargets + (deps - built - targets)
    ensures can <==> deps <= built
    ensures added <==> !(deps - built - targets <= newTargets)
  {
    nt, can, added := newTargets, true, false;
    var done: set<Label> := {};
    var todo := deps;
    while todo != {}
      invariant done !! todo && done + todo == deps
      invariant nt == newTargets + (done - built - targets)
      invariant can <==> done <= built
      invariant added <==> !(done - built - targets <= newTargets)
    {
      var dep :| dep in todo;
      if dep !in built {
        if dep !in nt && dep !in targets {
          nt := nt + {dep};
          added := true;
        }
        can := false;
      }
      done := done + {dep};
      todo := todo - {dep};
    }
  }

  /** The scan of all the rules for one target. */
  method CheckDeps(rules: set<Rule>, built: set<Label>, targets: set<Label>, newTargets: set<Label>)
    returns (nt: set<Label>, can: bool, added: bool)
    ensures nt == newTargets + (MissingDeps(rules, built) - targets)
    ensures can <==> MissingDeps(rules, built) == {}
    ensures added <==> !(MissingDeps(rules, built) - targets <= newTargets)
  {
    nt, can, added := newTargets, true, false;
    var done: set<Rule> := {};
    var todo := rules;
    while todo != {}
      invariant done !! todo && done + todo == rules
      invariant nt == newTargets + (MissingDeps(done, built) - targets)
      invariant can <==> MissingDeps(done, built) == {}
      invariant added <==> !(MissingDeps(done, built) - targets <= newTargets)
    {
      var rule :| rule in todo;
      MissingStep(done, rule, built);
      EmptyDiff(rule.deps, built);
      var c, a;
      nt, c, a := ScanDeps(rule.deps, built, targets, nt);
      can := can && c;
      added := added || a;
      done := done + {rule};
      todo := todo - {rule};
    }
  }

  lemma BuiltSnoc(p: Label -> set<Rule>, ts: set<Label>, list: seq<Rule>, r: Rule)
    requires AllBuilt(p, ts, list)
    ensures AllBuilt(p, ts, list + [r])
  {
    forall t | t in ts ensures Built(p, t, list + [r]) {
      assert Built(p, t, list);
    }
  }

  lemma OrderedSnoc(p: Label -> set<Rule>, list: seq<Rule>, r: Rule)
    requires Ordered(p, list) && AllBuilt(p, r.deps, list)
    ensures Ordered(p, list + [r])
  {
    var l' := list + [r];
    forall i | 0 <= i < |l'| ensures Ready(p, l', i) {
      if i < |list| {
        assert Ready(p, list, i);
        assert l'[i] == list[i] && l'[..i] == list[..i];
      } else {
        assert l'[..i] == list;
      }
    }
  }

  /** Appending the rules of a target whose dependencies are all built
      keeps the list a build order. */
  method AppendRules(ghost p: Label -> set<Rule>, list: seq<Rule>, built: set<Label>, rules: set<Rule>)
    returns (l': seq<Rule>)
    requires Ordered(p, list) && AllBuilt(p, built, list)
    requires MissingDeps(rules, built) == {}
    ensures Ordered(p, l') && AllBuilt(p, built, l')
    ensures |list| <= |l'| && l'[..|list|] == list
    ensures forall i | |list| <= i < |l'| :: l'[i] in rules
    ensures forall r | r in rules :: r in l'
  {
    l' := list;
    var done: set<Rule> := {};
    var todo := rules;
    while todo != {}
      invariant done !! todo && done + todo == rules
      invariant Ordered(p, l') && AllBuilt(p, built, l')
      invariant |list| <= |l'| && l'[..|list|] == list
      invariant forall i | |list| <= i < |l'| :: l'[i] in rules
      invariant forall r | r in done :: r in l'
    {
      var rule :| rule in todo;
      MissingOf(rules, built, rule);
      EmptyDiff(rule.deps, built);
      assert AllBuilt(p, rule.deps, l');
      OrderedSnoc(p, l', rule);
      BuiltSnoc(p, built, l', rule);
      assert (l' + [rule])[..|list|] == list;
      l' := l' + [rule];
      done := done + {rule};
      todo := todo - {rule};
    }
  }

  /** Every rule of `list` is one of the rule set's. */
  ghost predicate FromMap(m: map<Label, Rule>, list: seq<Rule>) {
    forall i | 0 <= i < |list| :: list[i] in m.Values
  }

  /** A label the rule set depends on but provides no rule for. */
  ghost predicate Unprovided(m: map<Label, Rule>, t: Label) {
    t in DepsOf(m) && t !in m && Providers(m, t) == {}
  }

  lemma FromMapAppend(m: map<Label, Rule>, t: Label, before: seq<Rule>, after: seq<Rule>)
    requires FromMap(m, before) && |before| <= |after| && after[..|before|] == before
    requires forall i | |before| <= i < |after| :: after[i] in Providers(m, t)
    ensures FromMap(m, after)
  {
    forall i | 0 <= i < |after| ensures after[i] in m.Values {
      if i < |before| {
        assert after[i] == before[i];
      } else {
        assert after[i] in Collect(m, m.Keys, JustMatching(t));
        var k :| k in m.Keys && k in m && Selects(JustMatching(t), k) && m[k] == after[i];
      }
    }
  }

  lemma MissingBlocks(p: Label -> set<Rule>, t: Label, built: set<Label>, s: set<Label>)
    requires MissingDeps(p(t), built) != {} && MissingDeps(p(t), built) <= s
    ensures Blocked(p, t, s)
  {
    var d :| d in MissingDeps(p(t), built);
    var r :| r in p(t) && d in r.deps;
  }

  /** One pass of needed_to_build_labels over the outstanding targets (in
      no particular order). A target whose rules' dependencies are all
      built has its rules appended and is built; otherwise it stays a
      target and its missing dependencies become targets. A target with no
      rule at all is a MuddleBug. */
  method BuildPass(rs: RuleSet, useTags: bool, targets: set<Label>, built: set<Label>, list: seq<Rule>)
    returns (o: Outcome, newTargets: set<Label>, built': set<Label>, list': seq<Rule>, progress: bool)
    requires targets <= rs.rules.Keys + DepsOf(rs.rules) && targets !! built
    requires Ordered(ProvidersOf(rs.rules), list) && AllBuilt(ProvidersOf(rs.rules), built, list)
    requires FromMap(rs.rules, list)
    ensures o.Fail? ==> o.error.MuddleBug? && exists t :: Unprovided(rs.rules, t)
    ensures o.Pass? ==> built <= built' <= built + targets && targets <= built' + newTargets
    ensures o.Pass? ==> newTargets <= rs.rules.Keys + DepsOf(rs.rules)
    ensures o.Pass? ==> Ordered(ProvidersOf(rs.rules), list') && AllBuilt(ProvidersOf(rs.rules), built', list')
    ensures o.Pass? ==> FromMap(rs.rules, list')
    ensures o.Pass? && progress ==> built' != built || !(newTargets <= targets + built)
    ensures o.Pass? && !progress ==> Stuck(ProvidersOf(rs.rules), targets)
  {
    var m := rs.rules;
    ghost var p := ProvidersOf(m);
    ghost var universe := m.Keys + DepsOf(m);
    o, newTargets, built', list', progress := Pass, {}, built, list, false;
    var doneT: set<Label> := {};
    var todo := targets;
    while todo != {}
      invariant doneT !! todo && doneT + todo == targets
      invariant built <= built' <= built + doneT
      invariant doneT <= built' + newTargets && newTargets <= universe
      invariant Ordered(p, list') && AllBuilt(p, built', list')
      invariant FromMap(m, list')
      invariant built' != built ==> progress
      invariant progress && built' == built ==> !(newTargets <= targets + built)
      invariant !progress ==> newTargets <= targets && forall t | t in doneT :: Blocked(p, t, targets)
    {
      var tgt :| tgt in todo;
      var rules := rs.RulesForTarget(tgt, useTags, true);
      assert rules == Providers(m, tgt) == p(tgt);
      if rules == {} {
        KeyProvided(m, tgt);
        assert Unprovided(m, tgt);
        return Fail(MuddleBug("Rule list is empty for target")), newTargets, built', list', progress;
      }
      MissingFromMap(m, tgt, built');
      var can, added;
      newTargets, can, added := CheckDeps(rules, built', targets, newTargets);
      if added {
        progress := true;
      }
      if can {
        ghost var before := list';
        list' := AppendRules(p, list', built', rules);
        assert Built(p, tgt, list');
        FromMapAppend(m, tgt, before, list');
        built' := built' + {tgt};
        progress := true;
      } else {
        if !progress {
          EmptyDiff(MissingDeps(rules, built'), targets);
          MissingBlocks(p, tgt, built', targets);
        }
        newTargets := newTargets + {tgt};
      }
      doneT := doneT + {tgt};
      todo := todo - {tgt};
    }
  }

  /** Each pass that does something either builds a target or adds a
      target never seen before. */
  lemma PassShrinks(u: set<Label>, targets: set<Label>, built: set<Label>, built': set<Label>, newTargets: set<Label>)
    requires targets <= u && built <= u && newTargets <= u
    requires built <= built' <= built + targets && targets <= built' + newTargets
    requires built' != built || !(newTargets <= targets + built)
    ensures u - built' < u - built ||
      (u - built' == u - built && u - (built' + (newTargets - built')) < u - (built + targets))
  {
    if built' == built {
      var d :| d in newTargets && d !in targets + built;
      assert d in u - (built + targets);
    } else {
      var t :| t in built' && t !in built;
      assert t in u - built;
    }
  }

  /** needed_to_build_labels: passes over the outstanding targets until none
      is left. The list returned is a build order holding the rules of every
      requested target; a pass that changes nothing is a GiveUp ("circular
      or incomplete"), and it leaves a set of targets each waiting on
      another. */
  method NeededToBuildLabels(rs: RuleSet, targetList: seq<Label>, useTags: bool, useMatch: bool)
    returns (r: Result<seq<Rule>>)
    ensures r.Ok? ==> Ordered(ProvidersOf(rs.rules), r.value)
    ensures r.Ok? ==> AllBuilt(ProvidersOf(rs.rules), Initial(rs.rules, targetList, useMatch), r.value)
    ensures r.Ok? ==> forall i | 0 <= i < |r.value| :: r.value[i] in rs.rules.Values
    ensures r.Err? && r.error.MuddleBug? ==> exists t :: Unprovided(rs.rules, t)
    ensures r.Err? && r.error.GiveUp? ==> exists s :: s != {} && Stuck(ProvidersOf(rs.rules), s)
  {
    var m := rs.rules;
    ghost var universe := m.Keys + DepsOf(m);
    var list: seq<Rule> := [];
    var built: set<Label> := {};
    var targets := InitialTargets(rs, targetList, useMatch);
    while true
      invariant targets <= universe && built <= universe && targets !! built
      invariant Ordered(ProvidersOf(m), list) && AllBuilt(ProvidersOf(m), built, list)
      invariant Initial(m, targetList, useMatch) <= targets + built
      invariant FromMap(m, list)
      decreases universe - built, universe - (built + targets)
    {
      if targets == {} {
        return Ok(list);
      }
      var o, newTargets, built', list', progress := BuildPass(rs, useTags, targets, built, list);
      if o.Fail? {
        return Err(o.error);
      }
      if !progress {
        return Err(GiveUp("Dependency graph is circular or incomplete"));
      }
      PassShrinks(universe, targets, built, built', newTargets);
      targets, built, list := newTargets - built', built', list';
    }
  }
}

module Requirements {
  import opened Wrappers
  import opened Labels
  import opened LabelMatching
  import opened Rules

  /** The rules that depend on a label, as rules_which_depend_on finds
      them, as a function of the label. */
  function DependentsOf(m: map<Label, Rule>, useTags: bool, useMatch: bool): Label -> set<Rule> {
    dep => RulesDependingOn(m, dep, useTags, useMatch)
  }

  function TargetsOf(rules: set<Rule>): set<Label> {
    set r | r in rules :: r.target
  }

  /** Every target of a rule depending on a label of `s` is in `s`. */
  ghost predicate Closed(q: Label -> set<Rule>, s: set<Label>) {
    forall dep, r | dep in s && r in q(dep) :: r.target in s
  }

  /** The targets one round of required_by adds to `s`. */
  function Extra(q: Label -> set<Rule>, s: set<Label>): set<Label> {
    set dep, r | dep in s && r in q(dep) && r.target !in s :: r.target
  }

  lemma ExtraEmptyIsClosed(q: Label -> set<Rule>, s: set<Label>)
    ensures Extra(q, s) == {} <==> Closed(q, s)
  {
    if Extra(q, s) == {} {
      forall dep, r | dep in s && r in q(dep) ensures r.target in s {
        assert r.target !in s ==> r.target in Extra(q, s);
      }
    }
  }

  /** The rules found depending on a label are rules of the set, filed
      under their targets. */
  lemma DependentsAreTargets(m: map<Label, Rule>, dep: Label, useTags: bool, useMatch: bool)
    requires Keyed(m)
    ensures TargetsOf(RulesDependingOn(m, dep, useTags, useMatch)) <= m.Keys
  {
    forall t | t in TargetsOf(RulesDependingOn(m, dep, useTags, useMatch)) ensures t in m {
      var r :| r in RulesDependingOn(m, dep, useTags, useMatch) && r.target == t;
      var k :| k in m && DependsOn(m[k], Test(dep, useTags, useMatch)) && m[k] == r;
    }
  }

  lemma TargetsOfRules(m: map<Label, Rule>, l: Label, useMatch: bool)
    requires Keyed(m)
    ensures TargetsOf(RulesFor(m, l, true, useMatch)) <= m.Keys
  {
    forall t | t in TargetsOf(RulesFor(m, l, true, useMatch)) ensures t in m {
      var r :| r in RulesFor(m, l, true, useMatch) && r.target == t;
      if useMatch {
        assert r in Collect(m, m.Keys, JustMatching(l));
        var k :| k in m.Keys && k in m && Selects(JustMatching(l), k) && m[k] == r;
      }
    }
  }

  lemma ExtraStep(q: Label -> set<Rule>, s: set<Label>, done: set<Label>, dep: Label)
    ensures (set d, r | d in done + {dep} && r in q(d) && r.target !in s :: r.target) ==
      (set d, r | d in done && r in q(d) && r.target !in s :: r.target) + (TargetsOf(q(dep)) - s)
  {
  }

  /** The targets of `rules` outside `s`, added to `extra`. */
  method AddOutside(rules: set<Rule>, s: set<Label>, extra: set<Label>) returns (e: set<Label>)
    ensures e == extra + (TargetsOf(rules) - s)
  {
    e := extra;
    var done: set<Rule> := {};
    var todo := rules;
    while todo != {}
      invariant done !! todo && done + todo == rules
      invariant e == extra + (TargetsOf(done) - s)
    {
      var rule :| rule in todo;
      assert TargetsOf(done + {rule}) == TargetsOf(done) + {rule.target};
      if rule.target !in s {
        e := e + {rule.target};
      }
      done := done + {rule};
      todo := todo - {rule};
    }
  }

  /** One round of required_by: the targets of rules depending on a label
      of `depends` that are not in it yet. */
  method ExtraTargets(rs: RuleSet, depends: set<Label>, useTags: bool, useMatch: bool)
    returns (extra: set<Label>)
    ensures extra == Extra(DependentsOf(rs.rules, useTags, useMatch), depends)
  {
    ghost var q := DependentsOf(rs.rules, useTags, useMatch);
    extra := {};
    var done: set<Label> := {};
    var todo := depends;
    while todo != {}
      invariant done !! todo && done + todo == depends
      invariant extra == (set d, r | d in done && r in q(d) && r.target !in depends :: r.target)
    {
      var dep :| dep in todo;
      var newRules := rs.RulesWhichDependOn(dep, useTags, useMatch);
      assert newRules == q(dep);
      ExtraStep(q, depends, done, dep);
      extra := AddOutside(newRules, depends, extra);
      done := done + {dep};
      todo := todo - {dep};
    }
  }

  /** required_by: the targets of the rules for `l` (looked up with tags,
      wildcards as asked), and then, round by round, every target whose
      rule depends on one of them. The result is the least set holding
      the first targets that no dependent rule leads out of. A definite
      label with no rule is a GiveUp. */
  method RequiredBy(rs: RuleSet, l: Label, useTags: bool, useMatch: bool) returns (r: Result<set<Label>>)
    requires rs.Valid()
    ensures r.Err? <==> RulesFor(rs.rules, l, true, useMatch) == {} && IsDefinite(l)
    ensures r.Ok? ==> TargetsOf(RulesFor(rs.rules, l, true, useMatch)) <= r.value <= rs.rules.Keys
    ensures r.Ok? ==> Closed(DependentsOf(rs.rules, useTags, useMatch), r.value)
    ensures r.Ok? ==> forall s | TargetsOf(RulesFor(rs.rules, l, true, useMatch)) <= s &&
      Closed(DependentsOf(rs.rules, useTags, useMatch), s) :: r.value <= s
  {
    var m := rs.rules;
    ghost var q := DependentsOf(m, useTags, useMatch);
    var rules := rs.RulesForTarget(l, true, useMatch);
    if rules == {} && IsDefinite(l) {
      return Err(GiveUp("No rules match label"));
    }
    var depends := AddOutside(rules, {}, {});
    ghost var init := TargetsOf(rules);
    TargetsOfRules(m, l, useMatch);
    while true
      invariant init <= depends <= m.Keys
      invariant forall s | init <= s && Closed(q, s) :: depends <= s
      decreases m.Keys - depends
    {
      var extra := ExtraTargets(rs, depends, useTags, useMatch);
      if extra == {} {
        ExtraEmptyIsClosed(q, depends);
        return Ok(depends);
      }
      ExtraWithin(m, q, depends, useTags, useMatch);
      depends := depends + extra;
    }
  }

  /** A round adds targets of the rule set only, and only targets every
      closed superset already holds. */
  lemma ExtraWithin(m: map<Label, Rule>, q: Label -> set<Rule>, s: set<Label>, useTags: bool, useMatch: bool)
    requires Keyed(m) && q == DependentsOf(m, useTags, useMatch)
    ensures Extra(q, s) <= m.Keys && Extra(q, s) !! s
    ensures forall c | s <= c && Closed(q, c) :: Extra(q, s) <= c
  {
    forall t | t in Extra(q, s) ensures t in m {
      var dep, r :| dep in s && r in q(dep) && r.target !in s && r.target == t;
      DependentsAreTargets(m, dep, useTags, useMatch);
      assert t in TargetsOf(q(dep));
    }
  }
}
