// Rules and rule sets (depend.Rule, depend.RuleSet): the dependency graph
// between labels, kept as a map from target label to the rule that builds it.

module Rules {
  import opened Wrappers
  import opened Labels
  import opened LabelMatching
  import Vocabulary

  /** An action is opaque here: a builder object known by name, or the
      SequentialAction that runs two actions in turn. */
  datatype Action = Builder(name: string) | Sequential(first: Action, second: Action)

  /** A rule: its target, an optional action and the labels the target
      depends on. */
  datatype Rule = Rule(target: Label, action: Option<Action>, deps: set<Label>)

  /** Rule.merge: the dependencies of `other` are added, and its action
      replaces ours when it has one. */
  function Merged(r: Rule, other: Rule): Rule {
    Rule(r.target, if other.action.Some? then other.action else r.action, r.deps + other.deps)
  }

  /** Rule.catenate_and_merge, as written: only the action is combined. The
      statement meant to add the other rule's dependencies builds their union
      and throws it away, so the dependencies stay ours. */
  function CatenateAndMerge(r: Rule, other: Rule, complainOnDuplicate: bool,
                            replaceOnDuplicate: bool): (m: Result<Rule>)
    ensures m.Err? <==> complainOnDuplicate && r.action.Some? && other.action.Some?
    ensures m.Ok? ==> m.value.target == r.target && m.value.deps == r.deps
    ensures m.Ok? ==> (m.value.action.None? <==> r.action.None? && other.action.None?)
    ensures m.Ok? && replaceOnDuplicate ==>
      m.value.action == if other.action.Some? then other.action else r.action
  {
    if r.action.None? then Ok(r.(action := other.action))
    else if other.action.None? then Ok(r)
    else if complainOnDuplicate then
      Err(MuddleBug("Duplicate action objects"))
    else if replaceOnDuplicate then Ok(r.(action := other.action))
    else Ok(r.(action := Some(Sequential(r.action.value, other.action.value))))
  }

  /** catenate_and_merge leaves the other rule's dependencies out, where
      merge keeps them. */
  lemma CatenateDropsDeps(r: Rule, other: Rule, d: Label)
    requires d in other.deps && d !in r.deps
    ensures d in Merged(r, other).deps
    ensures CatenateAndMerge(r, other, false, true).Ok?
    ensures d !in CatenateAndMerge(r, other, false, true).value.deps
  {
  }

  /** The dependency a unification rewrites: a label that unifies with
      `source` becomes a copy unified with `target`; others stay. */
  function Rewrite(l: Label, source: Label, target: Label): Label {
    if Unifies(l, source) then CopyAndUnifyWith(l, target) else l
  }

  /** Every label a unification rewrites ends up unifying with the target. */
  lemma RewriteUnifies(l: Label, source: Label, target: Label)
    ensures Unifies(l, source) ==> Unifies(Rewrite(l, source, target), target)
    ensures !Unifies(l, source) ==> Rewrite(l, source, target) == l
  {
    CopyUnifies(l, target);
  }

  function UnifiedDeps(deps: set<Label>, source: Label, target: Label): set<Label> {
    set d | d in deps :: Rewrite(d, source, target)
  }

  /** Rule.unify_dependencies: each dependency is rewritten. */
  method UnifyDependencies(r: Rule, source: Label, target: Label) returns (u: Rule)
    ensures u == r.(deps := UnifiedDeps(r.deps, source, target))
  {
    var newDeps: set<Label> := {};
    var done: set<Label> := {};
    var todo := r.deps;
    while todo != {}
      invariant done !! todo && done + todo == r.deps
      invariant newDeps == UnifiedDeps(done, source, target)
    {
      var d :| d in todo;
      UnifiedStep(done, d, source, target);
      newDeps := newDeps + {Rewrite(d, source, target)};
      done := done + {d};
      todo := todo - {d};
    }
    u := r.(deps := newDeps);
  }

  lemma UnifiedStep(done: set<Label>, d: Label, source: Label, target: Label)
    ensures UnifiedDeps(done + {d}, source, target) == UnifiedDeps(done, source, target) + {Rewrite(d, source, target)}
  {
  }

  /** Rule.add: one more dependency. */
  function AddDep(r: Rule, l: Label): (u: Rule)
    ensures u.deps == r.deps + {l} && u.target == r.target && u.action == r.action
  {
    r.(deps := r.deps + {l})
  }

  // ---------------------------------------------------------------------
  // Rule sets

  /** Every rule is filed under its own target. */
  ghost predicate Keyed(m: map<Label, Rule>) {
    forall k | k in m :: m[k].target == k
  }

  /** The map after RuleSet.add(r). */
  function AddRule(m: map<Label, Rule>, r: Rule): (m': map<Label, Rule>)
    ensures m'.Keys == m.Keys + {r.target}
    ensures Keyed(m) ==> Keyed(m')
  {
    if r.target in m then m[r.target := Merged(m[r.target], r)] else m[r.target := r]
  }

  /** Adding the same rule twice is the same as adding it once. */
  lemma AddRuleIdempotent(m: map<Label, Rule>, r: Rule)
    ensures AddRule(AddRule(m, r), r) == AddRule(m, r)
  {
    var t := r.target;
    if t in m {
      assert Merged(Merged(m[t], r), r) == Merged(m[t], r);
    } else {
      assert Merged(r, r) == r;
    }
  }

  /** Adding one rule keeps the dependencies and action already there, adds
      the new dependencies, and takes the new action when there is one. */
  lemma AddRuleUnion(m: map<Label, Rule>, r: Rule)
    ensures var n := AddRule(m, r)[r.target];
      && n.deps == (if r.target in m then m[r.target].deps else {}) + r.deps
      && n.action == (if r.action.Some? || r.target !in m then r.action else m[r.target].action)
    ensures forall k | k in m && k != r.target :: AddRule(m, r)[k] == m[k]
  {
  }

  /** The map after RuleSet.merge(other): rules for shared targets merged,
      the rest kept from either side. */
  function MergeMaps(a: map<Label, Rule>, b: map<Label, Rule>): (m: map<Label, Rule>)
    ensures m.Keys == a.Keys + b.Keys
  {
    map k | k in a.Keys + b.Keys ::
      if k in a && k in b then Merged(a[k], b[k]) else if k in a then a[k] else b[k]
  }

  function Restrict(m: map<Label, Rule>, ks: set<Label>): map<Label, Rule> {
    map k | k in ks && k in m :: m[k]
  }

  lemma MergeNothing(a: map<Label, Rule>, b: map<Label, Rule>)
    ensures MergeMaps(a, Restrict(b, {})) == a
  {
    assert Restrict(b, {}) == map[];
  }

  lemma RestrictAll(b: map<Label, Rule>)
    ensures Restrict(b, b.Keys) == b
  {
  }

  lemma MergeStep(a: map<Label, Rule>, b: map<Label, Rule>, done: set<Label>, k: Label)
    requires k in b && b[k].target == k && k !in done
    ensures AddRule(MergeMaps(a, Restrict(b, done)), b[k]) == MergeMaps(a, Restrict(b, done + {k}))
  {
    RestrictStep(b, done, k);
    MergeOne(a, Restrict(b, done), b[k]);
  }

  lemma RestrictStep(b: map<Label, Rule>, done: set<Label>, k: Label)
    requires k in b && k !in done
    ensures Restrict(b, done + {k}) == Restrict(b, done)[k := b[k]]
  {
  }

  lemma MergeOne(a: map<Label, Rule>, r: map<Label, Rule>, v: Rule)
    requires v.target !in r
    ensures AddRule(MergeMaps(a, r), v) == MergeMaps(a, r[v.target := v])
  {
    var lhs := AddRule(MergeMaps(a, r), v);
    var rhs := MergeMaps(a, r[v.target := v]);
    forall j | j in lhs.Keys ensures j in rhs && lhs[j] == rhs[j] {
    }
  }

  /** How rules_for_target and targets_match select a target `k`. */
  datatype Selector =
    | JustMatching(l: Label)   // l.just_match(k)
    | Matching(l: Label)       // k.match(l) is not None
    | WithoutTag(l: Label)     // k.match_without_tag(l)

  predicate Selects(s: Selector, k: Label) {
    match s
    case JustMatching(l) => JustMatch(l, k)
    case Matching(l) => Match(k, l).Some?
    case WithoutTag(l) => MatchWithoutTag(k, l)
  }

  /** The rules filed under the selected targets. */
  function Collect(m: map<Label, Rule>, ks: set<Label>, s: Selector): set<Rule> {
    set k | k in ks && k in m && Selects(s, k) :: m[k]
  }

  function CollectKeys(m: map<Label, Rule>, ks: set<Label>, s: Selector): set<Label> {
    set k | k in ks && k in m && Selects(s, k)
  }

  lemma CollectStep(m: map<Label, Rule>, ks: set<Label>, k: Label, s: Selector)
    requires k in m
    ensures Collect(m, ks + {k}, s) == Collect(m, ks, s) + (if Selects(s, k) then {m[k]} else {})
    ensures CollectKeys(m, ks + {k}, s) == CollectKeys(m, ks, s) + (if Selects(s, k) then {k} else {})
  {
  }

  /** What rules_for_target returns. */
  function RulesFor(m: map<Label, Rule>, l: Label, useTags: bool, useMatch: bool): set<Rule> {
    if useMatch then Collect(m, m.Keys, JustMatching(l))
    else if useTags then (if l in m then {m[l]} else {})
    else Collect(m, m.Keys, WithoutTag(l))
  }

  /** What targets_match returns. */
  function TargetsMatching(m: map<Label, Rule>, l: Label, useMatch: bool): set<Label> {
    if useMatch then CollectKeys(m, m.Keys, Matching(l))
    else if l in m then {l} else {}
  }

  /** The label expand_wildcards searches for: a '*' tag is replaced by the
      type's final tag (and the flags cleared, as copy_with_tag does) when
      defaulting is asked for and the type has such a tag. */
  function WildcardQuery(l: Label, defaultToObviousTag: bool): Label {
    if defaultToObviousTag && l.tag == "*" && Vocabulary.DefaultTag(l.ty).Some? then
      l.(tag := Vocabulary.DefaultTag(l.ty).value, system := false, transient := false)
    else l
  }

  /** The rules found for a label are exactly the rules of the targets that
      match it (whichever side carries the wildcard), and for a label with no
      wildcard among definite targets they are its own rule. */
  lemma RulesForMatchingTargets(m: map<Label, Rule>, l: Label)
    requires Keyed(m)
    ensures forall r | r in RulesFor(m, l, true, true) :: r.target in TargetsMatching(m, l, true)
    ensures forall t | t in TargetsMatching(m, l, true) :: m[t] in RulesFor(m, l, true, true)
  {
    forall r | r in RulesFor(m, l, true, true) ensures r.target in TargetsMatching(m, l, true) {
      var k :| k in m && JustMatch(l, k) && m[k] == r;
      JustMatchIsMatch(l, k);
      JustMatchIsMatch(k, l);
    }
    forall t | t in TargetsMatching(m, l, true) ensures m[t] in RulesFor(m, l, true, true) {
      JustMatchIsMatch(l, t);
      JustMatchIsMatch(t, l);
    }
  }

  /** How rules_which_depend_on tests a rule's dependencies. */
  datatype DepTest =
    | AnyMatching(l: Label)     // some dep.match(l) is not None
    | Contains(l: Label)        // l in deps
    | AnyWithoutTag(l: Label)   // some dep.match_without_tag(l)

  predicate DepHit(t: DepTest, dep: Label) {
    match t
    case AnyMatching(l) => Match(dep, l).Some?
    case Contains(l) => dep == l
    case AnyWithoutTag(l) => MatchWithoutTag(dep, l)
  }

  predicate DependsOn(r: Rule, t: DepTest) {
    exists dep | dep in r.deps :: DepHit(t, dep)
  }

  function Test(l: Label, useTags: bool, useMatch: bool): DepTest {
    if useMatch then AnyMatching(l) else if useTags then Contains(l) else AnyWithoutTag(l)
  }

  /** What rules_which_depend_on returns. */
  function RulesDependingOn(m: map<Label, Rule>, l: Label, useTags: bool, useMatch: bool): set<Rule> {
    set k | k in m && DependsOn(m[k], Test(l, useTags, useMatch)) :: m[k]
  }

  function DependingAmong(m: map<Label, Rule>, ks: set<Label>, t: DepTest): set<Rule> {
    set k | k in ks && k in m && DependsOn(m[k], t) :: m[k]
  }

  lemma DependingAll(m: map<Label, Rule>, l: Label, useTags: bool, useMatch: bool)
    ensures DependingAmong(m, m.Keys, Test(l, useTags, useMatch)) == RulesDependingOn(m, l, useTags, useMatch)
  {
  }

  lemma DependingStep(m: map<Label, Rule>, ks: set<Label>, k: Label, t: DepTest)
    requires k in m
    ensures DependingAmong(m, ks + {k}, t) ==
      DependingAmong(m, ks, t) + (if DependsOn(m[k], t) then {m[k]} else {})
  {
  }

  /** The scan of one rule's dependencies, stopping at the first hit. */
  method AnyDep(deps: set<Label>, t: DepTest) returns (hit: bool)
    ensures hit <==> exists dep | dep in deps :: DepHit(t, dep)
  {
    var todo := deps;
    hit := false;
    while todo != {}
      invariant todo <= deps
      invariant !hit ==> forall dep | dep in deps - todo :: !DepHit(t, dep)
      invariant hit ==> exists dep | dep in deps :: DepHit(t, dep)
    {
      var dep :| dep in todo;
      if DepHit(t, dep) {
        hit := true;
        break;
      }
      todo := todo - {dep};
    }
  }

  /** normalise_checkout_label: a checkout label with the given tag, no
      role and no flags; anything but a checkout label is refused. */
  function NormaliseCheckoutLabel(l: Label, tag: string): (r: Result<Label>)
    ensures r.Err? <==> l.ty != Vocabulary.Checkout || (!ValidPart(tag) && !(l.tag == tag && l.role.None? && !l.system && !l.transient))
    ensures r.Ok? ==> r.value == Label(l.ty, l.domain, l.name, None, tag, false, false)
  {
    if l.ty != Vocabulary.Checkout then Err(MuddleBug("Cannot \"normalise\" a non-checkout label"))
    else if l.tag == tag && l.role.None? && !l.system && !l.transient then Ok(l)
    else
      var n :- CopyWithTag(l, tag, false, false);
      Ok(n.(role := None))
  }

  /** Normalising is idempotent, and labels that differ only in role, tag or
      flags normalise alike. */
  lemma NormaliseIdempotent(a: Label, b: Label, tag: string)
    requires NormaliseCheckoutLabel(a, tag).Ok?
    ensures NormaliseCheckoutLabel(NormaliseCheckoutLabel(a, tag).value, tag) == NormaliseCheckoutLabel(a, tag)
    ensures NormaliseCheckoutLabel(b, tag).Ok? && b.ty == a.ty && b.domain == a.domain && b.name == a.name ==>
      NormaliseCheckoutLabel(b, tag) == NormaliseCheckoutLabel(a, tag)
  {
  }

  /** retag_label_list: a copy of each label with the new tag (and the flags
      cleared, as copy_with_tag does). An invalid tag is only noticed when
      there is a label to copy. */
  method RetagLabelList(labels: seq<Label>, tag: string) returns (r: Result<seq<Label>>)
    ensures r.Ok? <==> |labels| == 0 || ValidPart(tag)
    ensures r.Ok? ==> |r.value| == |labels|
    ensures r.Ok? ==> forall i | 0 <= i < |labels| ::
      r.value[i] == labels[i].(tag := tag, system := false, transient := false)
  {
    var result: seq<Label> := [];
    var i := 0;
    while i < |labels|
      invariant 0 <= i <= |labels|
      invariant i > 0 ==> ValidPart(tag)
      invariant |result| == i
      invariant forall j | 0 <= j < i :: result[j] == labels[j].(tag := tag, system := false, transient := false)
    {
      var next := CopyWithTag(labels[i], tag, false, false);
      if next.Err? {
        return Err(next.error);
      }
      result := result + [next.value];
      i := i + 1;
    }
    return Ok(result);
  }

  /** The map after adding each rule of `rs` in turn. */
  function AddAll(m: map<Label, Rule>, rs: seq<Rule>): (m': map<Label, Rule>)
    ensures Keyed(m) ==> Keyed(m')
  {
    if rs == [] then m else AddRule(AddAll(m, rs[..|rs| - 1]), rs[|rs| - 1])
  }

  /** Adding rules never loses a dependency: every added rule's dependencies
      are in the rule filed under its target, as are those already there. */
  lemma {:induction false} AddAllKeepsDeps(m: map<Label, Rule>, rs: seq<Rule>)
    ensures forall i | 0 <= i < |rs| :: rs[i].target in AddAll(m, rs) && rs[i].deps <= AddAll(m, rs)[rs[i].target].deps
    ensures forall k | k in m :: k in AddAll(m, rs) && m[k].deps <= AddAll(m, rs)[k].deps
  {
    if rs != [] {
      var init := rs[..|rs| - 1];
      AddAllKeepsDeps(m, init);
      var before := AddAll(m, init);
      AddRuleUnion(before, rs[|rs| - 1]);
      forall i | 0 <= i < |rs| - 1
        ensures rs[i].target in AddAll(m, rs) && rs[i].deps <= AddAll(m, rs)[rs[i].target].deps
      {
        assert rs[i] == init[i];
      }
    }
  }

  /** The label at each step of depend_chain: a copy with the new tag (and,
      as copy_with_tag does, no flags). */
  function Retagged(l: Label, tag: string): Label {
    l.(tag := tag, system := false, transient := false)
  }

  /** The rules depend_chain adds: the base label with no dependencies, then
      one rule per tag depending on the label before it. */
  function ChainRules(action: Option<Action>, l: Label, tags: seq<string>): (rs: seq<Rule>)
    ensures |rs| == |tags| + 1
  {
    if tags == [] then [Rule(l, action, {})]
    else ChainRules(action, l, tags[..|tags| - 1]) + [Rule(Retagged(l, tags[|tags| - 1]), action, {ChainLast(l, tags[..|tags| - 1])})]
  }

  /** The label a chain over `tags` ends with. */
  function ChainLast(l: Label, tags: seq<string>): Label {
    if tags == [] then l else Retagged(l, tags[|tags| - 1])
  }

  /** Each rule of the chain: the base rule first, then for each tag a rule
      for the retagged label that depends on the one before. */
  lemma {:induction false} ChainShape(action: Option<Action>, l: Label, tags: seq<string>)
    ensures ChainRules(action, l, tags)[0] == Rule(l, action, {})
    ensures forall i | 0 <= i < |tags| :: ChainRules(action, l, tags)[i + 1] == Rule(Retagged(l, tags[i]), action, {ChainLast(l, tags[..i])})
  {
    if tags != [] {
      var init := tags[..|tags| - 1];
      ChainShape(action, l, init);
      forall i | 0 <= i < |tags| - 1
        ensures ChainRules(action, l, tags)[i + 1] == Rule(Retagged(l, tags[i]), action, {ChainLast(l, tags[..i])})
      {
        assert init[i] == tags[i] && init[..i] == tags[..i];
      }
    }
  }

  /** One more tag extends the chain by one rule. */
  lemma ChainStep(action: Option<Action>, l: Label, tags: seq<string>, i: nat)
    requires i < |tags|
    ensures ChainRules(action, l, tags[..i + 1]) ==
      ChainRules(action, l, tags[..i]) + [Rule(Retagged(l, tags[i]), action, {ChainLast(l, tags[..i])})]
    ensures ChainLast(l, tags[..i + 1]) == Retagged(l, tags[i])
  {
    assert tags[..i + 1][..i] == tags[..i];
  }

  /** Every string of the sequence is a valid label part. */
  predicate ValidParts(ps: seq<string>)
    decreases |ps|
  {
    ps == [] || (ValidPart(ps[|ps| - 1]) && ValidParts(ps[..|ps| - 1]))
  }

  lemma ValidPartsStep(ps: seq<string>, i: nat)
    requires i < |ps|
    ensures ValidParts(ps[..i + 1]) <==> ValidParts(ps[..i]) && ValidPart(ps[i])
    ensures !ValidParts(ps[..i + 1]) ==> !ValidParts(ps)
  {
    assert ps[..i + 1][..i] == ps[..i];
    ValidPartsPrefix(ps, i + 1);
  }

  lemma {:induction false} ValidPartsPrefix(ps: seq<string>, n: nat)
    requires n <= |ps|
    ensures ValidParts(ps) ==> ValidParts(ps[..n])
    decreases |ps|
  {
    if n < |ps| {
      assert ps[..|ps| - 1][..n] == ps[..n];
      ValidPartsPrefix(ps[..|ps| - 1], n);
    } else {
      assert ps[..n] == ps;
    }
  }

  lemma ChainBase(action: Option<Action>, l: Label, tags: seq<string>)
    ensures ChainRules(action, l, tags[..0]) == [Rule(l, action, {})] && ChainLast(l, tags[..0]) == l
  {
    assert tags[..0] == [];
  }

  lemma ChainNext(action: Option<Action>, l: Label, tags: seq<string>, i: nat, added: seq<Rule>, last: Label, r: Rule)
    requires i < |tags| && added == ChainRules(action, l, tags[..i]) && last == ChainLast(l, tags[..i])
    requires r == Rule(last.(tag := tags[i], system := false, transient := false), action, {last})
    ensures ChainRules(action, l, tags[..i + 1]) == added + [r]
    ensures ChainLast(l, tags[..i + 1]) == r.target
  {
    ChainStep(action, l, tags, i);
  }

  lemma AddAllSnoc(m: map<Label, Rule>, rs: seq<Rule>, r: Rule)
    ensures AddAll(m, rs + [r]) == AddRule(AddAll(m, rs), r)
  {
    assert (rs + [r])[..|rs|] == rs;
  }

  /** depend_chain: after the chain is added, each tag's label depends on
      the label before it (whatever else the rule set already held). */
  lemma ChainDepends(m: map<Label, Rule>, action: Option<Action>, l: Label, tags: seq<string>)
    ensures var n := AddAll(m, ChainRules(action, l, tags));
      && l in n
      && (forall i | 0 <= i < |tags| :: Retagged(l, tags[i]) in n)
      && (|tags| > 0 ==> l in n[Retagged(l, tags[0])].deps)
      && (forall i | 0 <= i < |tags| - 1 :: Retagged(l, tags[i]) in n[Retagged(l, tags[i + 1])].deps)
  {
    var rs := ChainRules(action, l, tags);
    AddAllKeepsDeps(m, rs);
    ChainShape(action, l, tags);
    forall i | 0 <= i < |tags| ensures Retagged(l, tags[i]) in AddAll(m, rs) {
      assert rs[i + 1].target == Retagged(l, tags[i]);
    }
    if |tags| > 0 {
      assert tags[..0] == [];
      assert rs[1].deps == {l};
    }
    forall i | 0 <= i < |tags| - 1
      ensures Retagged(l, tags[i]) in AddAll(m, rs)[Retagged(l, tags[i + 1])].deps
    {
      assert tags[..i + 1][i] == tags[i];
      assert rs[i + 2].deps == {Retagged(l, tags[i])};
    }
  }

  // ---------------------------------------------------------------------
  // The rule set object

  class RuleSet {
    var rules: map<Label, Rule>

    ghost predicate Valid()
      reads this
    {
      Keyed(rules)
    }

    constructor ()
      ensures rules == map[] && Valid()
    {
      rules := map[];
    }

    /** RuleSet.add: a rule for a new target is filed; a rule for a known
        target is merged into the one there. */
    method Add(r: Rule)
      modifies this
      requires Valid()
      ensures Valid()
      ensures rules == AddRule(old(rules), r)
    {
      if r.target in rules {
        rules := rules[r.target := Merged(rules[r.target], r)];
      } else {
        rules := rules[r.target := r];
      }
    }

    /** depend_chain(action, label, tags, ruleset): the base rule, then one
        rule per tag, each added in turn. A tag that is not a valid label
        part stops the chain with GiveUp, leaving the rules added so far. */
    method DependChain(action: Option<Action>, l: Label, tags: seq<string>) returns (o: Outcome)
      modifies this
      requires Valid()
      ensures Valid()
      ensures o.Pass? <==> ValidParts(tags)
      ensures o.Pass? ==> rules == AddAll(old(rules), ChainRules(action, l, tags))
    {
      ghost var m0 := rules;
      var last := l;
      Add(Rule(last, action, {}));
      ghost var added := [Rule(l, action, {})];
      AddAllSnoc(m0, [], Rule(l, action, {}));
      ChainBase(action, l, tags);
      assert ValidParts(tags[..0]);
      var i := 0;
      while i < |tags|
        invariant 0 <= i <= |tags| && Valid()
        invariant ValidParts(tags[..i])
        invariant rules == AddAll(m0, added)
        invariant added == ChainRules(action, l, tags[..i])
        invariant last == ChainLast(l, tags[..i])
      {
        var next := CopyWithTag(last, tags[i], false, false);
        ValidPartsStep(tags, i);
        if next.Err? {
          return Fail(next.error);
        }
        var r := Rule(next.value, action, {last});
        ChainNext(action, l, tags, i, added, last, r);
        AddAllSnoc(m0, added, r);
        Add(r);
        added := added + [r];
        last := next.value;
        i := i + 1;
      }
      assert tags[..i] == tags;
      return Pass;
    }

    /** RuleSet.merge: each rule of `other` is added in turn. */
    method Merge(other: RuleSet)
      modifies this
      requires Valid() && other.Valid()
      ensures Valid()
      ensures rules == MergeMaps(old(rules), old(other.rules))
    {
      var src := other.rules;
      var done: set<Label> := {};
      var todo := src.Keys;
      MergeNothing(rules, src);
      while todo != {}
        invariant done !! todo && done + todo == src.Keys
        invariant Valid()
        invariant rules == MergeMaps(old(rules), Restrict(src, done))
      {
        var k :| k in todo;
        MergeStep(old(rules), src, done, k);
        Add(src[k]);
        done := done + {k};
        todo := todo - {k};
      }
      RestrictAll(src);
    }

    /** RuleSet.rules_for_target. */
    method RulesForTarget(l: Label, useTags: bool, useMatch: bool) returns (found: set<Rule>)
      ensures found == RulesFor(rules, l, useTags, useMatch)
    {
      if !useMatch && useTags {
        found := if l in rules then {rules[l]} else {};
        return;
      }
      var s := if useMatch then JustMatching(l) else WithoutTag(l);
      var m := rules;
      found := {};
      var done: set<Label> := {};
      var todo := m.Keys;
      while todo != {}
        invariant done !! todo && done + todo == m.Keys
        invariant found == Collect(m, done, s)
      {
        var k :| k in todo;
        CollectStep(m, done, k, s);
        if Selects(s, k) {
          found := found + {m[k]};
        }
        done := done + {k};
        todo := todo - {k};
      }
    }

    /** RuleSet.targets_match. */
    method TargetsMatch(l: Label, useMatch: bool) returns (found: set<Label>)
      ensures found == TargetsMatching(rules, l, useMatch)
    {
      if !useMatch {
        found := if l in rules then {l} else {};
        return;
      }
      var m := rules;
      found := {};
      var done: set<Label> := {};
      var todo := m.Keys;
      while todo != {}
        invariant done !! todo && done + todo == m.Keys
        invariant found == CollectKeys(m, done, Matching(l))
      {
        var k :| k in todo;
        CollectStep(m, done, k, Matching(l));
        if Match(k, l).Some? {
          found := found + {k};
        }
        done := done + {k};
        todo := todo - {k};
      }
    }

    /** RuleSet.rule_for_target: the rule filed under the label, optionally
        creating an empty one. */
    method RuleForTarget(l: Label, createIfNotPresent: bool) returns (r: Option<Rule>)
      modifies this
      requires Valid()
      ensures Valid()
      ensures l in old(rules) ==> r == Some(old(rules)[l]) && rules == old(rules)
      ensures l !in old(rules) && createIfNotPresent ==>
        r == Some(Rule(l, None, {})) && rules == old(rules)[l := Rule(l, None, {})]
      ensures l !in old(rules) && !createIfNotPresent ==> r.None? && rules == old(rules)
    {
      if l in rules {
        r := Some(rules[l]);
      } else if createIfNotPresent {
        r := Some(Rule(l, None, {}));
        rules := rules[l := r.value];
      } else {
        r := None;
      }
    }

    /** RuleSet.rules_which_depend_on. */
    method RulesWhichDependOn(l: Label, useTags: bool, useMatch: bool) returns (found: set<Rule>)
      ensures found == RulesDependingOn(rules, l, useTags, useMatch)
    {
      var t := Test(l, useTags, useMatch);
      var m := rules;
      found := {};
      var done: set<Label> := {};
      var todo := m.Keys;
      while todo != {}
        invariant done !! todo && done + todo == m.Keys
        invariant found == DependingAmong(m, done, t)
      {
        var k :| k in todo;
        DependingStep(m, done, k, t);
        var hit := AnyDep(m[k].deps, t);
        if hit {
          found := found + {m[k]};
        }
        done := done + {k};
        todo := todo - {k};
      }
      DependingAll(m, l, useTags, useMatch);
    }

    /** RuleSet.expand_wildcards: a definite label stands for itself; a
        wildcarded one gets the type's final tag for a '*' tag (when asked)
        and then stands for the targets that match it. */
    method ExpandWildcards(l: Label, defaultToObviousTag: bool) returns (r: Result<set<Label>>)
      ensures IsDefinite(l) ==> r == Ok({l})
      ensures r.Err? <==>
        !IsDefinite(l) && defaultToObviousTag && l.tag == "*" && Vocabulary.DefaultTag(l.ty).None?
      ensures r.Ok? && !IsDefinite(l) ==> forall t | t in r.value :: t in rules && AllCompatible(t, l)
      ensures r.Ok? && !IsDefinite(l) ==>
        r.value == TargetsMatching(rules, WildcardQuery(l, defaultToObviousTag), true)
    {
      if IsDefinite(l) {
        return Ok({l});
      }
      var query := l;
      if defaultToObviousTag && l.tag == "*" {
        var tag := Vocabulary.DefaultTag(l.ty);
        if tag.None? {
          return Err(Crash("KeyError: no default tag for this label type"));
        }
        query := l.(tag := tag.value, system := false, transient := false);
      }
      var found := TargetsMatch(query, true);
      forall t | t in found ensures t in rules && AllCompatible(t, l) {
        JustMatchIsMatch(t, query);
        FieldValues(t); FieldValues(l); FieldValues(query);
      }
      return Ok(found);
    }

    /** RuleSet.unify: every target that unifies with `source` is rewritten
        towards `target` (rules that collide are combined with
        catenate_and_merge), then every rule's dependencies are rewritten the
        same way. */
    method Unify(source: Label, target: Label)
      modifies this
      requires Valid()
      ensures Valid()
      ensures rules.Keys == set k | k in old(rules) :: Rewrite(k, source, target)
      ensures forall n | n in rules :: exists k | k in old(rules) ::
        Rewrite(k, source, target) == n && rules[n].deps == UnifiedDeps(old(rules)[k].deps, source, target)
      ensures forall n | n in rules ::
        (rules[n].action.None? <==> NoActionFrom(old(rules), old(rules).Keys, n, source, target))
      ensures forall n | n in rules && rules[n].action.Some? :: exists k | k in old(rules) ::
        Rewrite(k, source, target) == n && old(rules)[k].action == rules[n].action
    {
      var m := rules;
      var newMap := RewriteTargets(m, source, target);
      var finalMap := RewriteDeps(newMap, source, target);
      forall n | n in finalMap ensures exists k | k in m ::
        Rewrite(k, source, target) == n && finalMap[n].deps == UnifiedDeps(m[k].deps, source, target)
      {
        var k :| k in m && Rewrite(k, source, target) == n && newMap[n].deps == m[k].deps;
      }
      forall n | n in finalMap && finalMap[n].action.Some? ensures exists k | k in m ::
        Rewrite(k, source, target) == n && m[k].action == finalMap[n].action
      {
        assert ActionOrigin(m, m.Keys, newMap[n], n, source, target);
      }
      rules := finalMap;
    }
  }

  /** The first half of RuleSet.unify: each rule is filed under its
      rewritten target; when two land on the same target, the one filed
      first absorbs the other through catenate_and_merge. */
  method RewriteTargets(m: map<Label, Rule>, source: Label, target: Label) returns (newMap: map<Label, Rule>)
    ensures Keyed(newMap)
    ensures newMap.Keys == set k | k in m :: Rewrite(k, source, target)
    ensures forall n | n in newMap :: Origin(m, m.Keys, newMap[n], n, source, target)
    ensures forall n | n in newMap :: ActionOrigin(m, m.Keys, newMap[n], n, source, target)
  {
    newMap := map[];
    var done: set<Label> := {};
    var todo := m.Keys;
    while todo != {}
      invariant done !! todo && done + todo == m.Keys
      invariant Keyed(newMap)
      invariant newMap.Keys == set k | k in done :: Rewrite(k, source, target)
      invariant forall n | n in newMap :: Origin(m, done, newMap[n], n, source, target)
      invariant forall n | n in newMap :: ActionOrigin(m, done, newMap[n], n, source, target)
    {
      var k :| k in todo;
      var nk := Rewrite(k, source, target);
      var nv := m[k].(target := nk);
      ghost var prevMap := newMap;
      if nk in newMap {
        var merged := CatenateAndMerge(newMap[nk], nv, false, true);
        ActionMerged(m, done, k, newMap[nk], merged.value, nk, source, target);
        newMap := newMap[nk := merged.value];
      } else {
        ActionFresh(m, done, k, nv, nk, source, target);
        newMap := newMap[nk := nv];
        assert Origin(m, done + {k}, newMap[nk], nk, source, target);
      }
      forall n | n in newMap ensures Origin(m, done + {k}, newMap[n], n, source, target) {
        if n in prevMap {
          OriginGrows(m, done, k, prevMap[n], n, source, target);
        }
      }
      forall n | n in newMap && n != nk ensures ActionOrigin(m, done + {k}, newMap[n], n, source, target) {
        ActionGrows(m, done, k, newMap[n], n, source, target);
      }
      RewrittenKeys(done, k, source, target);
      done := done + {k};
      todo := todo - {k};
    }
  }

  lemma RewrittenKeys(done: set<Label>, k: Label, source: Label, target: Label)
    ensures (set j | j in done + {k} :: Rewrite(j, source, target)) ==
            (set j | j in done :: Rewrite(j, source, target)) + {Rewrite(k, source, target)}
  {
  }

  /** The second half of RuleSet.unify: every rule's dependencies are
      rewritten. */
  method RewriteDeps(m: map<Label, Rule>, source: Label, target: Label) returns (finalMap: map<Label, Rule>)
    requires Keyed(m)
    ensures Keyed(finalMap) && finalMap.Keys == m.Keys
    ensures forall n | n in m :: finalMap[n] == m[n].(deps := UnifiedDeps(m[n].deps, source, target))
  {
    finalMap := m;
    var todo := m.Keys;
    while todo != {}
      invariant todo <= m.Keys && finalMap.Keys == m.Keys
      invariant Keyed(finalMap)
      invariant forall n | n in m.Keys - todo :: finalMap[n] == m[n].(deps := UnifiedDeps(m[n].deps, source, target))
      invariant forall n | n in todo :: finalMap[n] == m[n]
    {
      var n :| n in todo;
      var u := UnifyDependencies(finalMap[n], source, target);
      finalMap := finalMap[n := u];
      todo := todo - {n};
    }
  }

  /** Rule `v` for new target `n` came from an old target `k` in `done`,
      keeping that rule's dependencies. */
  ghost predicate Origin(prev: map<Label, Rule>, done: set<Label>, v: Rule, n: Label, source: Label, target: Label) {
    exists k | k in done && k in prev :: Rewrite(k, source, target) == n && v.deps == prev[k].deps
  }

  lemma OriginGrows(prev: map<Label, Rule>, done: set<Label>, extra: Label, v: Rule, n: Label, source: Label, target: Label)
    requires Origin(prev, done, v, n, source, target)
    ensures Origin(prev, done + {extra}, v, n, source, target)
  {
    var k :| k in done && k in prev && Rewrite(k, source, target) == n && v.deps == prev[k].deps;
    assert k in done + {extra};
  }

  /** No old rule whose target is in `done` and rewrites to `n` has an action. */
  ghost predicate NoActionFrom(prev: map<Label, Rule>, done: set<Label>, n: Label, source: Label, target: Label) {
    forall k | k in done && k in prev && Rewrite(k, source, target) == n :: prev[k].action.None?
  }

  /** Rule `v` for new target `n` has an action exactly when some old rule
      rewritten to `n` had one, and then it is one of theirs. */
  ghost predicate ActionOrigin(prev: map<Label, Rule>, done: set<Label>, v: Rule, n: Label, source: Label, target: Label) {
    && (v.action.None? <==> NoActionFrom(prev, done, n, source, target))
    && (v.action.Some? ==> exists k | k in done && k in prev ::
          Rewrite(k, source, target) == n && prev[k].action == v.action)
  }

  /** An old target rewritten elsewhere does not change where n's action came from. */
  lemma ActionGrows(prev: map<Label, Rule>, done: set<Label>, extra: Label, v: Rule, n: Label, source: Label, target: Label)
    requires ActionOrigin(prev, done, v, n, source, target)
    requires Rewrite(extra, source, target) != n
    ensures ActionOrigin(prev, done + {extra}, v, n, source, target)
  {
    if v.action.Some? {
      var k :| k in done && k in prev && Rewrite(k, source, target) == n && prev[k].action == v.action;
      assert k in done + {extra};
    }
  }

  /** The first old rule rewritten to `n` brings its own action. */
  lemma ActionFresh(prev: map<Label, Rule>, done: set<Label>, k: Label, v: Rule, n: Label, source: Label, target: Label)
    requires k in prev && Rewrite(k, source, target) == n && v.action == prev[k].action
    requires n !in set j | j in done :: Rewrite(j, source, target)
    ensures ActionOrigin(prev, done + {k}, v, n, source, target)
  {
    forall j | j in done ensures Rewrite(j, source, target) != n {
      assert Rewrite(j, source, target) in set i | i in done :: Rewrite(i, source, target);
    }
    if v.action.Some? {
      assert k in done + {k};
    }
  }

  /** A later old rule rewritten to `n` replaces the action when it has one. */
  lemma ActionMerged(prev: map<Label, Rule>, done: set<Label>, k: Label, v: Rule, merged: Rule, n: Label, source: Label, target: Label)
    requires k in prev && Rewrite(k, source, target) == n
    requires ActionOrigin(prev, done, v, n, source, target)
    requires merged.action == if prev[k].action.Some? then prev[k].action else v.action
    ensures ActionOrigin(prev, done + {k}, merged, n, source, target)
  {
    if prev[k].action.Some? {
      assert k in done + {k};
    } else if v.action.Some? {
      var j :| j in done && j in prev && Rewrite(j, source, target) == n && prev[j].action == v.action;
      assert j in done + {k};
    }
  }
}
