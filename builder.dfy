// The Builder of muddled/mechanics.py: the state a build works on (its
// rules, per-label environments, role bans, default roles, unifications
// and the tags recording what is built) and the operations that update it
// in place.

module Building {
  import opened Wrappers
  import opened Labels
  import opened LabelMatching
  import opened Vocabulary
  import opened Rules
  import opened Scheduler
  import opened Requirements

  /** An environment store: variables and their values. Only setting and
      merging are modelled (see env_store, which is not part of this
      model). */
  class EnvStore {
    var vars: map<string, string>

    constructor ()
      ensures vars == map[]
    {
      vars := map[];
    }

    method Set(name: string, value: string)
      modifies this
      ensures vars == old(vars)[name := value]
    {
      vars := vars[name := value];
    }

    /** Store.merge: the other store's settings win. */
    method Merge(other: EnvStore)
      modifies this
      ensures vars == old(vars) + old(other.vars)
    {
      vars := vars + other.vars;
    }
  }

  /** One entry of list_environments_for: match level, key, store. */
  datatype Entry = Entry(level: int, key: Label, store: EnvStore)

  predicate LevelSorted(es: seq<Entry>) {
    forall i, j | 0 <= i < j < |es| :: es[i].level <= es[j].level
  }

  function KeysOf(es: seq<Entry>): set<Label> {
    set e | e in es :: e.key
  }

  /** The sort of list_environments_for, one entry at a time: an entry goes
      after every entry whose level is not above its own. */
  function InsertByLevel(es: seq<Entry>, e: Entry): (r: seq<Entry>)
    ensures multiset(r) == multiset(es) + multiset{e}
  {
    if es == [] || es[|es| - 1].level <= e.level then es + [e]
    else
      assert es == es[..|es| - 1] + [es[|es| - 1]];
      InsertByLevel(es[..|es| - 1], e) + [es[|es| - 1]]
  }

  /** Inserting keeps the entries sorted by level. */
  lemma {:induction false} InsertSorted(es: seq<Entry>, e: Entry)
    requires LevelSorted(es)
    ensures LevelSorted(InsertByLevel(es, e))
    decreases |es|
  {
    if !(es == [] || es[|es| - 1].level <= e.level) {
      var init, last := es[..|es| - 1], es[|es| - 1];
      InsertSorted(init, e);
      var front := InsertByLevel(init, e);
      forall x | x in front ensures x.level <= last.level {
        assert x in multiset(front);
        if x != e {
          assert x in multiset(init);
          var k :| 0 <= k < |init| && init[k] == x;
          assert es[k] == x;
        }
      }
      var r := front + [last];
      forall i, j | 0 <= i < j < |r| ensures r[i].level <= r[j].level {
        if j == |r| - 1 {
          assert r[i] in front;
        } else {
          assert r[i] == front[i] && r[j] == front[j];
        }
      }
    }
  }

  /** What an insertion holds: the old entries and the new one. */
  lemma InsertedKeys(es: seq<Entry>, e: Entry, r: seq<Entry>)
    requires multiset(r) == multiset(es) + multiset{e}
    ensures forall x | x in r :: x in es || x == e
    ensures KeysOf(r) == KeysOf(es) + {e.key}
  {
    assert forall x :: x in r <==> x in multiset(r);
    assert forall x :: x in es <==> x in multiset(es);
  }

  // ---------------------------------------------------------------------
  // Environment overlay

  /** An entry as list_environments_for makes it: a key of `env` matching
      `l` at the entry's level, with its store. */
  predicate Fits(env: map<Label, EnvStore>, l: Label, e: Entry) {
    e.key in env && e.store == env[e.key] && Match(e.key, l) == Some(e.level)
  }

  /** `k` is an environment key matching `l` whose store sets `x`. */
  predicate Provides(vs: map<Label, map<string, string>>, l: Label, k: Label, x: string) {
    k in vs && Match(k, l).Some? && x in vs[k]
  }

  /** No key providing `x` matches `l` more closely than `k`. */
  ghost predicate MostSpecific(vs: map<Label, map<string, string>>, l: Label, k: Label, x: string)
    requires Provides(vs, l, k, x)
  {
    forall k' | Provides(vs, l, k', x) :: Match(k', l).value <= Match(k, l).value
  }

  /** What effective_environment_for promises: a variable is set when some
      matching environment sets it, and its value comes from a matching
      environment that is as specific as any that sets it. */
  ghost predicate EffectiveFor(vs: map<Label, map<string, string>>, l: Label, out: map<string, string>) {
    && (forall x | x in out :: exists k :: Provides(vs, l, k, x) && out[x] == vs[k][x] && MostSpecific(vs, l, k, x))
    && (forall k, x | Provides(vs, l, k, x) :: x in out)
  }

  /** Entries that fit the environments of `env` and cover every key
      matching `l` are what OverlayIsEffective and MergeEntries expect. */
  lemma FitsAsEntries(env: map<Label, EnvStore>, vs: map<Label, map<string, string>>, l: Label, es: seq<Entry>)
    requires forall e | e in es :: Fits(env, l, e)
    requires KeysOf(es) == set k | k in env && Match(k, l).Some?
    requires vs == map k | k in env :: env[k].vars
    ensures forall i | 0 <= i < |es| :: es[i].key in vs && es[i].store.vars == vs[es[i].key]
    ensures forall i | 0 <= i < |es| :: Match(es[i].key, l) == Some(es[i].level)
    ensures forall k | k in vs && Match(k, l).Some? :: k in KeysOf(es)
  {
    forall i | 0 <= i < |es| ensures es[i].key in vs && es[i].store.vars == vs[es[i].key] && Match(es[i].key, l) == Some(es[i].level) {
      assert Fits(env, l, es[i]);
    }
    forall k | k in vs && Match(k, l).Some? ensures k in KeysOf(es) {
      assert k in env;
    }
  }

  /** The merge of the stores of `es` in turn, later ones winning. */
  function Overlay(vs: map<Label, map<string, string>>, es: seq<Entry>): map<string, string>
    requires forall e | e in es :: e.key in vs
  {
    if es == [] then map[] else Overlay(vs, es[..|es| - 1]) + vs[es[|es| - 1].key]
  }

  /** The position of the last entry of `es` whose store sets `x`, or -1. */
  function LastSetter(vs: map<Label, map<string, string>>, es: seq<Entry>, x: string): (i: int)
    requires forall e | e in es :: e.key in vs
    ensures -1 <= i < |es|
    ensures i >= 0 ==> x in vs[es[i].key]
    ensures forall j | i < j < |es| :: x !in vs[es[j].key]
  {
    if es == [] then -1
    else if x in vs[es[|es| - 1].key] then |es| - 1
    else
      var init := es[..|es| - 1];
      assert forall e | e in init :: e in es;
      var i := LastSetter(vs, init, x);
      assert forall j | i < j < |init| :: init[j] == es[j];
      i
  }

  /** A variable of the overlay is set by the last entry setting it. */
  lemma {:induction false} OverlayLast(vs: map<Label, map<string, string>>, es: seq<Entry>, x: string)
    requires forall e | e in es :: e.key in vs
    ensures x in Overlay(vs, es) <==> LastSetter(vs, es, x) >= 0
    ensures x in Overlay(vs, es) ==> Overlay(vs, es)[x] == vs[es[LastSetter(vs, es, x)].key][x]
    decreases |es|
  {
    if es != [] {
      var init := es[..|es| - 1];
      assert forall e | e in init :: e in es;
      OverlayLast(vs, init, x);
      var i := LastSetter(vs, init, x);
      if i >= 0 {
        assert init[i] == es[i];
      }
    }
  }

  /** Merging the environments matching `l`, sorted by level, gives the
      effective environment: the most specific setting of each variable
      wins. */
  lemma OverlayIsEffective(vs: map<Label, map<string, string>>, l: Label, es: seq<Entry>)
    requires forall i | 0 <= i < |es| :: es[i].key in vs && Match(es[i].key, l) == Some(es[i].level)
    requires forall k | k in vs && Match(k, l).Some? :: k in KeysOf(es)
    requires LevelSorted(es)
    ensures EffectiveFor(vs, l, Overlay(vs, es))
  {
    var out := Overlay(vs, es);
    assert forall e | e in es :: e.key in vs;
    forall x | x in out
      ensures exists k :: Provides(vs, l, k, x) && out[x] == vs[k][x] && MostSpecific(vs, l, k, x)
    {
      var k := LastSetterWins(vs, l, es, x);
    }
    forall k, x | Provides(vs, l, k, x) ensures x in out {
      OverlayLast(vs, es, x);
      var j := IndexOfKey(es, k);
      assert x in vs[es[j].key];
    }
  }

  /** The entry that sets a variable of the overlay last is the most
      specific one setting it. */
  lemma LastSetterWins(vs: map<Label, map<string, string>>, l: Label, es: seq<Entry>, x: string) returns (k: Label)
    requires forall i | 0 <= i < |es| :: es[i].key in vs && Match(es[i].key, l) == Some(es[i].level)
    requires forall k | k in vs && Match(k, l).Some? :: k in KeysOf(es)
    requires LevelSorted(es)
    requires forall e | e in es :: e.key in vs
    requires x in Overlay(vs, es)
    ensures Provides(vs, l, k, x) && Overlay(vs, es)[x] == vs[k][x] && MostSpecific(vs, l, k, x)
  {
    OverlayLast(vs, es, x);
    var i := LastSetter(vs, es, x);
    k := es[i].key;
    forall k' | Provides(vs, l, k', x) ensures Match(k', l).value <= Match(k, l).value {
      var j := IndexOfKey(es, k');
      assert x in vs[es[j].key];
    }
  }

  /** A position of the key `k` in the entries. */
  function IndexOfKey(es: seq<Entry>, k: Label): (j: nat)
    requires k in KeysOf(es)
    ensures j < |es| && es[j].key == k
  {
    if es[0].key == k then 0
    else
      assert k in KeysOf(es[1..]) by {
        var e :| e in es && e.key == k;
        assert e in es[1..];
      }
      IndexOfKey(es[1..], k) + 1
  }

  /** When one matching environment is strictly the most specific among
      those setting `x`, its value is the effective one. */
  lemma MostSpecificWins(vs: map<Label, map<string, string>>, l: Label, out: map<string, string>, k: Label, x: string)
    requires EffectiveFor(vs, l, out) && Provides(vs, l, k, x)
    requires forall k' | Provides(vs, l, k', x) && k' != k :: Match(k', l).value < Match(k, l).value
    ensures x in out && out[x] == vs[k][x]
  {
    var k' :| Provides(vs, l, k', x) && out[x] == vs[k'][x] && MostSpecific(vs, l, k', x);
    assert Match(k, l).value <= Match(k', l).value;
  }

  // ---------------------------------------------------------------------
  // Role bans

  /** A banned_roles entry (role1, domain1, role2, domain2). */
  datatype Ban = Ban(role1: Option<string>, domain1: Option<string>, role2: Option<string>, domain2: Option<string>)

  const AnyPart: Option<string> := Some("*")

  /** An entry field that is '*' or equal to the value. */
  predicate StarOr(field: Option<string>, v: Option<string>) { field == AnyPart || field == v }

  /** Whether one entry refuses roles r1 and r2 (in domains d1 and d2) to
      share libraries: a role with itself only by an exact entry; otherwise
      with '*' matching anything, with the roles in either order. */
  predicate Bans(b: Ban, r1: Option<string>, r2: Option<string>, d1: Option<string>, d2: Option<string>) {
    if r1 == r2 then b == Ban(r1, d1, r2, d2)
    else
      && StarOr(b.domain1, d1) && StarOr(b.domain2, d2)
      && ((StarOr(b.role1, r1) && StarOr(b.role2, r2)) || (StarOr(b.role1, r2) && StarOr(b.role2, r1)))
  }

  /** An entry as include_domain copies it from a subdomain: an unset
      first domain becomes the subdomain, an unset second domain becomes
      '*'. */
  function IncludeBan(b: Ban, name: string): Ban {
    Ban(b.role1, if b.domain1.None? then Some(name) else b.domain1,
        b.role2, if b.domain2.None? then AnyPart else b.domain2)
  }

  /** A ban between two different roles refuses them in either order. */
  lemma BanBothWays(a: Option<string>, b: Option<string>, d1: Option<string>, d2: Option<string>)
    requires a != b
    ensures Bans(Ban(a, d1, b, d2), a, b, d1, d2) && Bans(Ban(a, d1, b, d2), b, a, d1, d2)
  {
  }

  /** A role may always share with itself unless an exact entry says
      otherwise, whatever wildcard entries there are. */
  lemma SelfUnlessExact(b: Ban, r: Option<string>, d1: Option<string>, d2: Option<string>)
    ensures Bans(b, r, r, d1, d2) <==> b == Ban(r, d1, r, d2)
  {
  }

  /** A ban the subdomain made between two of its own roles holds, once
      included, for those roles in the subdomain against any domain. */
  lemma IncludedBanApplies(b: Ban, name: string, d2: Option<string>)
    requires b.domain1.None? && b.domain2.None? && b.role1 != b.role2
    ensures Bans(IncludeBan(b, name), b.role1, b.role2, Some(name), d2)
    ensures Bans(IncludeBan(b, name), b.role2, b.role1, Some(name), d2)
  {
  }

  /** Outside the subdomain, such a ban does not hold. */
  lemma IncludedBanStaysInDomain(b: Ban, name: string, r1: Option<string>, r2: Option<string>, d1: Option<string>, d2: Option<string>)
    requires b.domain1.None? && d1 != Some(name) && name != "*" && r1 != r2
    ensures !Bans(IncludeBan(b, name), r1, r2, d1, d2)
  {
  }

  // ---------------------------------------------------------------------
  // Unifications

  /** The result of apply_unifications. */
  function Unified(us: seq<(Label, Label)>, source: Label): Label {
    if us == [] then source
    else if Unifies(source, us[0].0) then CopyAndUnifyWith(source, us[0].1)
    else Unified(us[1..], source)
  }

  /** The first pair whose source `source` unifies with decides: the result
      is `source` unified with that pair's target, so it unifies with the
      target. */
  lemma {:induction false} UnifiedFirst(us: seq<(Label, Label)>, source: Label, i: nat)
    requires i < |us| && Unifies(source, us[i].0)
    requires forall j | 0 <= j < i :: !Unifies(source, us[j].0)
    ensures Unified(us, source) == CopyAndUnifyWith(source, us[i].1)
    ensures Unifies(Unified(us, source), us[i].1)
    decreases i
  {
    if i > 0 {
      assert !Unifies(source, us[0].0);
      assert forall j | 0 <= j < i - 1 :: us[1..][j] == us[j + 1];
      UnifiedFirst(us[1..], source, i - 1);
    } else {
      CopyUnifies(source, us[i].1);
    }
  }

  /** With no pair that applies, the label is left as it is. */
  lemma {:induction false} UnifiedNone(us: seq<(Label, Label)>, source: Label)
    requires forall j | 0 <= j < |us| :: !Unifies(source, us[j].0)
    ensures Unified(us, source) == source
    decreases |us|
  {
    if us != [] {
      assert !Unifies(source, us[0].0);
      assert forall j | 0 <= j < |us| - 1 :: us[1..][j] == us[j + 1];
      UnifiedNone(us[1..], source);
    }
  }

  // ---------------------------------------------------------------------
  // Building

  /** The targets of a rule list. */
  function Targets(list: seq<Rule>): set<Label> {
    set r | r in list :: r.target
  }

  /** The targets whose actions the build loop runs, in order: those with
      an action that are not tagged by the time the loop reaches them. */
  function Ran(list: seq<Rule>, tags: set<Label>): seq<Label>
    decreases |list|
  {
    if list == [] then []
    else
      var r := list[0];
      (if r.target !in tags && r.action.Some? then [r.target] else [])
      + Ran(list[1..], tags + {r.target})
  }

  /** The build loop never runs the action of a target that was already
      tagged, runs each target's action at most once, and runs only
      actions of the list. */
  lemma {:induction false} RanNeverRepeats(list: seq<Rule>, tags: set<Label>)
    ensures forall t | t in Ran(list, tags) :: t !in tags && t in Targets(list)
    ensures forall i, j | 0 <= i < j < |Ran(list, tags)| :: Ran(list, tags)[i] != Ran(list, tags)[j]
    decreases |list|
  {
    if list != [] {
      var r := list[0];
      var ran := if r.target !in tags && r.action.Some? then [r.target] else [];
      RanNeverRepeats(list[1..], tags + {r.target});
      var rest := Ran(list[1..], tags + {r.target});
      assert Ran(list, tags) == ran + rest;
      assert forall t | t in Targets(list[1..]) :: t in Targets(list) by {
        forall t | t in Targets(list[1..]) ensures t in Targets(list) {
          var x :| x in list[1..] && x.target == t;
          assert x in list;
        }
      }
    }
  }

  /** Every target with an action that is untagged when the loop begins,
      and whose first rule in the list is that one, has its action run. */
  lemma {:induction false} RanCoversUntagged(list: seq<Rule>, tags: set<Label>, k: nat)
    requires k < |list| && list[k].action.Some?
    requires forall j | 0 <= j < k :: list[j].target != list[k].target
    requires list[k].target !in tags
    ensures list[k].target in Ran(list, tags)
    decreases k
  {
    if k > 0 {
      assert list[0].target != list[k].target;
      assert forall j | 0 <= j < k - 1 :: list[1..][j] == list[j + 1];
      RanCoversUntagged(list[1..], tags + {list[0].target}, k - 1);
    }
  }

  /** The loop of build_label over the tags and the actions run so far:
      the new tags, the new list of actions run, and how the loop ended. */
  method RunList(list: seq<Rule>, tags: set<Label>, performed: seq<Label>, failing: map<Label, Error>)
    returns (built: set<Label>, ran: seq<Label>, o: Outcome)
    ensures var k := FailAt(list, tags, failing, 0);
      && (o.Pass? <==> k == |list|)
      && (o.Fail? ==> k < |list| && o.error == failing[list[k].target])
      && built == tags + Targets(list[..k])
      && ran == performed + Ran(list[..k], tags) + (if k < |list| then [list[k].target] else [])
  {
    built, ran := tags, performed;
    var i := 0;
    while i < |list|
      invariant 0 <= i <= |list|
      invariant built == tags + Targets(list[..i])
      invariant ran == performed + Ran(list[..i], tags)
      invariant FailAt(list, tags, failing, 0) == FailAt(list, tags, failing, i)
    {
      var rule := list[i];
      TargetsSnoc(list, i);
      RanSnoc(list, tags, i);
      if rule.target !in built {
        if rule.action.Some? {
          ran := ran + [rule.target];
          if rule.target in failing {
            assert FailsAt(list, tags, failing, i);
            return built, ran, Fail(failing[rule.target]);
          }
        }
      }
      built := built + {rule.target};
      i := i + 1;
    }
    assert list[..i] == list;
    return built, ran, Pass;
  }

  /** The rule at position i fails: its target is untagged when the loop
      reaches it, it has an action, and that action raises. */
  predicate FailsAt(list: seq<Rule>, tags: set<Label>, failing: map<Label, Error>, i: nat)
    requires i < |list|
  {
    list[i].target !in tags + Targets(list[..i]) && list[i].action.Some? && list[i].target in failing
  }

  /** The position of the first failing rule at or after `from`, or |list|
      when none fails. */
  function FailAt(list: seq<Rule>, tags: set<Label>, failing: map<Label, Error>, from: nat): (k: nat)
    ensures from <= |list| ==> from <= k <= |list|
    ensures k < |list| ==> FailsAt(list, tags, failing, k)
    decreases |list| - from
  {
    if from >= |list| then |list|
    else if FailsAt(list, tags, failing, from) then from
    else FailAt(list, tags, failing, from + 1)
  }

  /** No rule before the first failure fails, and the failing target is left
      untagged by the rules before it. */
  lemma {:induction false} FailAtFirst(list: seq<Rule>, tags: set<Label>, failing: map<Label, Error>, from: nat, j: nat)
    requires from <= j < FailAt(list, tags, failing, from)
    ensures !FailsAt(list, tags, failing, j)
    decreases |list| - from
  {
    if j > from {
      FailAtFirst(list, tags, failing, from + 1, j);
    }
  }

  /** With no failing action among the targets, the whole list is run. */
  lemma {:induction false} NoFailureRunsAll(list: seq<Rule>, tags: set<Label>, failing: map<Label, Error>, from: nat)
    requires from <= |list|
    requires forall r | r in list :: r.target !in failing
    ensures FailAt(list, tags, failing, from) == |list|
    decreases |list| - from
  {
    if from < |list| {
      assert list[from] in list;
      NoFailureRunsAll(list, tags, failing, from + 1);
    }
  }

  /** Ran over one rule more. */
  lemma {:induction false} RanSnoc(list: seq<Rule>, tags: set<Label>, i: nat)
    requires i < |list|
    ensures Ran(list[..i + 1], tags) == Ran(list[..i], tags) +
      (if list[i].target !in tags + Targets(list[..i]) && list[i].action.Some? then [list[i].target] else [])
    decreases i
  {
    var r := list[0];
    if i == 0 {
      assert list[..1] == [r] && list[..1][1..] == [];
      assert Targets(list[..0]) == {};
    } else {
      var rest := list[1..];
      assert list[..i + 1][0] == r && list[..i + 1][1..] == rest[..i];
      assert list[..i][0] == r && list[..i][1..] == rest[..i - 1];
      RanSnoc(rest, tags + {r.target}, i - 1);
      assert rest[i - 1] == list[i];
      TargetsCons(list, i);
    }
  }

  lemma TargetsCons(list: seq<Rule>, i: nat)
    requires 0 < i <= |list|
    ensures Targets(list[..i]) == {list[0].target} + Targets(list[1..][..i - 1])
  {
    assert list[..i] == [list[0]] + list[1..][..i - 1];
  }

  lemma TargetsSnoc(list: seq<Rule>, i: nat)
    requires i < |list|
    ensures Targets(list[..i + 1]) == Targets(list[..i]) + {list[i].target}
  {
    assert list[..i + 1] == list[..i] + [list[i]];
    assert forall r | r in list[..i + 1] :: r in list[..i] || r == list[i];
  }

  // ---------------------------------------------------------------------
  // The builder

  class Builder {
    var rules: RuleSet
    var env: map<Label, EnvStore>
    var defaultRoles: seq<string>
    var defaultDeployments: seq<Label>
    var bannedRoles: seq<Ban>
    var unifications: seq<(Label, Label)>
    /** The labels whose tags are set: what is built. */
    var tags: set<Label>
    /** The targets whose actions ran, in order. */
    var performed: seq<Label>

    ghost predicate Valid()
      reads this, rules
    {
      rules.Valid()
    }

    constructor ()
      ensures Valid() && fresh(rules) && rules.rules == map[]
      ensures env == map[] && defaultRoles == [] && defaultDeployments == []
      ensures bannedRoles == [] && unifications == [] && tags == {} && performed == []
    {
      rules := new RuleSet();
      env := map[];
      defaultRoles := [];
      defaultDeployments := [];
      bannedRoles := [];
      unifications := [];
      tags := {};
      performed := [];
    }

    /** The variables of every environment, by key. */
    ghost function EnvVars(): map<Label, map<string, string>>
      reads this, env.Values
    {
      map k | k in env :: env[k].vars
    }

    /** get_environment_for: the store for `l`, made and filed on first
        use; later calls return that same store. */
    method GetEnvironmentFor(l: Label) returns (s: EnvStore)
      modifies this
      ensures l in env && env[l] == s
      ensures l in old(env) ==> s == old(env)[l] && env == old(env)
      ensures l !in old(env) ==> fresh(s) && s.vars == map[] && env == old(env)[l := s]
      ensures unchanged(`rules, `defaultRoles, `defaultDeployments, `bannedRoles, `unifications, `tags, `performed)
    {
      if l in env {
        return env[l];
      }
      s := new EnvStore();
      env := env[l := s];
    }

    /** list_environments_for: every environment whose key matches `l`,
        by non-decreasing match level, so the most wildcarded come first. */
    method ListEnvironmentsFor(l: Label) returns (es: seq<Entry>)
      ensures forall e | e in es :: Fits(env, l, e)
      ensures KeysOf(es) == set k | k in env && Match(k, l).Some?
      ensures LevelSorted(es)
    {
      var stores := env;
      es := [];
      var todo := stores.Keys;
      while todo != {}
        invariant todo <= stores.Keys
        invariant forall e | e in es :: Fits(stores, l, e)
        invariant KeysOf(es) == set k | k in stores.Keys - todo && Match(k, l).Some?
        invariant LevelSorted(es)
        decreases |todo|
      {
        var k :| k in todo;
        var m := Match(k, l);
        if m.Some? {
          var e := Entry(m.value, k, stores[k]);
          InsertSorted(es, e);
          InsertedKeys(es, e, InsertByLevel(es, e));
          es := InsertByLevel(es, e);
        }
        todo := todo - {k};
      }
    }

    /** effective_environment_for: a new store holding the merge of the
        matching environments in list order, which is the environment
        EffectiveFor describes. */
    method EffectiveEnvironmentFor(l: Label) returns (s: EnvStore)
      ensures fresh(s)
      ensures EffectiveFor(EnvVars(), l, s.vars)
    {
      var es := ListEnvironmentsFor(l);
      ghost var vs := EnvVars();
      FitsAsEntries(env, vs, l, es);
      s := MergeEntries(es, vs);
      assert EnvVars() == vs;
      OverlayIsEffective(vs, l, es);
    }

    /** add_default_role: a role not yet present is appended once and the
        answer is true; a present one changes nothing and the answer is
        false. */
    method AddDefaultRole(role: string) returns (added: bool)
      modifies this
      ensures added <==> role !in old(defaultRoles)
      ensures defaultRoles == if added then old(defaultRoles) + [role] else old(defaultRoles)
      ensures role in defaultRoles
      ensures unchanged(`rules, `env, `defaultDeployments, `bannedRoles, `unifications, `tags, `performed)
    {
      if role in defaultRoles {
        return false;
      }
      defaultRoles := defaultRoles + [role];
      return true;
    }

    /** add_default_deployment_label: only deployments are accepted. */
    method AddDefaultDeploymentLabel(l: Label) returns (o: Outcome)
      modifies this
      ensures o.Pass? <==> l.ty == Deployment
      ensures o.Fail? ==> o.error.MuddleBug?
      ensures defaultDeployments == if o.Pass? then old(defaultDeployments) + [l] else old(defaultDeployments)
      ensures unchanged(`rules, `env, `defaultRoles, `bannedRoles, `unifications, `tags, `performed)
    {
      if l.ty != Deployment {
        return Fail(MuddleBug("Attempt to add a non-deployment label to default deployments"));
      }
      defaultDeployments := defaultDeployments + [l];
      return Pass;
    }

    /** roles_do_not_share_libraries: one more ban. */
    method RolesDoNotShareLibraries(r1: Option<string>, r2: Option<string>, d1: Option<string>, d2: Option<string>)
      modifies this
      ensures bannedRoles == old(bannedRoles) + [Ban(r1, d1, r2, d2)]
      ensures unchanged(`rules, `env, `defaultRoles, `defaultDeployments, `unifications, `tags, `performed)
    {
      bannedRoles := bannedRoles + [Ban(r1, d1, r2, d2)];
    }

    /** The ban part of include_domain: the subdomain's bans, with their
        unset domains filled in, follow ours, in their order. */
    method IncludeDomainBans(theirs: seq<Ban>, name: string)
      modifies this
      ensures |bannedRoles| == |old(bannedRoles)| + |theirs|
      ensures bannedRoles[..|old(bannedRoles)|] == old(bannedRoles)
      ensures forall i | 0 <= i < |theirs| :: bannedRoles[|old(bannedRoles)| + i] == IncludeBan(theirs[i], name)
      ensures unchanged(`rules, `env, `defaultRoles, `defaultDeployments, `unifications, `tags, `performed)
    {
      var i := 0;
      ghost var n := |bannedRoles|;
      while i < |theirs|
        invariant 0 <= i <= |theirs| && |bannedRoles| == n + i
        invariant bannedRoles[..n] == old(bannedRoles)
        invariant forall j | 0 <= j < i :: bannedRoles[n + j] == IncludeBan(theirs[j], name)
        invariant unchanged(`rules, `env, `defaultRoles, `defaultDeployments, `unifications, `tags, `performed)
      {
        var b := theirs[i];
        var d1 := if b.domain1.None? then Some(name) else b.domain1;
        var d2 := if b.domain2.None? then AnyPart else b.domain2;
        bannedRoles := bannedRoles + [Ban(b.role1, d1, b.role2, d2)];
        i := i + 1;
      }
    }

    /** role_combination_acceptable_for_lib: true exactly when no entry
        bans the combination. */
    method RoleCombinationAcceptable(r1: Option<string>, r2: Option<string>, d1: Option<string>, d2: Option<string>)
      returns (ok: bool)
      ensures ok <==> forall i | 0 <= i < |bannedRoles| :: !Bans(bannedRoles[i], r1, r2, d1, d2)
    {
      var i := 0;
      while i < |bannedRoles|
        invariant 0 <= i <= |bannedRoles|
        invariant forall j | 0 <= j < i :: !Bans(bannedRoles[j], r1, r2, d1, d2)
      {
        var b := bannedRoles[i];
        if r1 == r2 {
          if b.role1 == r1 && b.role2 == r2 && b.domain1 == d1 && b.domain2 == d2 {
            return false;
          }
        } else {
          var a := if b.role1 == AnyPart then r1 else b.role1;
          var c := if b.role2 == AnyPart then r2 else b.role2;
          var e1 := if b.domain1 == AnyPart then d1 else b.domain1;
          var e2 := if b.domain2 == AnyPart then d2 else b.domain2;
          var a' := if b.role1 == AnyPart then r2 else b.role1;
          var c' := if b.role2 == AnyPart then r1 else b.role2;
          if (a == r1 && c == r2 && e1 == d1 && e2 == d2) || (a' == r2 && c' == r1 && e1 == d1 && e2 == d2) {
            return false;
          }
        }
        i := i + 1;
      }
      return true;
    }

    /** note_unification */
    method NoteUnification(source: Label, target: Label)
      modifies this
      ensures unifications == old(unifications) + [(source, target)]
      ensures unchanged(`rules, `env, `defaultRoles, `defaultDeployments, `bannedRoles, `tags, `performed)
    {
      unifications := unifications + [(source, target)];
    }

    /** apply_unifications: the first pair whose source `source` unifies
        with decides; no such pair leaves it alone. */
    method ApplyUnifications(source: Label) returns (r: Label)
      ensures r == Unified(unifications, source)
    {
      var i := 0;
      while i < |unifications|
        invariant 0 <= i <= |unifications|
        invariant Unified(unifications, source) == Unified(unifications[i..], source)
      {
        var (s, t) := unifications[i];
        assert unifications[i..][0] == unifications[i];
        if Unifies(source, s) {
          return CopyAndUnifyWith(source, t);
        }
        assert unifications[i..][1..] == unifications[i + 1..];
        i := i + 1;
      }
      return source;
    }

    /** map_unifications: apply_unifications to each label in turn. */
    method MapUnifications(sources: seq<Label>) returns (r: seq<Label>)
      ensures |r| == |sources| && forall i | 0 <= i < |r| :: r[i] == Unified(unifications, sources[i])
    {
      r := [];
      var i := 0;
      while i < |sources|
        invariant 0 <= i <= |sources| && |r| == i
        invariant forall j | 0 <= j < i :: r[j] == Unified(unifications, sources[j])
      {
        var u := ApplyUnifications(sources[i]);
        r := r + [u];
        i := i + 1;
      }
    }

    /** The loop of build_label: each target not yet tagged has its action
        run, and is then tagged. An action can fail: `failing` maps the
        targets whose actions raise to the error raised. The error leaves
        the loop before set_tag, so the targets before it stay tagged, the
        failing one is not, and nothing after it is looked at. */
    method RunRules(list: seq<Rule>, failing: map<Label, Error>) returns (o: Outcome)
      modifies this
      ensures var k := FailAt(list, old(tags), failing, 0);
        && (o.Pass? <==> k == |list|)
        && (o.Fail? ==> k < |list| && o.error == failing[list[k].target])
        && tags == old(tags) + Targets(list[..k])
        && performed == old(performed) + Ran(list[..k], old(tags)) + (if k < |list| then [list[k].target] else [])
      ensures unchanged(`rules, `env, `defaultRoles, `defaultDeployments, `bannedRoles, `unifications)
    {
      var built, ran;
      built, ran, o := RunList(list, tags, performed, failing);
      tags, performed := built, ran;
    }

    /** build_label: the rules needed to build `l`, in build order, are run
        through the loop above. The list is returned as well. */
    method BuildLabel(l: Label, failing: map<Label, Error>) returns (r: Result<seq<Rule>>, o: Outcome)
      modifies this
      ensures r.Err? ==> o == Fail(r.error) && tags == old(tags) && performed == old(performed)
      ensures r.Ok? ==> Ordered(ProvidersOf(rules.rules), r.value)
      ensures r.Ok? ==> AllBuilt(ProvidersOf(rules.rules), Initial(rules.rules, [l], true), r.value)
      ensures r.Ok? ==> var k := FailAt(r.value, old(tags), failing, 0);
        && (o.Pass? <==> k == |r.value|)
        && (o.Fail? ==> k < |r.value| && o.error == failing[r.value[k].target])
        && tags == old(tags) + Targets(r.value[..k])
        && performed == old(performed) + Ran(r.value[..k], old(tags)) + (if k < |r.value| then [r.value[k].target] else [])
      ensures unchanged(`rules, `env, `defaultRoles, `defaultDeployments, `bannedRoles, `unifications)
    {
      var needed := NeededToBuildLabels(rules, [l], true, true);
      if needed.Err? {
        return needed, Fail(needed.error);
      }
      o := RunRules(needed.value, failing);
      return needed, o;
    }

    /** kill_label: the tags of every target matching `l` and of everything
        that depends on one of those, directly or not, are cleared; the
        labels cleared are returned. */
    method KillLabel(l: Label, useTags: bool) returns (cleared: set<Label>)
      requires Valid()
      modifies this
      ensures tags == old(tags) - cleared
      ensures Killed(rules.rules, l, useTags, cleared)
      ensures unchanged(`rules, `env, `defaultRoles, `defaultDeployments, `bannedRoles, `unifications, `performed)
    {
      cleared := ToKill(rules, l, useTags);
      tags := tags - cleared;
    }
  }

  /** What kill_label clears: the least set holding the targets matching
      `l` that is closed under "depends on". */
  ghost predicate Killed(m: map<Label, Rule>, l: Label, useTags: bool, cleared: set<Label>) {
    var q := DependentsOf(m, true, false);
    var wanted := TargetsOf(RulesFor(m, l, useTags, true));
    && wanted <= cleared && Closed(q, cleared)
    && forall s | wanted <= s && Closed(q, s) :: cleared <= s
  }

  /** The loop of kill_label over the rules matching `l`: each rule's
      target and everything required by it. */
  method ToKill(rs: RuleSet, l: Label, useTags: bool) returns (cleared: set<Label>)
    requires rs.Valid()
    ensures Killed(rs.rules, l, useTags, cleared)
  {
    var m := rs.rules;
    var all := rs.RulesForTarget(l, useTags, true);
    cleared := {};
    var todo := all;
    while todo != {}
      invariant todo <= all
      invariant Killing(m, all, todo, cleared)
      decreases |todo|
    {
      var r :| r in todo;
      KilledRuleIsKeyed(m, l, useTags, r);
      var required := RequiredBy(rs, r.target, true, false);
      var req := required.value;
      KillStep(m, all, todo, cleared, r, req);
      cleared := cleared + ({r.target} + req);
      todo := todo - {r};
    }
    assert all - todo == all;
  }

  /** The merge loop of effective_environment_for. */
  method MergeEntries(es: seq<Entry>, ghost vs: map<Label, map<string, string>>) returns (s: EnvStore)
    requires forall i | 0 <= i < |es| :: es[i].key in vs && es[i].store.vars == vs[es[i].key]
    ensures forall e | e in es :: e.key in vs
    ensures fresh(s) && s.vars == Overlay(vs, es)
  {
    assert forall e | e in es :: e.key in vs;
    s := new EnvStore();
    var i := 0;
    while i < |es|
      invariant 0 <= i <= |es| && fresh(s)
      invariant forall e | e in es[..i] :: e.key in vs
      invariant s.vars == Overlay(vs, es[..i])
    {
      assert es[..i + 1][..i] == es[..i];
      s.Merge(es[i].store);
      i := i + 1;
    }
    assert es[..|es|] == es;
  }

  /** The loop state of kill_label: the targets of the rules done so far
      are cleared, and what is cleared is the least closed set holding
      them. */
  ghost predicate Killing(m: map<Label, Rule>, all: set<Rule>, todo: set<Rule>, cleared: set<Label>) {
    var q := DependentsOf(m, true, false);
    && TargetsOf(all - todo) <= cleared
    && Closed(q, cleared)
    && forall s | TargetsOf(all) <= s && Closed(q, s) :: cleared <= s
  }

  lemma KillStep(m: map<Label, Rule>, all: set<Rule>, todo: set<Rule>, cleared: set<Label>, r: Rule, req: set<Label>)
    requires Killing(m, all, todo, cleared) && r in todo && todo <= all
    requires RulesFor(m, r.target, true, false) == {r}
    requires var q := DependentsOf(m, true, false);
      && TargetsOf({r}) <= req && Closed(q, req)
      && forall s | TargetsOf({r}) <= s && Closed(q, s) :: req <= s
    ensures Killing(m, all, todo - {r}, cleared + ({r.target} + req))
  {
    var q := DependentsOf(m, true, false);
    assert TargetsOf({r}) == {r.target};
    ClosedUnion(q, cleared, req);
    assert cleared + ({r.target} + req) == cleared + req;
    assert all - (todo - {r}) == (all - todo) + {r};
    TargetsOfStep(all - todo, r);
    forall s | TargetsOf(all) <= s && Closed(q, s) ensures req <= s {
      assert r.target in TargetsOf(all);
    }
  }

  /** A rule found for a label is filed under its own target, so looking
      that target up exactly finds it. */
  lemma KilledRuleIsKeyed(m: map<Label, Rule>, l: Label, useTags: bool, r: Rule)
    requires Keyed(m) && r in RulesFor(m, l, useTags, true)
    ensures r.target in m && m[r.target] == r
    ensures RulesFor(m, r.target, true, false) == {r}
  {
    var k :| k in m && JustMatch(l, k) && m[k] == r;
  }

  lemma ClosedUnion(q: Label -> set<Rule>, a: set<Label>, b: set<Label>)
    requires Closed(q, a) && Closed(q, b)
    ensures Closed(q, a + b)
  {
  }

  lemma TargetsOfStep(rs: set<Rule>, r: Rule)
    ensures TargetsOf(rs + {r}) == TargetsOf(rs) + {r.target}
  {
  }

  // ---------------------------------------------------------------------
  // Including a build as a subdomain

  /** The label sweep of _new_sub_domain: every label object gathered is
      marked, then each marked one takes the new domain, so a label object
      listed several times is moved into the domain once. A name that is
      not a valid label part is refused before anything changes. */
  method SweepLabels(labels: seq<LabelCell>, name: string) returns (o: Outcome)
    modifies set c | c in labels
    ensures o.Pass? <==> ValidPart(name)
    ensures o.Fail? ==> o.error.GiveUp? && forall c | c in labels :: c.current == old(c.current) && c.unswept == old(c.unswept)
    ensures o.Pass? ==> forall c | c in labels :: c.current == Swept(old(c.current), name) && !c.unswept
  {
    if !ValidPart(name) {
      return Fail(GiveUp("Domain name is not valid"));
    }
    MarkAll(labels);
    ChangeAll(labels, name);
    return Pass;
  }

  /** The first loop of the sweep: every label is marked. */
  method MarkAll(labels: seq<LabelCell>)
    modifies set c | c in labels
    ensures forall c | c in labels :: c.current == old(c.current) && c.unswept
  {
    var i := 0;
    while i < |labels|
      invariant 0 <= i <= |labels|
      invariant forall c | c in labels :: c.current == old(c.current)
      invariant forall j | 0 <= j < i :: labels[j].unswept
    {
      labels[i].MarkUnswept();
      i := i + 1;
    }
  }

  /** The second loop of the sweep: each marked label moves into the
      domain and is unmarked, so it moves once however often it is
      listed. */
  method ChangeAll(labels: seq<LabelCell>, name: string)
    requires forall c | c in labels :: c.unswept
    modifies set c | c in labels
    ensures forall c | c in labels :: c.current == Swept(old(c.current), name) && !c.unswept
  {
    var i := 0;
    while i < |labels|
      invariant 0 <= i <= |labels|
      invariant forall c | c in labels :: Moved(c, old(c.current), name, c in labels[..i])
    {
      labels[i].ChangeDomain(name);
      assert labels[..i + 1] == labels[..i] + [labels[i]];
      i := i + 1;
    }
    assert labels[..i] == labels;
  }

  /** A label of the sweep, moved or still waiting. */
  predicate Moved(c: LabelCell, was: Label, name: string, done: bool)
    reads c
  {
    if done then c.current == Swept(was, name) && !c.unswept else c.current == was && c.unswept
  }

  /** Labels with different identities keep them apart through the
      sweep (a domain of '' aside, which labels never hold). */
  lemma SweptInjective(a: Label, b: Label, d: string)
    requires a.domain != Some("") && b.domain != Some("")
    ensures Swept(a, d) == Swept(b, d) ==> a == b
  {
    SweptDomain(a, d);
    SweptDomain(b, d);
  }

  /** The swept domain is `d` alone or `d(old)`, and the old one can be
      read back from it. */
  lemma SweptDomain(l: Label, d: string)
    requires l.domain != Some("")
    ensures var s := Swept(l, d).domain.value;
      && |s| == (if l.domain.Some? then |d| + 2 + |l.domain.value| else |d|)
      && (l.domain.Some? ==> s[|d| + 1..|s| - 1] == l.domain.value)
  {
  }

}
