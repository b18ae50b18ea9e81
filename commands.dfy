/** The command registry of muddled/commands.py and the small decisions its
    commands make: the name of a saved stamp file, the decoding of a kernel
    version code, the expansion of a package label over the default roles,
    the switches of `stamp save`, and the build-then-kill loop. */
module Commands {
  import opened Wrappers
  import opened Text
  import opened Labels
  import LabelMatching
  import VersionStamps

  // ---------------------------------------------------------------------
  // The registry

  /** g_command_categories_in_order. */
  const CategoriesInOrder: seq<string> := ["init", "checkout", "package", "deployment", "query", "stamp", "misc", "other"]

  /** g_command_categories after in_category: a plain command is appended to
      its category's list; for a subcommand the main command is listed only
      when the category is new. */
  function Filed(cats: map<string, seq<string>>, name: string, category: string, forSubcommand: bool): map<string, seq<string>> {
    if category in cats then
      if forSubcommand then cats else cats[category := cats[category] + [name]]
    else cats[category := [name]]
  }

  /** Every key of `ks` mapped to `v`, over `m`. */
  function WithAll<V>(m: map<string, V>, ks: seq<string>, v: V): (r: map<string, V>)
    ensures r.Keys == m.Keys + set k | k in ks
  {
    m + map k | k in ks :: v
  }

  lemma WithAllStep<V>(m: map<string, V>, ks: seq<string>, v: V, i: nat)
    requires i < |ks|
    ensures WithAll(m, ks[..i + 1], v) == WithAll(m, ks[..i], v)[ks[i] := v]
  {
    assert ks[..i + 1] == ks[..i] + [ks[i]];
    assert forall k :: k in ks[..i + 1] <==> k in ks[..i] || k == ks[i];
  }

  /** The table a subcommand is filed in: a main command not yet filed as a
      command starts a new, empty table (replacing any left over);
      otherwise its existing table is used. */
  function Base(commands: map<string, Option<string>>, subs: map<string, map<string, string>>, main: string): map<string, string> {
    if main in commands && main in subs then subs[main] else map[]
  }

  /** A loop `for k in ks: m[k] = v`. */
  method AddKeys<V>(m: map<string, V>, ks: seq<string>, v: V) returns (r: map<string, V>)
    ensures r == WithAll(m, ks, v)
  {
    r := m;
    var i := 0;
    while i < |ks|
      invariant 0 <= i <= |ks|
      invariant r == WithAll(m, ks[..i], v)
    {
      WithAllStep(m, ks, v, i);
      r := r[ks[i] := v];
      i := i + 1;
    }
    assert ks[..i] == ks;
  }

  /** The registry: g_command_dict (a class, or None for a command that has
      subcommands), g_command_names, g_command_categories, g_command_aliases,
      g_subcommand_dict, g_subcommand_aliases and g_subcommand_names.
      Command classes are named by strings. */
  class Registry {
    var commands: map<string, Option<string>>
    var names: seq<string>
    var categories: map<string, seq<string>>
    var aliases: map<string, string>
    var subcommands: map<string, map<string, string>>
    var subAliases: map<string, map<string, string>>
    var subNames: seq<(string, string)>

    constructor ()
      ensures commands == map[] && names == [] && categories == map[] && aliases == map[]
      ensures subcommands == map[] && subAliases == map[] && subNames == []
    {
      commands := map[];
      names := [];
      categories := map[];
      aliases := map[];
      subcommands := map[];
      subAliases := map[];
      subNames := [];
    }

    /** in_category: only the categories of g_command_categories_in_order
        are accepted. */
    method InCategory(name: string, category: string, forSubcommand: bool) returns (o: Outcome)
      modifies this
      ensures o.Pass? <==> category in CategoriesInOrder
      ensures o.Fail? ==> o.error.GiveUp?
      ensures categories == if o.Pass? then Filed(old(categories), name, category, forSubcommand) else old(categories)
      ensures commands == old(commands) && names == old(names) && aliases == old(aliases)
      ensures subcommands == old(subcommands) && subAliases == old(subAliases) && subNames == old(subNames)
    {
      if category !in CategoriesInOrder {
        return Fail(GiveUp("Command " + name + " cannot be added to unexpected category " + category));
      }
      if forSubcommand {
        if category !in categories {
          categories := categories[category := [name]];
        }
      } else {
        if category in categories {
          categories := categories[category := categories[category] + [name]];
        } else {
          categories := categories[category := [name]];
        }
      }
      return Pass;
    }

    /** @command(name, category, aliases) applied to a class: a name already
        registered is refused and nothing changes; otherwise the name is
        listed (even when its category is then refused) and, once the
        category is accepted, the class is filed under the name and under
        every alias, and each alias is recorded as standing for the name. */
    method Command(name: string, category: string, aliasList: seq<string>, klass: string) returns (o: Outcome)
      modifies this
      ensures o.Pass? <==> name !in old(commands) && category in CategoriesInOrder
      ensures o.Fail? ==> o.error.GiveUp? && commands == old(commands) && aliases == old(aliases)
      ensures names == if name in old(commands) then old(names) else old(names) + [name]
      ensures categories == if o.Pass? then Filed(old(categories), name, category, false) else old(categories)
      ensures o.Pass? ==> commands == WithAll(old(commands)[name := Some(klass)], aliasList, Some(klass))
      ensures o.Pass? ==> aliases == WithAll(old(aliases), aliasList, name)
      ensures subcommands == old(subcommands) && subAliases == old(subAliases) && subNames == old(subNames)
    {
      if name in commands {
        return Fail(GiveUp("Command '" + name + "' is already defined"));
      }
      names := names + [name];
      o := InCategory(name, category, false);
      if o.Fail? {
        return;
      }
      commands := AddKeys(commands[name := Some(klass)], aliasList, Some(klass));
      aliases := AddKeys(aliases, aliasList, name);
    }

    /** @subcommand(main, sub, category, aliases) applied to a class: a new
        main command is filed as None with an empty subcommand table; a
        main command already filed as a plain command has no table and
        fails (KeyError); a subcommand already in the table is refused.
        Otherwise the pair is listed and, once the category is accepted, the
        class is filed under the subcommand and every alias, and each alias
        is recorded as standing for the subcommand. */
    method Subcommand(main: string, sub: string, category: string, aliasList: seq<string>, klass: string) returns (o: Outcome)
      modifies this
      ensures o.Pass? <==> (main !in old(commands) || (main in old(subcommands) && sub !in old(subcommands)[main])) && category in CategoriesInOrder
      ensures main in old(commands) && main !in old(subcommands) ==> o.Fail? && o.error.Crash?
      ensures o.Fail? && !o.error.Crash? ==> o.error.GiveUp?
      ensures names == old(names) && aliases == old(aliases)
      ensures o.Pass? ==> commands == (if main in old(commands) then old(commands) else old(commands)[main := None])
      ensures o.Pass? ==> subNames == old(subNames) + [(main, sub)]
      ensures o.Pass? ==> categories == Filed(old(categories), main, category, true)
      ensures o.Pass? ==> subcommands == old(subcommands)[main := WithAll(Base(old(commands), old(subcommands), main)[sub := klass], aliasList, klass)]
      ensures o.Pass? ==> subAliases == if aliasList == [] then old(subAliases)
                                        else old(subAliases)[main := WithAll(if main in old(subAliases) then old(subAliases)[main] else map[], aliasList, sub)]
    {
      var s0 := subcommands;
      var base: map<string, string>;
      if main !in commands {
        commands := commands[main := None];
        subcommands := subcommands[main := map[]];
        base := map[];
      } else {
        if main !in subcommands {
          return Fail(Crash("KeyError: " + main));
        }
        base := subcommands[main];
        if sub in base {
          return Fail(GiveUp("Command '" + main + " " + sub + "' is already defined"));
        }
      }
      assert base == Base(old(commands), s0, main);
      subNames := subNames + [(main, sub)];
      o := InCategory(main, category, true);
      if o.Fail? {
        return;
      }
      var table := AddKeys(base[sub := klass], aliasList, klass);
      var aliasTable := AddKeys(if main in subAliases then subAliases[main] else map[], aliasList, sub);
      subcommands := s0[main := table];
      if aliasList != [] {
        subAliases := subAliases[main := aliasTable];
      }
    }
  }

  /** As written, a main command whose category is already in use is not
      listed in it: after `help` files `query` under "query", the
      subcommands of `query` leave that list as it was. */
  lemma SubcommandMainUnlisted(cats: map<string, seq<string>>)
    requires cats == map["query" := ["help"]]
    ensures Filed(cats, "query", "query", true)["query"] == ["help"]
  {
  }

  /** A plain command is listed last in its category, and no other
      category changes. */
  lemma CommandListed(cats: map<string, seq<string>>, name: string, category: string)
    ensures var c := Filed(cats, name, category, false);
      && category in c && |c[category]| >= 1 && c[category][|c[category]| - 1] == name
      && c[category][..|c[category]| - 1] == (if category in cats then cats[category] else [])
      && forall k | k in cats && k != category :: k in c && c[k] == cats[k]
  {
  }

  // ---------------------------------------------------------------------
  // The name of a saved stamp file

  predicate AllDots(s: string) { forall i | 0 <= i < |s| :: s[i] == '.' }

  /** The last path component holds a character other than '.'. */
  predicate Stemmed(p: string) { !AllDots(p[LastIndex(p, '/') + 1..]) }

  /** os.path.splitext for POSIX paths: the extension starts at the last
      '.' of the last component, unless only dots precede it there. */
  function SplitExt(p: string): (r: (string, string))
    ensures r.0 + r.1 == p
  {
    var sep := LastIndex(p, '/');
    var dot := LastIndex(p, '.');
    if dot > sep && !AllDots(p[sep + 1..dot]) then (p[..dot], p[dot..]) else (p, "")
  }

  /** An extension is one '.' and what follows it in the last component;
      what precedes it is a stemmed path. */
  lemma SplitExtShape(p: string)
    ensures var (h, e) := SplitExt(p);
      e != "" ==> e[0] == '.' && '.' !in e[1..] && '/' !in e && Stemmed(h)
  {
    var sep := LastIndex(p, '/');
    var dot := LastIndex(p, '.');
    if dot > sep && !AllDots(p[sep + 1..dot]) {
      LastIndexPrefix(p, dot, '/');
      assert p[..dot][sep + 1..] == p[sep + 1..dot];
      assert p[dot..][1..] == p[dot + 1..];
      assert p[dot..] == p[sep + 1..][dot - sep - 1..];
    }
  }

  /** The last `c` before position n is the last one overall when none
      comes at or after n. */
  lemma {:induction false} LastIndexPrefix(p: string, n: nat, c: char)
    requires n <= |p| && LastIndex(p, c) < n
    ensures LastIndex(p[..n], c) == LastIndex(p, c)
    decreases |p|
  {
    if n < |p| {
      var q := p[..|p| - 1];
      assert p[|p| - 1] != c;
      assert q[..n] == p[..n];
      LastIndexPrefix(q, n, c);
    } else {
      assert p[..n] == p;
    }
  }

  /** A stem followed by one extension splits back into the two. */
  lemma SplitExtAppended(b: string, e: string)
    requires Stemmed(b) && |e| >= 1 && e[0] == '.' && '.' !in e[1..] && '/' !in e
    ensures SplitExt(b + e) == (b, e)
  {
    var p := b + e;
    var sep := LastIndex(b, '/');
    LastIndexAppend(b, e, '/');
    assert LastIndex(p, '/') == sep;
    assert LastIndex(b + ".", '.') == |b|;
    assert p == (b + ".") + e[1..];
    LastIndexAppend(b + ".", e[1..], '.');
    assert LastIndex(p, '.') == |b|;
    assert p[sep + 1..|b|] == b[sep + 1..];
    assert !AllDots(p[sep + 1..|b|]);
    assert p[..|b|] == b && p[|b|..] == e;
  }

  /** A basename without a `.stamp` or `.partial` extension it had. */
  function StemOf(b: string): string {
    var (head, ext) := SplitExt(b);
    if ext == ".stamp" || ext == ".partial" then head else b
  }

  /** The extension of a full or a partial stamp file. */
  function StampExtension(partial: bool): string {
    if partial then ".partial" else ".stamp"
  }

  /** decide_stamp_filename: `.partial` for a partial stamp, `.stamp`
      otherwise; with no basename the hash names the file; a basename that
      already ends in `.stamp` or `.partial` loses that extension first. */
  function DecideStampFilename(hash: string, basename: Option<string>, partial: bool): (r: string)
    ensures EndsWith(r, StampExtension(partial))
    ensures basename.None? || basename.value == "" ==> r == hash + StampExtension(partial)
  {
    if basename.None? || basename.value == "" then hash + StampExtension(partial)
    else StemOf(basename.value) + StampExtension(partial)
  }

  /** A stemmed path keeps its stem when a stamp extension is added and
      taken off again. */
  lemma StemOfStamped(stem: string, partial: bool)
    requires Stemmed(stem)
    ensures StemOf(stem + StampExtension(partial)) == stem
  {
    var e := StampExtension(partial);
    assert e[0] == '.' && '.' !in e[1..] && '/' !in e;
    SplitExtAppended(stem, e);
  }

  lemma StemStemmed(b: string)
    requires Stemmed(b)
    ensures Stemmed(StemOf(b))
  {
    SplitExtShape(b);
  }

  /** Deciding again on a decided name only swaps the extension: the name
      is the one the original basename would have given. */
  lemma RedecideStampFilename(hash: string, other: string, b: string, p: bool, q: bool)
    requires Stemmed(b)
    ensures DecideStampFilename(hash, Some(DecideStampFilename(other, Some(b), p)), q) == DecideStampFilename(other, Some(b), q)
  {
    var stem := StemOf(b);
    StemStemmed(b);
    StemOfStamped(stem, p);
    assert b != "" && stem + StampExtension(p) != "";
  }

  // ---------------------------------------------------------------------
  // The kernel version code

  /** The three bytes of LINUX_VERSION_CODE, as the masks and shifts of
      kernel_version take them apart (two's complement for negatives). */
  function KernelFields(v: int): (r: (nat, nat, nat))
    ensures r.0 < 256 && r.1 < 256 && r.2 < 256
  {
    ((v / 0x10000) % 256, (v / 0x100) % 256, v % 256)
  }

  /** '%d.%d.%d' of the three fields. */
  function VersionText(v: int): string {
    var (a, b, c) := KernelFields(v);
    DecimalString(a) + "." + DecimalString(b) + "." + DecimalString(c)
  }

  /** kernel_version on the first line of version.h: the words must be
      `#define LINUX_VERSION_CODE <int>`; a wrong first or second word is
      GiveUp, a missing word or a third word that is not an integer is a
      Python error. */
  function KernelVersion(line: string): (r: Result<string>)
    ensures r.Err? ==> r.error.GiveUp? || r.error.Crash?
    ensures r.Ok? ==> var ws := VersionStamps.Words(line);
      |ws| >= 3 && ws[0] == "#define" && ws[1] == "LINUX_VERSION_CODE"
      && ParseInt(ws[2]).Some? && r.value == VersionText(ParseInt(ws[2]).value)
  {
    var parts := VersionStamps.Words(line);
    if |parts| == 0 then Err(Crash("IndexError: list index out of range"))
    else if parts[0] != "#define" then Err(GiveUp("Unable to determine kernel version"))
    else if |parts| < 2 then Err(Crash("IndexError: list index out of range"))
    else if parts[1] != "LINUX_VERSION_CODE" then Err(GiveUp("Unable to determine kernel version"))
    else if |parts| < 3 then Err(Crash("IndexError: list index out of range"))
    else match ParseInt(parts[2])
      case None => Err(Crash("ValueError: invalid literal for int()"))
      case Some(v) => Ok(VersionText(v))
  }

  /** The fields come back from a code built as a * 65536 + b * 256 + c. */
  lemma KernelFieldsRoundTrip(a: nat, b: nat, c: nat)
    requires a < 256 && b < 256 && c < 256
    ensures KernelFields(a * 0x10000 + b * 0x100 + c) == (a, b, c)
  {
    var v := a * 0x10000 + b * 0x100 + c;
    assert v / 0x100 == a * 0x100 + b;
    assert v / 0x10000 == a;
  }

  /** A non-empty run of printable ASCII characters other than space is
      one word. */
  lemma VisibleWord(w: string)
    requires |w| > 0 && forall i | 0 <= i < |w| :: '!' <= w[i] <= '~'
    ensures VersionStamps.IsWord(w)
  {
  }

  /** The first line version.h carries for a code is read back as that
      code's three fields. */
  lemma KernelVersionOfLine(n: nat)
    ensures KernelVersion("#define LINUX_VERSION_CODE " + DecimalString(n)) == Ok(VersionText(n))
  {
    var d := DecimalString(n);
    var ws := ["#define", "LINUX_VERSION_CODE", d];
    assert VersionStamps.IsWord(d) by {
      assert forall i | 0 <= i < |d| :: IsDigit(d[i]);
    }
    VisibleWord(ws[0]);
    VisibleWord(ws[1]);
    assert Join(ws, " ") == "#define LINUX_VERSION_CODE " + d by {
      assert ws[1..] == ["LINUX_VERSION_CODE", d];
      assert ws[1..][1..] == [d];
      assert Join(ws[1..], " ") == "LINUX_VERSION_CODE" + " " + d;
      assert Join(ws, " ") == "#define" + " " + ("LINUX_VERSION_CODE" + " " + d);
      assert "#define" + " " + ("LINUX_VERSION_CODE" + " " + d) == "#define LINUX_VERSION_CODE " + d;
    }
    VersionStamps.WordsOfJoin(ws);
    DecimalRoundTrip(n);
  }

  // ---------------------------------------------------------------------
  // Package labels over the default roles

  /** The label after the required tag is applied. */
  function Tagged(l: Label, requiredTag: Option<string>): Label {
    if requiredTag.Some? && l.tag != requiredTag.value then l.(tag := requiredTag.value, system := false, transient := false) else l
  }

  predicate HasRole(l: Label) { l.role.Some? && l.role.value != "" }

  predicate RolesValid(roles: seq<string>) { forall i | 0 <= i < |roles| :: ValidPart(roles[i]) }

  /** expand_package_label: the required tag is applied; then a label with a
      role is kept, one without gives one label per default role, or a
      label for role '*' when there are no default roles. */
  method ExpandPackageLabel(l: Label, requiredTag: Option<string>, defaultRoles: seq<string>) returns (r: Result<set<Label>>)
    ensures r.Ok? <==> (requiredTag.None? || l.tag == requiredTag.value || ValidPart(requiredTag.value))
                       && (HasRole(l) || RolesValid(defaultRoles))
    ensures r.Err? ==> r.error.GiveUp?
    ensures r.Ok? && HasRole(l) ==> r.value == {Tagged(l, requiredTag)}
    ensures r.Ok? && !HasRole(l) && defaultRoles != [] ==>
      r.value == set x | x in defaultRoles :: Tagged(l, requiredTag).(role := Some(x))
    ensures r.Ok? && !HasRole(l) && defaultRoles == [] ==> r.value == {Tagged(l, requiredTag).(role := Some("*"))}
  {
    var lbl := l;
    if requiredTag.Some? && l.tag != requiredTag.value {
      var t := LabelMatching.CopyWithTag(l, requiredTag.value, false, false);
      if t.Err? {
        return Err(t.error);
      }
      lbl := t.value;
    }
    if HasRole(lbl) {
      return Ok({lbl});
    } else if defaultRoles != [] {
      var result: set<Label> := {};
      var i := 0;
      while i < |defaultRoles|
        invariant 0 <= i <= |defaultRoles|
        invariant RolesValid(defaultRoles[..i])
        invariant result == set x | x in defaultRoles[..i] :: lbl.(role := Some(x))
      {
        var next := LabelMatching.CopyWithRole(lbl, defaultRoles[i]);
        assert defaultRoles[..i + 1] == defaultRoles[..i] + [defaultRoles[i]];
        if next.Err? {
          return Err(next.error);
        }
        result := result + {next.value};
        i := i + 1;
      }
      assert defaultRoles[..i] == defaultRoles;
      return Ok(result);
    } else {
      var star := LabelMatching.CopyWithRole(lbl, "*");
      return Ok({star.value});
    }
  }

  /** Every label of the expansion carries the required tag and a role. */
  lemma ExpandedTagged(l: Label, requiredTag: Option<string>, defaultRoles: seq<string>, x: Label)
    requires x in (if HasRole(l) then {Tagged(l, requiredTag)}
                   else if defaultRoles != [] then set y | y in defaultRoles :: Tagged(l, requiredTag).(role := Some(y))
                   else {Tagged(l, requiredTag).(role := Some("*"))})
    ensures requiredTag.Some? ==> x.tag == requiredTag.value
    ensures x.role.Some? && x.name == l.name && x.ty == l.ty && x.domain == l.domain
  {
  }

  // ---------------------------------------------------------------------
  // The switches of `stamp save`

  predicate IsForce(w: string) { w == "-f" || w == "-force" }
  predicate IsHead(w: string) { w == "-h" || w == "-head" }

  /** A word that is not one of the four switches and does not start with '-'. */
  predicate IsPlain(w: string) { !IsForce(w) && !IsHead(w) && !StartsWith(w, "-") }

  /** The last of the four switches among the words, if any. */
  function LastSwitch(ws: seq<string>): Option<string> {
    if ws == [] then None
    else if IsForce(ws[|ws| - 1]) || IsHead(ws[|ws| - 1]) then Some(ws[|ws| - 1])
    else LastSwitch(ws[..|ws| - 1])
  }

  /** The plain words, in order. */
  function PlainWords(ws: seq<string>): seq<string> {
    if ws == [] then [] else PlainWords(ws[..|ws| - 1]) + (if IsPlain(ws[|ws| - 1]) then [ws[|ws| - 1]] else [])
  }

  /** Every word is a switch or plain. */
  predicate Recognised(ws: seq<string>) {
    forall i | 0 <= i < |ws| :: IsForce(ws[i]) || IsHead(ws[i]) || IsPlain(ws[i])
  }

  datatype SaveArgs = SaveArgs(force: bool, head: bool, filename: Option<string>)

  /** The argument loop of `stamp save`: -f/-force and -h/-head cancel each
      other, so the last one wins; an unknown switch or a second filename
      is refused. */
  method StampSaveArgs(args: seq<string>) returns (r: Result<SaveArgs>)
    ensures r.Ok? <==> Recognised(args) && |PlainWords(args)| <= 1
    ensures r.Err? ==> r.error.GiveUp?
    ensures r.Ok? ==> !(r.value.force && r.value.head)
    ensures r.Ok? ==> (r.value.force <==> LastSwitch(args).Some? && IsForce(LastSwitch(args).value))
    ensures r.Ok? ==> (r.value.head <==> LastSwitch(args).Some? && IsHead(LastSwitch(args).value))
    ensures r.Ok? ==> r.value.filename == if PlainWords(args) == [] then None else Some(PlainWords(args)[0])
  {
    var force := false;
    var head := false;
    var filename: Option<string> := None;
    var i := 0;
    while i < |args|
      invariant 0 <= i <= |args|
      invariant Recognised(args[..i]) && |PlainWords(args[..i])| <= 1
      invariant force <==> LastSwitch(args[..i]).Some? && IsForce(LastSwitch(args[..i]).value)
      invariant head <==> LastSwitch(args[..i]).Some? && IsHead(LastSwitch(args[..i]).value)
      invariant filename == if PlainWords(args[..i]) == [] then None else Some(PlainWords(args[..i])[0])
    {
      var word := args[i];
      assert args[..i + 1][..i] == args[..i];
      if IsForce(word) {
        force := true;
        head := false;
      } else if IsHead(word) {
        head := true;
        force := false;
      } else if StartsWith(word, "-") {
        assert !Recognised(args) by { assert args[i] == word; }
        return Err(GiveUp("Unexpected switch '" + word + "' for 'stamp save'"));
      } else if filename.None? {
        filename := Some(word);
      } else {
        PlainWordsGrow(args, i + 1);
        return Err(GiveUp("Unexpected argument '" + word + "' for 'stamp save'"));
      }
      i := i + 1;
    }
    assert args[..i] == args;
    return Ok(SaveArgs(force, head, filename));
  }

  lemma {:induction false} PlainWordsGrow(ws: seq<string>, n: nat)
    requires n <= |ws|
    ensures |PlainWords(ws[..n])| <= |PlainWords(ws)|
    decreases |ws| - n
  {
    if n < |ws| {
      PlainWordsGrow(ws, n + 1);
      assert ws[..n + 1][..n] == ws[..n];
    } else {
      assert ws[..n] == ws;
    }
  }

  // ---------------------------------------------------------------------
  // Building one tag and killing another

  /** One step of build_a_kill_b. */
  datatype Step = Build(target: Label) | Kill(target: Label)

  /** The steps build_a_kill_b takes when every one succeeds: for each label
      in order, build it with tag a, then kill it with tag b. */
  function Plan(labels: seq<Label>, a: string, b: string): (r: seq<Step>)
    ensures |r| == 2 * |labels|
  {
    if labels == [] then []
    else
      var l := labels[|labels| - 1];
      Plan(labels[..|labels| - 1], a, b)
        + [Build(l.(tag := a, system := false, transient := false)), Kill(l.(tag := b, system := false, transient := false))]
  }

  /** The error build_a_kill_b reports: a GiveUp (MuddleBug included) is
      wrapped in a GiveUp naming the label; anything else passes through. */
  function Wrapped(e: Error): Error {
    if e.Crash? then e else GiveUp(e.msg)
  }

  predicate AllPass(steps: seq<Step>, attempt: Step -> Outcome) {
    forall j | 0 <= j < |steps| :: attempt(steps[j]).Pass?
  }

  /** The two steps for one label. */
  function Pair(l: Label, a: string, b: string): seq<Step> {
    [Build(l.(tag := a, system := false, transient := false)), Kill(l.(tag := b, system := false, transient := false))]
  }

  /** One round of build_a_kill_b: build the label with tag a, then kill it
      with tag b; the first failure stops the round, wrapped. */
  method BuildThenKill(l: Label, a: string, b: string, attempt: Step -> Outcome) returns (tried: seq<Step>, o: Outcome)
    ensures ValidPart(a) ==> tried <= Pair(l, a, b) && |tried| >= 1
    ensures o.Pass? <==> ValidPart(a) && ValidPart(b) && AllPass(Pair(l, a, b), attempt)
    ensures o.Pass? ==> tried == Pair(l, a, b)
    ensures o.Fail? && ValidPart(a) && ValidPart(b) ==>
      AllPass(tried[..|tried| - 1], attempt) && attempt(tried[|tried| - 1]).Fail?
      && o.error == Wrapped(attempt(tried[|tried| - 1]).error)
    ensures !ValidPart(a) ==> tried == [] && o.Fail? && o.error.Crash?
  {
    var la := LabelMatching.CopyWithTag(l, a, false, false);
    if la.Err? {
      return [], Fail(Crash("UnboundLocalError: local variable 'l_a' referenced before assignment"));
    }
    tried := [Build(la.value)];
    var built := attempt(Build(la.value));
    if built.Fail? {
      assert Pair(l, a, b)[0] == Build(la.value);
      return tried, Fail(Wrapped(built.error));
    }
    var lb := LabelMatching.CopyWithTag(l, b, false, false);
    if lb.Err? {
      return tried, Fail(Crash("UnboundLocalError: local variable 'l_b' referenced before assignment"));
    }
    tried := tried + [Kill(lb.value)];
    var killed := attempt(Kill(lb.value));
    if killed.Fail? {
      assert Pair(l, a, b)[1] == Kill(lb.value);
      return tried, Fail(Wrapped(killed.error));
    }
    return tried, Pass;
  }

  lemma AllPassJoin(x: seq<Step>, y: seq<Step>, attempt: Step -> Outcome)
    ensures AllPass(x + y, attempt) <==> AllPass(x, attempt) && AllPass(y, attempt)
  {
    if AllPass(x, attempt) && AllPass(y, attempt) {
      forall j | 0 <= j < |x + y| ensures attempt((x + y)[j]).Pass? {
        if j >= |x| { assert (x + y)[j] == y[j - |x|]; }
      }
    }
    if AllPass(x + y, attempt) {
      assert forall j | 0 <= j < |x| :: (x + y)[j] == x[j];
      assert forall j | 0 <= j < |y| :: (x + y)[|x| + j] == y[j];
    }
  }

  /** build_a_kill_b: the steps are tried in order and the first failure
      stops the loop, wrapped. `attempt` stands for the builder's
      build_label and kill_label; `tried` is what was attempted. A tag the
      Label class refuses fails on the first label, where the error message
      names a label that does not exist yet (UnboundLocalError). */
  method BuildAKillB(labels: seq<Label>, a: string, b: string, attempt: Step -> Outcome) returns (tried: seq<Step>, o: Outcome)
    ensures ValidPart(a) && ValidPart(b) ==> tried <= Plan(labels, a, b)
    ensures o.Pass? <==> labels == [] || (ValidPart(a) && ValidPart(b) && AllPass(Plan(labels, a, b), attempt))
    ensures o.Pass? ==> tried == Plan(labels, a, b)
    ensures o.Fail? && ValidPart(a) && ValidPart(b) ==>
      |tried| >= 1 && AllPass(tried[..|tried| - 1], attempt) && attempt(tried[|tried| - 1]).Fail?
      && o.error == Wrapped(attempt(tried[|tried| - 1]).error)
    ensures labels != [] && !ValidPart(a) ==> tried == [] && o.Fail? && o.error.Crash?
  {
    tried := [];
    var i := 0;
    while i < |labels|
      invariant 0 <= i <= |labels|
      invariant i > 0 ==> ValidPart(a) && ValidPart(b)
      invariant tried == Plan(labels[..i], a, b) && AllPass(tried, attempt)
    {
      var t, r := BuildThenKill(labels[i], a, b, attempt);
      PlanStep(labels, i, a, b);
      PlanPrefix(labels, i + 1, a, b);
      if r.Fail? {
        if ValidPart(a) && ValidPart(b) {
          FailureKept(tried, t, Pair(labels[i], a, b), Plan(labels, a, b), attempt);
        }
        return tried + t, r;
      }
      AllPassJoin(tried, t, attempt);
      tried := tried + t;
      i := i + 1;
    }
    assert labels[..i] == labels;
    return tried, Pass;
  }

  /** A failed round after passing rounds: everything before the failing
      step passed, and the whole plan does not pass. */
  lemma FailureKept(done: seq<Step>, t: seq<Step>, pair: seq<Step>, plan: seq<Step>, attempt: Step -> Outcome)
    requires AllPass(done, attempt) && |t| >= 1 && t <= pair && done + pair <= plan
    requires AllPass(t[..|t| - 1], attempt) && attempt(t[|t| - 1]).Fail?
    ensures done + t <= plan && !AllPass(plan, attempt)
    ensures var all := done + t; AllPass(all[..|all| - 1], attempt) && all[|all| - 1] == t[|t| - 1]
  {
    var all := done + t;
    assert all[..|all| - 1] == done + t[..|t| - 1];
    AllPassJoin(done, t[..|t| - 1], attempt);
    assert plan[|all| - 1] == t[|t| - 1];
  }

  lemma PlanStep(labels: seq<Label>, i: nat, a: string, b: string)
    requires i < |labels|
    ensures Plan(labels[..i + 1], a, b) == Plan(labels[..i], a, b)
      + [Build(labels[i].(tag := a, system := false, transient := false)), Kill(labels[i].(tag := b, system := false, transient := false))]
  {
    assert labels[..i + 1][..i] == labels[..i];
  }

  /** The plan for a prefix of the labels is a prefix of the whole plan. */
  lemma {:induction false} PlanPrefix(labels: seq<Label>, n: nat, a: string, b: string)
    requires n <= |labels|
    ensures Plan(labels[..n], a, b) <= Plan(labels, a, b)
    decreases |labels| - n
  {
    if n < |labels| {
      PlanPrefix(labels, n + 1, a, b);
      PlanStep(labels, n, a, b);
    } else {
      assert labels[..n] == labels;
    }
  }

}
