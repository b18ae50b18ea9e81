/** The command line of muddled/cmdline.py: the option words before the
    command, the choice of a command when none is given, the lookup of a
    command in the registry, and the checks made before it is obeyed. */
module CommandLine {
  import opened Wrappers
  import opened Labels
  import Vocabulary
  import Commands

  // ---------------------------------------------------------------------
  // Looking a command up

  /** cmdline.lookup_command: an unknown name is refused; a name filed as
      None takes its subcommand from the first argument, and a missing or
      unknown subcommand is refused. The result is the class and the
      remaining arguments. */
  function Lookup(name: string, args: seq<string>, commands: map<string, Option<string>>,
                  subcommands: map<string, map<string, string>>): (r: Result<(string, seq<string>)>)
    ensures r.Err? ==> r.error.GiveUp?
    ensures name !in commands ==> r.Err?
    ensures name in commands && commands[name].Some? ==> r == Ok((commands[name].value, args))
    ensures name in commands && commands[name].None? ==>
      (r.Ok? <==> args != [] && name in subcommands && args[0] in subcommands[name])
    ensures r.Ok? && commands[name].None? ==> r.value == (subcommands[name][args[0]], args[1..])
  {
    if name !in commands then Err(GiveUp("There is no muddle command '" + name + "'"))
    else if commands[name].Some? then Ok((commands[name].value, args))
    else if args == [] then Err(GiveUp("Command '" + name + "' needs a subcommand"))
    else if name in subcommands && args[0] in subcommands[name] then Ok((subcommands[name][args[0]], args[1..]))
    else Err(GiveUp("There is no muddle command '" + name + " " + args[0] + "'"))
  }

  /** A command registered with its aliases is found under its name and
      under each alias, with the arguments untouched. */
  lemma CommandFound(commands: map<string, Option<string>>, subcommands: map<string, map<string, string>>,
                     name: string, aliasList: seq<string>, klass: string, word: string, args: seq<string>)
    requires word == name || word in aliasList
    ensures Lookup(word, args, Commands.WithAll(commands[name := Some(klass)], aliasList, Some(klass)), subcommands) == Ok((klass, args))
  {
    var m := Commands.WithAll(commands[name := Some(klass)], aliasList, Some(klass));
    assert word in m && m[word] == Some(klass);
  }

  /** A subcommand registered with its aliases is found from its main
      command and the subcommand word (or an alias), which is consumed. */
  lemma SubcommandFound(commands: map<string, Option<string>>, subs: map<string, map<string, string>>,
                        main: string, sub: string, aliasList: seq<string>, klass: string, word: string, rest: seq<string>)
    requires main !in commands || commands[main].None?
    requires word == sub || word in aliasList
    ensures var c := if main in commands then commands else commands[main := None];
      var s := subs[main := Commands.WithAll(Commands.Base(commands, subs, main)[sub := klass], aliasList, klass)];
      Lookup(main, [word] + rest, c, s) == Ok((klass, rest))
  {
    var t := Commands.WithAll(Commands.Base(commands, subs, main)[sub := klass], aliasList, klass);
    assert word in t && t[word] == klass;
    assert ([word] + rest)[1..] == rest;
  }


  // ---------------------------------------------------------------------
  // The option words

  /** The words that ask for help. */
  predicate IsHelp(w: string) { w == "-h" || w == "-help" || w == "--help" || w == "-?" }

  /** The option words _cmdline knows. */
  predicate IsKnownOption(w: string) {
    IsHelp(w) || w == "--tree" || w == "--version" || w == "--no-cache" || w == "-n" || w == "--just-print"
  }

  /** What the options decide: run a command word (with the rest of the
      words) from a build root, or show the version. */
  datatype Options = Run(rest: seq<string>, root: string, useCache: bool, noOp: bool) | ShowVersion

  /** The option loop of _cmdline, word by word: a help switch replaces all
      the words by `help`; `--tree` takes the next word as the root;
      `--version` stops everything; `--no-cache` and `-n`/`--just-print`
      set their flags; another word starting with '-' is refused; any other
      word ends the options. An empty word or a `--tree` without a
      directory is a Python error. */
  function Scan(args: seq<string>, root: string, useCache: bool, noOp: bool): (r: Result<Options>)
    ensures r.Err? ==> r.error.GiveUp? || r.error.Crash?
    decreases |args|
  {
    if args == [] then Ok(Run([], root, useCache, noOp))
    else
      var word := args[0];
      if IsHelp(word) then Ok(Run(["help"], root, useCache, noOp))
      else if word == "--tree" then
        if |args| < 2 then Err(Crash("IndexError: list index out of range"))
        else Scan(args[2..], args[1], useCache, noOp)
      else if word == "--version" then Ok(ShowVersion)
      else if word == "--no-cache" then Scan(args[1..], root, false, noOp)
      else if word == "-n" || word == "--just-print" then Scan(args[1..], root, useCache, true)
      else if word == "" then Err(Crash("IndexError: string index out of range"))
      else if word[0] == '-' then Err(GiveUp("Unexpected command line option " + word))
      else Ok(Run(args, root, useCache, noOp))
  }

  /** The option loop itself, over the words and its flags. */
  method ParseOptions(args: seq<string>, currentDir: string) returns (r: Result<Options>)
    ensures r == Scan(args, currentDir, true, false)
  {
    var rest := args;
    var root := currentDir;
    var useCache := true;
    var noOp := false;
    while rest != []
      invariant Scan(rest, root, useCache, noOp) == Scan(args, currentDir, true, false)
      decreases |rest|
    {
      var word := rest[0];
      if IsHelp(word) {
        return Ok(Run(["help"], root, useCache, noOp));
      } else if word == "--tree" {
        rest := rest[1..];
        if rest == [] {
          return Err(Crash("IndexError: list index out of range"));
        }
        root := rest[0];
      } else if word == "--version" {
        return Ok(ShowVersion);
      } else if word == "--no-cache" {
        useCache := false;
      } else if word == "-n" || word == "--just-print" {
        noOp := true;
      } else if word == "" {
        return Err(Crash("IndexError: string index out of range"));
      } else if word[0] == '-' {
        return Err(GiveUp("Unexpected command line option " + word));
      } else {
        return Ok(Run(rest, root, useCache, noOp));
      }
      rest := rest[1..];
    }
    return Ok(Run([], root, useCache, noOp));
  }

  /** A command word: a non-empty word that does not start with '-'. */
  predicate IsCommandWord(w: string) { w != "" && w[0] != '-' }

  /** Where the options stop: the words left are `help`, or the words from
      the first command word on, or none. */
  lemma {:induction false} ScanStops(args: seq<string>, root: string, useCache: bool, noOp: bool)
    ensures var r := Scan(args, root, useCache, noOp);
      r.Ok? && r.value.Run? ==>
        r.value.rest == ["help"] || r.value.rest == []
        || (IsCommandWord(r.value.rest[0]) && exists k | 0 <= k < |args| :: args[k..] == r.value.rest)
    decreases |args|
  {
    if args != [] {
      var word := args[0];
      if IsHelp(word) || word == "--version" || word == "" {
      } else if word == "--tree" {
        if |args| >= 2 {
          ScanStops(args[2..], args[1], useCache, noOp);
          var r := Scan(args[2..], args[1], useCache, noOp);
          if r.Ok? && r.value.Run? && r.value.rest != [] && r.value.rest != ["help"] {
            var k :| 0 <= k < |args[2..]| && args[2..][k..] == r.value.rest;
            assert args[k + 2..] == r.value.rest;
          }
        }
      } else if word == "--no-cache" || word == "-n" || word == "--just-print" {
        var ro := root;
        var uc := if word == "--no-cache" then false else useCache;
        var no := if word == "--no-cache" then noOp else true;
        ScanStops(args[1..], ro, uc, no);
        var r := Scan(args[1..], ro, uc, no);
        if r.Ok? && r.value.Run? && r.value.rest != [] && r.value.rest != ["help"] {
          var k :| 0 <= k < |args[1..]| && args[1..][k..] == r.value.rest;
          assert args[k + 1..] == r.value.rest;
        }
      } else if word[0] != '-' {
        assert args[0..] == args;
      }
    }
  }

  /** A help switch anywhere among the options wins over the words after it. */
  lemma HelpWins(w: string, rest: seq<string>, root: string, useCache: bool, noOp: bool)
    requires IsHelp(w)
    ensures Scan([w] + rest, root, useCache, noOp) == Ok(Run(["help"], root, useCache, noOp))
  {
  }

  /** `--tree` consumes the next word as the root, and `-n` sets the
      no-operation flag; scanning then goes on. */
  lemma TreeAndNoOp(d: string, rest: seq<string>, root: string, useCache: bool, noOp: bool)
    ensures Scan(["--tree", d] + rest, root, useCache, noOp) == Scan(rest, d, useCache, noOp)
    ensures Scan(["-n"] + rest, root, useCache, noOp) == Scan(rest, root, useCache, true)
  {
    assert (["--tree", d] + rest)[2..] == rest;
    assert (["-n"] + rest)[1..] == rest;
  }

  /** Any other word starting with '-' is refused. */
  lemma UnknownOptionRefused(w: string, rest: seq<string>, root: string, useCache: bool, noOp: bool)
    requires w != "" && w[0] == '-' && !IsKnownOption(w)
    ensures Scan([w] + rest, root, useCache, noOp).Err?
    ensures Scan([w] + rest, root, useCache, noOp).error.GiveUp?
  {
  }

  // ---------------------------------------------------------------------
  // Choosing the command

  /** The kinds of place find_location_in_tree reports (utils.DirType). */
  datatype DirType = Checkout | Object | Deployed | Install | Root | DomainRoot | MuddleDir | Versions | Unexpected

  /** A place in the build tree: its kind, a label and a domain. */
  datatype Where = Where(what: DirType, lbl: Option<Label>, domain: Option<string>)

  /** package:*{role}/postinstalled, as the top of the tree builds it. */
  function RoleTarget(role: string): Label {
    Label(Vocabulary.Package, None, "*", Some(role), Vocabulary.PostInstalled, false, false)
  }

  /** The words buildlabel gets at the top of the tree: the default
      deployments, then every default role's packages. */
  function RootArgs(deployments: seq<Label>, roles: seq<string>): (r: seq<string>)
    ensures |r| == |deployments| + |roles|
  {
    seq(|deployments|, i requires 0 <= i < |deployments| => Render(deployments[i])) + RoleArgs(roles)
  }

  function RoleArgs(roles: seq<string>): (r: seq<string>)
    ensures |r| == |roles|
  {
    if roles == [] then [] else RoleArgs(roles[..|roles| - 1]) + [Render(RoleTarget(roles[|roles| - 1]))]
  }

  /** The two words buildlabel gets for each sub-domain. */
  function DomainWords(name: string): seq<string> {
    ["deployment:(" + name + ")*/deployed", "package:(" + name + ")*{*}/postinstalled"]
  }

  function DomainArgs(domains: seq<string>): (r: seq<string>)
    ensures |r| == 2 * |domains|
  {
    if domains == [] then [] else DomainArgs(domains[..|domains| - 1]) + DomainWords(domains[|domains| - 1])
  }

  predicate RolesValid(roles: seq<string>) { forall i | 0 <= i < |roles| :: ValidPart(roles[i]) }

  /** guess_cmd_in_build: at the top of the tree build the default
      deployments and roles; in a sub-domain build its deployments and
      packages (every sub-domain found below when the place names none);
      in a deployment directory redeploy (the deployment found, if any); in
      an object or install directory rebuild; in a checkout build; anywhere
      else, or nowhere, give up. `subdomains` stands for the directories
      below that hold a .muddle directory. */
  method GuessCmdInBuild(where: Option<Where>, deployments: seq<Label>, roles: seq<string>, subdomains: seq<string>)
    returns (r: Result<(string, seq<string>)>)
    ensures r.Err? ==> r.error.GiveUp?
    ensures where.None? ==> r.Err?
    ensures where.Some? && where.value.what == Root ==>
      (r.Ok? <==> RolesValid(roles)) && (r.Ok? ==> r.value == ("buildlabel", RootArgs(deployments, roles)))
    ensures where.Some? && where.value.what == DomainRoot ==>
      r == Ok(("buildlabel", DomainArgs(if where.value.domain.None? then subdomains else [where.value.domain.value])))
    ensures where.Some? && where.value.what == Deployed ==>
      r == Ok(("redeploy", if where.value.lbl.Some? then [Render(where.value.lbl.value)] else []))
    ensures where.Some? && where.value.what in {Object, Install} ==> r == Ok(("rebuild", []))
    ensures where.Some? && where.value.what == Checkout ==> r == Ok(("build", []))
    ensures where.Some? && where.value.what in {MuddleDir, Versions, Unexpected} ==> r.Err?
  {
    if where.None? {
      return Err(GiveUp("Can't decide what to do, can't seem to determine where you are in the build tree"));
    }
    var w := where.value;
    if w.what == Root {
      var args := RootWords(deployments, roles);
      return if args.Ok? then Ok(("buildlabel", args.value)) else Err(args.error);
    } else if w.what == DomainRoot {
      var args := SubdomainWords(if w.domain.None? then subdomains else [w.domain.value]);
      return Ok(("buildlabel", args));
    } else if w.what == Deployed {
      return Ok(("redeploy", if w.lbl.Some? then [Render(w.lbl.value)] else []));
    } else if w.what == Object || w.what == Install {
      return Ok(("rebuild", []));
    } else if w.what == Checkout {
      return Ok(("build", []));
    }
    return Err(GiveUp("Don't know what to do in this location"));
  }

  /** The words for the top of the tree, one label per default role made
      (and checked) in turn. */
  method RootWords(deployments: seq<Label>, roles: seq<string>) returns (r: Result<seq<string>>)
    ensures r.Err? ==> r.error.GiveUp?
    ensures r.Ok? <==> RolesValid(roles)
    ensures r.Ok? ==> r.value == RootArgs(deployments, roles)
  {
    var more: seq<string> := [];
    var i := 0;
    while i < |roles|
      invariant 0 <= i <= |roles|
      invariant RolesValid(roles[..i])
      invariant more == RoleArgs(roles[..i])
    {
      var l := NewLabel(Vocabulary.Package, "*", Some(roles[i]), Vocabulary.PostInstalled, false, false, None);
      if l.Err? {
        RoleRefused(roles, i);
        return Err(l.error);
      }
      RoleAccepted(roles, i, l.value);
      more := more + [Render(l.value)];
      i := i + 1;
    }
    assert roles[..i] == roles;
    return Ok(seq(|deployments|, i requires 0 <= i < |deployments| => Render(deployments[i])) + more);
  }

  /** The words for a sub-domain root, two per domain. */
  method SubdomainWords(domains: seq<string>) returns (r: seq<string>)
    ensures r == DomainArgs(domains)
  {
    r := [];
    var i := 0;
    while i < |domains|
      invariant 0 <= i <= |domains|
      invariant r == DomainArgs(domains[..i])
    {
      assert domains[..i + 1][..i] == domains[..i];
      r := r + DomainWords(domains[i]);
      i := i + 1;
    }
    assert domains[..i] == domains;
  }

  lemma RolesValidStep(roles: seq<string>, i: nat)
    requires i < |roles| && RolesValid(roles[..i]) && ValidPart(roles[i])
    ensures RolesValid(roles[..i + 1])
  {
    var p := roles[..i + 1];
    assert p == roles[..i] + [roles[i]];
    forall k | 0 <= k < |p|
      ensures ValidPart(p[k])
    {
      if k < i { assert p[k] == roles[..i][k]; }
    }
  }

  /** A role the label accepts extends the valid prefix by one word. */
  lemma RoleAccepted(roles: seq<string>, i: nat, l: Label)
    requires i < |roles| && RolesValid(roles[..i])
    requires NewLabel(Vocabulary.Package, "*", Some(roles[i]), Vocabulary.PostInstalled, false, false, None) == Ok(l)
    ensures RolesValid(roles[..i + 1])
    ensures RoleArgs(roles[..i + 1]) == RoleArgs(roles[..i]) + [Render(l)]
  {
    assert ValidPart(roles[i]);
    RolesValidStep(roles, i);
    assert roles[..i + 1][..i] == roles[..i];
  }

  lemma RoleRefused(roles: seq<string>, i: nat)
    requires i < |roles|
    requires NewLabel(Vocabulary.Package, "*", Some(roles[i]), Vocabulary.PostInstalled, false, false, None).Err?
    ensures !RolesValid(roles)
  {
    PostInstalledValid();
  }

  lemma PostInstalledValid()
    ensures ValidPart(Vocabulary.Package) && ValidPart(Vocabulary.PostInstalled) && ValidPart("*")
  {
    PartOfLetters(Vocabulary.Package);
    PartOfLetters(Vocabulary.PostInstalled);
  }

  lemma PartOfLetters(s: string)
    requires |s| > 0 && forall i | 0 <= i < |s| :: 'a' <= s[i] <= 'z'
    ensures ValidPart(s)
  {
  }

  /** Every word buildlabel gets for a default role reads back as that
      role's package label. */
  lemma RoleTargetsParse(role: string)
    requires ValidPart(role)
    ensures FromString(Render(RoleTarget(role))) == Ok(RoleTarget(role))
  {
    PostInstalledValid();
    RoundTrip(RoleTarget(role));
  }

  /** _cmdline's choice of command: the first word left by the options,
      else the guess when inside a build tree, else `help`. */
  function ChooseCommand(rest: seq<string>, inBuild: bool, guessed: Result<(string, seq<string>)>): (r: Result<(string, seq<string>)>)
    ensures rest != [] ==> r == Ok((rest[0], rest[1..]))
    ensures rest == [] && inBuild ==> r == guessed
    ensures rest == [] && !inBuild ==> r == Ok(("help", []))
  {
    if rest != [] then Ok((rest[0], rest[1..]))
    else if inBuild then guessed
    else Ok(("help", []))
  }

  /** How a found command is obeyed. */
  datatype Mode = WithBuildTree | WithoutBuildTree

  /** The checks before a command is obeyed: inside a release build only a
      command allowed there; outside a build tree only a command that does
      not need one. */
  function Obey(inBuild: bool, isRelease: bool, allowedInRelease: bool, requiresTree: bool): (r: Result<Mode>)
    ensures r.Err? ==> r.error.GiveUp?
    ensures r == Ok(WithBuildTree) <==> inBuild && (!isRelease || allowedInRelease)
    ensures r == Ok(WithoutBuildTree) <==> !inBuild && !requiresTree
  {
    if inBuild then
      if isRelease && !allowedInRelease then Err(GiveUp("Command is not allowed in a release build"))
      else Ok(WithBuildTree)
    else if requiresTree then Err(GiveUp("Command requires a build tree."))
    else Ok(WithoutBuildTree)
  }
}
