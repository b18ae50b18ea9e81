// The Repository class of muddled/repository.py: where a checkout comes
// from, how its URL is put together from parts, how repositories compare
// and the copies with changes that version stamping and branch following
// make.

module Repositories {
  import opened Wrappers
  import opened Text
  import opened Utils

  /** A repository. `url` is computed once, when the value is made;
      `fromUrlString` is set only by Repository.from_url. */
  datatype Repository = Repository(
    vcs: string, baseUrl: string, repoName: string,
    prefix: Option<string>, prefixAsIs: bool, suffix: Option<string>, innerPath: Option<string>,
    revision: Option<string>, branch: Option<string>, handler: Option<string>,
    push: bool, pull: bool, url: string, fromUrlString: Option<string>)

  /** An optional string used as a truth value: set and not empty. */
  predicate Given(o: Option<string>) { o.Some? && o.value != "" }

  /** '%s' of an optional string: None is written "None". */
  function Fmt(o: Option<string>): string { if o.None? then "None" else o.value }

  function Opt(o: Option<string>): seq<string> { if Given(o) then [o.value] else [] }

  // ---------------------------------------------------------------------
  // The URL built from parts (default_path)

  /** The path components after the base URL when the prefix is a path
      component: prefix, repository name and inner path, each when given. */
  function Components(prefix: Option<string>, repoName: string, innerPath: Option<string>): seq<string> {
    Opt(prefix) + [repoName] + Opt(innerPath)
  }

  /** default_path, given the text that an as-is prefix contributes. */
  function PathFrom(baseUrl: string, prefix: Option<string>, prefixAsIs: bool, asIsText: string,
                    repoName: string, innerPath: Option<string>, suffix: Option<string>): string
  {
    var joined :=
      if prefixAsIs then JoinPath(baseUrl + asIsText + repoName, Opt(innerPath))
      else JoinPath(baseUrl, Components(prefix, repoName, innerPath));
    joined + (if Given(suffix) then suffix.value else "")
  }

  /** default_path as written: an as-is prefix is formatted with '%s', so
      an unset prefix contributes the text "None". */
  function DefaultPathAsWritten(baseUrl: string, prefix: Option<string>, prefixAsIs: bool,
                                repoName: string, innerPath: Option<string>, suffix: Option<string>): string
  {
    PathFrom(baseUrl, prefix, prefixAsIs, Fmt(prefix), repoName, innerPath, suffix)
  }

  /** default_path as documented: an unset prefix is ignored. */
  function DefaultPath(baseUrl: string, prefix: Option<string>, prefixAsIs: bool,
                       repoName: string, innerPath: Option<string>, suffix: Option<string>): string
  {
    PathFrom(baseUrl, prefix, prefixAsIs, prefix.GetOr(""), repoName, innerPath, suffix)
  }

  /** An as-is prefix that was never given turns into the word "None" in
      the URL. */
  lemma AsIsNonePrefixAsWritten()
    ensures DefaultPathAsWritten("http://example.com", None, true, "busybox", None, None)
            == "http://example.comNonebusybox"
    ensures DefaultPathAsWritten("http://example.com", None, true, "busybox", None, None)
            != DefaultPathAsWritten("http://example.com", Some(""), true, "busybox", None, None)
  {
    assert Opt(None) == [];
  }

  /** Corrected: an unset prefix and an empty one give the same URL, in
      both forms of prefix, and the as-is form is then base and name run
      together. */
  lemma NonePrefixIgnored(baseUrl: string, prefixAsIs: bool, repoName: string,
                          innerPath: Option<string>, suffix: Option<string>)
    ensures DefaultPath(baseUrl, None, prefixAsIs, repoName, innerPath, suffix)
            == DefaultPath(baseUrl, Some(""), prefixAsIs, repoName, innerPath, suffix)
    ensures prefixAsIs && !Given(innerPath) && !Given(suffix) ==>
            DefaultPath(baseUrl, None, prefixAsIs, repoName, innerPath, suffix) == baseUrl + repoName
  {
    assert Opt(None) == [] && Opt(Some("")) == [];
    assert baseUrl + "" + repoName == baseUrl + repoName;
  }

  /** With a base URL that does not end in "/" and components that neither
      start nor end with one, the URL is base/prefix/name/inner followed by
      the suffix. */
  lemma DefaultPathShape(baseUrl: string, prefix: Option<string>, repoName: string,
                         innerPath: Option<string>, suffix: Option<string>)
    requires JoinableBase(baseUrl) && RelativeComponents(Components(prefix, repoName, innerPath))
    ensures DefaultPath(baseUrl, prefix, false, repoName, innerPath, suffix)
            == baseUrl + "/" + Join(Components(prefix, repoName, innerPath), "/")
               + (if Given(suffix) then suffix.value else "")
  {
    JoinPathFlat(baseUrl, Components(prefix, repoName, innerPath));
  }

  // ---------------------------------------------------------------------
  // Path handlers

  const Guess := "guess"
  const GoogleCode := "code.google.com"
  const GooglePrefix := "https://code.google.com/p/"

  /** The handler registered for (vcs, name): only git's code.google.com. */
  predicate Registered(vcs: string, name: string) { vcs == "git" && name == GoogleCode }

  /** The handler 'guess' stands for: code.google.com for a git URL on
      that host, none otherwise; any other choice is kept. */
  function ChosenHandler(vcs: string, baseUrl: string, handler: Option<string>): Option<string> {
    if handler == Some(Guess) then
      if vcs == "git" && StartsWith(baseUrl, GooglePrefix) then Some(GoogleCode) else None
    else handler
  }

  /** google_code_handler: the project URL for the repository 'default',
      project.name for any other; it refuses other VCSs and every extra
      part. It returns the base URL too, which it strips of one trailing
      "/" before adding ".name"; an empty base URL fails on indexing. */
  function GoogleCodeUrl(vcs: string, baseUrl: string, repoName: string, prefix: Option<string>,
                         suffix: Option<string>, innerPath: Option<string>): (r: Result<(string, string)>)
    ensures r.Err? <==> (vcs != "git" || Given(prefix) || Given(suffix) || Given(innerPath)
                         || (repoName != "default" && baseUrl == ""))
    ensures r.Err? ==> (r.error.GiveUp? <==> vcs != "git" || Given(prefix) || Given(suffix) || Given(innerPath))
    ensures r.Ok? && repoName == "default" ==> r.value == (baseUrl, baseUrl)
    ensures r.Ok? && repoName != "default" ==>
      r.value.1 == r.value.0 + "." + repoName && (r.value.0 == baseUrl || r.value.0 + "/" == baseUrl)
      && (r.value.0 == baseUrl <==> !EndsWith(baseUrl, "/"))
  {
    if vcs != "git" then Err(GiveUp("The code.google.com handler currently only understands git"))
    else if Given(prefix) then Err(GiveUp("The code.google.com handler does not support the prefix value"))
    else if Given(suffix) then Err(GiveUp("The code.google.com handler does not support the suffix value"))
    else if Given(innerPath) then Err(GiveUp("The code.google.com handler does not support the inner_path value"))
    else if repoName == "default" then Ok((baseUrl, baseUrl))
    else if baseUrl == "" then Err(Crash("IndexError: string index out of range"))
    else
      var base := if baseUrl[|baseUrl| - 1] == '/' then baseUrl[..|baseUrl| - 1] else baseUrl;
      assert base + "/" == baseUrl ==> EndsWith(baseUrl, "/");
      Ok((base, base + "." + repoName))
  }

  /** The revision kept: a string as given, anything else that is false
      as None. */
  function RevisionOf(v: Value): Option<string> {
    if v.StrValue? then Some(v.s) else None
  }

  /** Repository(...): a true revision that is not a string is refused;
      the handler (after guessing) either builds the URL or, when there is
      none, the URL comes from the parts. */
  function New(vcs: string, baseUrl: string, repoName: string, prefix: Option<string>, prefixAsIs: bool,
               suffix: Option<string>, innerPath: Option<string>, revision: Value,
               branch: Option<string>, handler: Option<string>, push: bool, pull: bool): (r: Result<Repository>)
    ensures Truthy(revision) && !revision.StrValue? ==> r.Err? && r.error.GiveUp?
    ensures r.Ok? ==>
      && r.value.vcs == vcs && r.value.repoName == repoName && r.value.prefix == prefix
      && r.value.prefixAsIs == prefixAsIs && r.value.suffix == suffix && r.value.innerPath == innerPath
      && r.value.revision == RevisionOf(revision) && r.value.branch == branch
      && r.value.push == push && r.value.pull == pull && r.value.fromUrlString.None?
      && r.value.handler == ChosenHandler(vcs, baseUrl, handler)
    ensures r.Ok? && !Given(ChosenHandler(vcs, baseUrl, handler)) ==>
      r.value.baseUrl == baseUrl && r.value.url == DefaultPath(baseUrl, prefix, prefixAsIs, repoName, innerPath, suffix)
    ensures Given(ChosenHandler(vcs, baseUrl, handler)) && !Registered(vcs, ChosenHandler(vcs, baseUrl, handler).value)
      ==> r.Err? && r.error.GiveUp?
  {
    if Truthy(revision) && !revision.StrValue? then Err(GiveUp("VCS revision value should be a string"))
    else
      var h := ChosenHandler(vcs, baseUrl, handler);
      if Given(h) then
        if !Registered(vcs, h.value) then Err(GiveUp("Cannot find the handler"))
        else
          var g :- GoogleCodeUrl(vcs, baseUrl, repoName, prefix, suffix, innerPath);
          Ok(Repository(vcs, g.0, repoName, prefix, prefixAsIs, suffix, innerPath, RevisionOf(revision),
                        branch, h, push, pull, g.1, None))
      else
        Ok(Repository(vcs, baseUrl, repoName, prefix, prefixAsIs, suffix, innerPath, RevisionOf(revision),
                      branch, h, push, pull, DefaultPath(baseUrl, prefix, prefixAsIs, repoName, innerPath, suffix), None))
  }

  /** Guessing picks the code.google.com handler exactly for git URLs on
      that host; otherwise the URL is built from the parts. */
  lemma GuessedHandler(vcs: string, baseUrl: string, repoName: string, prefix: Option<string>, prefixAsIs: bool,
                       suffix: Option<string>, innerPath: Option<string>, revision: Value,
                       branch: Option<string>, push: bool, pull: bool)
    requires New(vcs, baseUrl, repoName, prefix, prefixAsIs, suffix, innerPath, revision, branch, Some(Guess), push, pull).Ok?
    ensures var r := New(vcs, baseUrl, repoName, prefix, prefixAsIs, suffix, innerPath, revision, branch, Some(Guess), push, pull).value;
      && (r.handler == Some(GoogleCode) <==> vcs == "git" && StartsWith(baseUrl, GooglePrefix))
      && (r.handler.None? ==> r.url == DefaultPath(baseUrl, prefix, prefixAsIs, repoName, innerPath, suffix))
  {
  }

  /** A google code project: 'default' names the project URL itself, any
      other repository is project.name; a prefix is refused. */
  lemma GoogleCodeRepositories(baseUrl: string, repoName: string, prefix: Option<string>)
    requires StartsWith(baseUrl, GooglePrefix)
    ensures Given(prefix) ==>
      New("git", baseUrl, repoName, prefix, false, None, None, NoneValue, None, Some(Guess), true, true).Err?
    ensures !Given(prefix) && repoName == "default" ==>
      New("git", baseUrl, repoName, prefix, false, None, None, NoneValue, None, Some(Guess), true, true).Ok?
      && New("git", baseUrl, repoName, prefix, false, None, None, NoneValue, None, Some(Guess), true, true).value.url == baseUrl
    ensures !Given(prefix) && repoName != "default" && !EndsWith(baseUrl, "/") ==>
      New("git", baseUrl, repoName, prefix, false, None, None, NoneValue, None, Some(Guess), true, true).Ok?
      && New("git", baseUrl, repoName, prefix, false, None, None, NoneValue, None, Some(Guess), true, true).value.url
         == baseUrl + "." + repoName
  {
    assert |baseUrl| > 0 by { assert |GooglePrefix| > 0; }
  }

  // ---------------------------------------------------------------------
  // Comparison

  /** What equality, ordering and hashing look at: (vcs, url, branch,
      revision, push, pull), however the URL was derived. */
  datatype Key = Key(vcs: string, url: string, branch: Option<string>, revision: Option<string>,
                     push: bool, pull: bool)

  function KeyOf(r: Repository): Key {
    Key(r.vcs, r.url, r.branch, r.revision, r.push, r.pull)
  }

  /** __eq__ */
  predicate Same(a: Repository, b: Repository) { KeyOf(a) == KeyOf(b) }

  /** False before True. */
  predicate BoolLess(x: bool, y: bool) { !x && y }

  /** __lt__: the first comparable that differs decides. */
  predicate KeyLess(a: Key, b: Key) {
    if a.vcs != b.vcs then LexLess(a.vcs, b.vcs)
    else if a.url != b.url then LexLess(a.url, b.url)
    else if a.branch != b.branch then OptionLess(a.branch, b.branch)
    else if a.revision != b.revision then OptionLess(a.revision, b.revision)
    else if a.push != b.push then BoolLess(a.push, b.push)
    else BoolLess(a.pull, b.pull)
  }

  predicate Less(a: Repository, b: Repository) { KeyLess(KeyOf(a), KeyOf(b)) }

  /** same_ignoring_revision */
  predicate SameIgnoringRevision(a: Repository, b: Repository) {
    a.vcs == b.vcs && a.url == b.url && a.branch == b.branch && a.push == b.push && a.pull == b.pull
  }

  /** The order is strict and total: of two different keys exactly one
      comes first, and it is transitive. */
  lemma KeyLessIsOrder(a: Key, b: Key, c: Key)
    ensures !KeyLess(a, a)
    ensures a != b ==> KeyLess(a, b) != KeyLess(b, a)
    ensures KeyLess(a, b) && KeyLess(b, c) ==> KeyLess(a, c)
  {
    LexLessIrreflexive(a.vcs);
    LexLessIrreflexive(a.url);
    if a != b { KeyLessTotal(a, b); }
    if KeyLess(a, b) && KeyLess(b, c) { KeyLessTransitive(a, b, c); }
  }

  lemma KeyLessTotal(a: Key, b: Key)
    requires a != b
    ensures KeyLess(a, b) != KeyLess(b, a)
  {
    if a.vcs != b.vcs {
      LexLessTotal(a.vcs, b.vcs);
      if LexLess(a.vcs, b.vcs) { LexLessAsymmetric(a.vcs, b.vcs); }
    } else if a.url != b.url {
      LexLessTotal(a.url, b.url);
      if LexLess(a.url, b.url) { LexLessAsymmetric(a.url, b.url); }
    } else if a.branch != b.branch {
      OptionLessTotal(a.branch, b.branch);
    } else if a.revision != b.revision {
      OptionLessTotal(a.revision, b.revision);
    }
  }

  lemma KeyLessTransitive(a: Key, b: Key, c: Key)
    requires KeyLess(a, b) && KeyLess(b, c)
    ensures KeyLess(a, c)
  {
    if a.vcs != b.vcs || b.vcs != c.vcs {
      if a.vcs != b.vcs && b.vcs != c.vcs {
        LexLessTransitive(a.vcs, b.vcs, c.vcs);
      }
      if a.vcs == c.vcs {
        LexLessAsymmetric(a.vcs, b.vcs);
      }
    } else if a.url != b.url || b.url != c.url {
      if a.url != b.url && b.url != c.url {
        LexLessTransitive(a.url, b.url, c.url);
      }
      if a.url == c.url {
        LexLessAsymmetric(a.url, b.url);
      }
    } else if a.branch != b.branch || b.branch != c.branch {
      if a.branch != b.branch && b.branch != c.branch {
        OptionLessTransitive(a.branch, b.branch, c.branch);
      }
      if a.branch == c.branch {
        OptionLessTotal(a.branch, b.branch);
      }
    } else if a.revision != b.revision || b.revision != c.revision {
      if a.revision != b.revision && b.revision != c.revision {
        OptionLessTransitive(a.revision, b.revision, c.revision);
      }
      if a.revision == c.revision {
        OptionLessTotal(a.revision, b.revision);
      }
    }
  }

  /** Sorted by __lt__. */
  predicate SortedKeys(s: seq<Key>) {
    forall i, j | 0 <= i < j < |s| :: s[i] == s[j] || KeyLess(s[i], s[j])
  }

  /** sorted() of a list of repository keys. */
  function SortKeys(s: seq<Key>): (r: seq<Key>)
    ensures SortedKeys(r) && multiset(r) == multiset(s)
  {
    if s == [] then []
    else
      assert s == [s[0]] + s[1..];
      InsertKey(s[0], SortKeys(s[1..]))
  }

  function InsertKey(x: Key, s: seq<Key>): (r: seq<Key>)
    requires SortedKeys(s)
    ensures SortedKeys(r) && multiset(r) == multiset(s) + multiset{x}
  {
    if s == [] then [x]
    else if x == s[0] || KeyLess(x, s[0]) then
      KeyInsertFront(x, s);
      [x] + s
    else
      KeyLessTotal(x, s[0]);
      var t := InsertKey(x, s[1..]);
      assert s == [s[0]] + s[1..];
      KeyInsertCons(s[0], x, s[1..], t);
      [s[0]] + t
  }

  lemma KeyInsertFront(x: Key, s: seq<Key>)
    requires SortedKeys(s) && s != [] && (x == s[0] || KeyLess(x, s[0]))
    ensures SortedKeys([x] + s)
  {
    var r := [x] + s;
    forall i, j | 0 <= i < j < |r| ensures r[i] == r[j] || KeyLess(r[i], r[j]) {
      if i == 0 && j > 1 && x != s[0] && s[0] != s[j - 1] {
        KeyLessTransitive(x, s[0], s[j - 1]);
      }
    }
  }

  lemma KeyInsertCons(h: Key, x: Key, tail: seq<Key>, t: seq<Key>)
    requires SortedKeys([h] + tail) && KeyLess(h, x) && SortedKeys(t)
    requires multiset(t) == multiset(tail) + multiset{x}
    ensures SortedKeys([h] + t)
  {
    var r := [h] + t;
    forall i, j | 0 <= i < j < |r| ensures r[i] == r[j] || KeyLess(r[i], r[j]) {
      if i == 0 {
        var y := t[j - 1];
        assert r[0] == h && r[j] == y;
        assert y in multiset(t);
        if y != x {
          assert y in multiset(tail);
          var k :| 0 <= k < |tail| && tail[k] == y;
          var ht := [h] + tail;
          assert ht[0] == h && ht[k + 1] == y;
          assert h == y || KeyLess(h, y);
        }
      } else {
        assert r[i] == t[i - 1] && r[j] == t[j - 1];
      }
    }
  }

  // ---------------------------------------------------------------------
  // Copies

  /** copy_with_changes: a new repository on the same VCS and base URL
      with the given name; prefix, suffix, inner path, push and pull are
      kept unless given, revision and branch are never carried over, and
      the handler is guessed afresh (the as-is prefix flag is not carried
      over either). */
  function CopyWithChanges(r: Repository, repoName: string, prefix: Option<string>, suffix: Option<string>,
                           innerPath: Option<string>, revision: Value, branch: Option<string>,
                           push: Option<bool>, pull: Option<bool>): (c: Result<Repository>)
    ensures c.Ok? ==>
      && c.value.vcs == r.vcs && c.value.repoName == repoName
      && c.value.prefix == (if prefix.None? then r.prefix else prefix)
      && c.value.suffix == (if suffix.None? then r.suffix else suffix)
      && c.value.innerPath == (if innerPath.None? then r.innerPath else innerPath)
      && c.value.push == push.GetOr(r.push) && c.value.pull == pull.GetOr(r.pull)
      && c.value.revision == RevisionOf(revision) && c.value.branch == branch
      && !c.value.prefixAsIs && c.value.fromUrlString.None?
  {
    New(r.vcs, r.baseUrl, repoName,
        if prefix.None? then r.prefix else prefix, false,
        if suffix.None? then r.suffix else suffix,
        if innerPath.None? then r.innerPath else innerPath,
        revision, branch, Some(Guess), push.GetOr(r.push), pull.GetOr(r.pull))
  }

  /** A copy with just a new name never carries the revision or branch
      over, so it compares equal to the original only when neither had
      one. */
  lemma CopyDropsRevisionAndBranch(r: Repository, repoName: string)
    requires CopyWithChanges(r, repoName, None, None, None, NoneValue, None, None, None).Ok?
    ensures var c := CopyWithChanges(r, repoName, None, None, None, NoneValue, None, None, None).value;
      c.revision.None? && c.branch.None? && (Same(c, r) ==> r.revision.None? && r.branch.None?)
  {
  }

  /** copy_with_changed_revision: a complete copy with another revision. */
  function CopyWithChangedRevision(r: Repository, revision: Option<string>): (c: Repository)
    ensures SameIgnoringRevision(r, c) && c.revision == revision
    ensures c.url == r.url && c.fromUrlString == r.fromUrlString && c.repoName == r.repoName
    ensures Same(c, r) <==> revision == r.revision
  {
    r.(revision := revision)
  }

  /** same_ignoring_revision is equality once the revisions are made
      alike. */
  lemma SameIgnoringRevisionIsSame(a: Repository, b: Repository)
    ensures SameIgnoringRevision(a, b) <==> Same(CopyWithChangedRevision(a, b.revision), b)
  {
  }

  /** copy_with_changed_branch: a complete copy with another branch and
      the given revision (None by default). */
  function CopyWithChangedBranch(r: Repository, branch: Option<string>, revision: Option<string>): (c: Repository)
    ensures c.branch == branch && c.revision == revision
    ensures c.vcs == r.vcs && c.url == r.url && c.push == r.push && c.pull == r.pull
    ensures c.fromUrlString == r.fromUrlString && c.repoName == r.repoName
  {
    r.(branch := branch, revision := revision)
  }

  /** Changing the branch and then the revision back gives a repository
      that differs from the original in its branch alone. */
  lemma BranchCopyDiffersInBranch(r: Repository, branch: Option<string>)
    ensures var c := CopyWithChangedBranch(r, branch, None);
      Same(CopyWithChangedRevision(c, r.revision), r) <==> branch == r.branch
  {
  }
}
