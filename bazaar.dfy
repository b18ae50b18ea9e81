/** The Bazaar version control system: the arguments muddle gives bzr, the
    output it cleans up, and the rewriting of a checkout's branch.conf when
    it is re-associated with its remote repository. */
module Bazaar {
  import opened Wrappers
  import opened Text
  import Repositories

  // ---------------------------------------------------------------------
  // _prune_spurious_bzr_output

  const Noise := "some compiled extensions"

  /** The regular expression `.*some compiled extensions`, matched at the
      start of one line: a line holds no newline, so `.*` reaches any
      position and the match succeeds iff the phrase occurs in the line. */
  predicate Spurious(line: string) {
    Occurs(Noise, line)
  }

  /** The lines that are not spurious, in their order. */
  function Kept(lines: seq<string>): seq<string> {
    if lines == [] then []
    else Kept(lines[..|lines| - 1]) + (if Spurious(lines[|lines| - 1]) then [] else [lines[|lines| - 1]])
  }

  /** The output with the spurious lines taken out. */
  function Pruned(text: string): string {
    Join(Kept(Split(text, '\n')), "\n")
  }

  /** _prune_spurious_bzr_output(in_str): the lines of the text are kept,
      one by one, unless they are spurious, and joined again. */
  method PruneSpurious(text: string) returns (out: string)
    ensures out == Pruned(text)
  {
    var lines := Split(text, '\n');
    var rv: seq<string> := [];
    var i := 0;
    while i < |lines|
      invariant 0 <= i <= |lines|
      invariant rv == Kept(lines[..i])
    {
      KeptStep(lines, i);
      if !Spurious(lines[i]) {
        rv := rv + [lines[i]];
      }
      i := i + 1;
    }
    assert lines[..i] == lines;
    out := Join(rv, "\n");
  }

  /** Kept of one more line. */
  lemma KeptStep(lines: seq<string>, i: nat)
    requires i < |lines|
    ensures Kept(lines[..i + 1]) == Kept(lines[..i]) + (if Spurious(lines[i]) then [] else [lines[i]])
  {
    assert lines[..i + 1][..i] == lines[..i];
  }

  /** Kept takes the lines apart: what it keeps of two runs of lines is
      what it keeps of each, so the order of the kept lines is theirs. */
  lemma {:induction false} KeptConcat(a: seq<string>, b: seq<string>)
    ensures Kept(a + b) == Kept(a) + Kept(b)
    decreases |b|
  {
    if b != [] {
      var init := b[..|b| - 1];
      assert (a + b)[..|a + b| - 1] == a + init;
      assert (a + b)[|a + b| - 1] == b[|b| - 1];
      KeptConcat(a, init);
    } else {
      assert a + b == a;
    }
  }

  /** Exactly the lines that are not spurious are kept; when none is
      spurious, nothing changes. */
  lemma {:induction false} KeptExactly(lines: seq<string>)
    ensures forall l :: l in Kept(lines) <==> l in lines && !Spurious(l)
    ensures (forall i | 0 <= i < |lines| :: !Spurious(lines[i])) ==> Kept(lines) == lines
    ensures |Kept(lines)| <= |lines|
    decreases |lines|
  {
    if lines != [] {
      var init := lines[..|lines| - 1];
      KeptExactly(init);
      assert lines == init + [lines[|lines| - 1]];
      forall l ensures l in lines <==> l in init || l == lines[|lines| - 1] {
      }
    }
  }

  /** The kept lines hold no newline, as the lines of a split do not. */
  lemma {:induction false} KeptNoNewline(lines: seq<string>)
    requires NoneContain(lines, '\n')
    ensures NoneContain(Kept(lines), '\n')
    decreases |lines|
  {
    if lines != [] {
      var init := lines[..|lines| - 1];
      forall i | 0 <= i < |init| ensures '\n' !in init[i] {
        assert init[i] == lines[i];
      }
      KeptNoNewline(init);
    }
  }

  /** Pruning twice prunes no more than pruning once, and output with no
      spurious line passes unchanged. */
  lemma PrunedIdempotent(text: string)
    ensures Pruned(Pruned(text)) == Pruned(text)
    ensures (forall i | 0 <= i < |Split(text, '\n')| :: !Spurious(Split(text, '\n')[i])) ==> Pruned(text) == text
  {
    var lines := Split(text, '\n');
    var k := Kept(lines);
    KeptExactly(lines);
    KeptNoNewline(lines);
    if k == [] {
      assert Pruned(text) == "";
      assert Split("", '\n') == [""];
      assert !Spurious("");
      assert Kept([""]) == Kept([]) + [""];
    } else {
      SplitJoin(k, '\n');
      assert Split(Pruned(text), '\n') == k;
      forall l | l in k ensures !Spurious(l) { }
      KeptExactly(k);
      forall i | 0 <= i < |k| ensures !Spurious(k[i]) {
        assert k[i] in k;
      }
    }
    if forall i | 0 <= i < |lines| :: !Spurious(lines[i]) {
      JoinSplit(text, '\n');
    }
  }

  // ---------------------------------------------------------------------
  // _normalised_repo and _r_option

  /** _normalised_repo(repo): bzr wants "bzr+ssh:" where the URL says
      "ssh:". */
  function NormalisedRepo(url: string): string {
    if StartsWith(url, "ssh:") then "bzr+" + url else url
  }

  /** Only an ssh URL is changed, by putting "bzr+" before it; the result
      never starts "ssh:", so normalising twice is normalising once. */
  lemma NormalisedRepoOnce(url: string)
    ensures var r := NormalisedRepo(url);
      && (r == url <==> !StartsWith(url, "ssh:"))
      && (r != url ==> r == "bzr+" + url)
      && !StartsWith(r, "ssh:")
      && NormalisedRepo(r) == r
  {
    var r := NormalisedRepo(url);
    if StartsWith(url, "ssh:") {
      assert r[0] == 'b';
      assert |r| > |url|;
    }
  }

  /** _r_option(revision): no option for no revision or HEAD, otherwise
      "-r <revision>". */
  function ROption(revision: Option<string>): string {
    if revision.None? || revision.value == "HEAD" then "" else "-r " + revision.value
  }

  /** The option is empty exactly for no revision or HEAD, and otherwise
      gives the revision back after its "-r ". */
  lemma ROptionRevision(revision: Option<string>)
    ensures ROption(revision) == "" <==> revision.None? || revision.value == "HEAD"
    ensures ROption(revision) != "" ==> StartsWith(ROption(revision), "-r ") && ROption(revision)[3..] == revision.value
  {
    if ROption(revision) != "" {
      assert ROption(revision)[..3] == "-r ";
    }
  }

  // ---------------------------------------------------------------------
  // Bazaar has no muddle branches

  /** Bazaar refuses a branch in the muddle sense. */
  function RefuseBranch(branch: Option<string>, operation: string): (o: Outcome)
    ensures o.Fail? <==> Repositories.Given(branch)
    ensures o.Fail? ==> o.error.GiveUp?
  {
    if Repositories.Given(branch) then
      Fail(GiveUp("Bazaar does not support branch (in the muddle sense) in '" + operation + "' (branch='" + branch.value + "')"))
    else Pass
  }

  /** checkout(repo, co_leaf, ...): the bzr branch command. */
  function CheckoutCommand(repo: Repositories.Repository, coLeaf: string): Result<string> {
    var refused := RefuseBranch(repo.branch, "checkout");
    if refused.Fail? then Err(refused.error)
    else Ok("bzr branch " + ROption(repo.revision) + " " + NormalisedRepo(repo.url) + " " + coLeaf)
  }

  /** pull(repo, ...): the bzr pull command. */
  function PullCommand(repo: Repositories.Repository): Result<string> {
    var refused := RefuseBranch(repo.branch, "pull");
    if refused.Fail? then Err(refused.error)
    else Ok("bzr pull " + ROption(repo.revision) + " " + NormalisedRepo(repo.url))
  }

  /** merge(other_repo, ...): the bzr merge command. */
  function MergeCommand(other: Repositories.Repository): Result<string> {
    var refused := RefuseBranch(other.branch, "merge");
    if refused.Fail? then Err(refused.error)
    else Ok("bzr merge " + ROption(other.revision) + " " + NormalisedRepo(other.url))
  }

  /** goto_revision(revision, branch, repo): a branch is refused, a missing
      repository is a bug, and otherwise the repository is pulled at that
      revision. */
  function GotoRevision(revision: string, branch: Option<string>, repo: Option<Repositories.Repository>): Result<string> {
    if Repositories.Given(branch) then Err(GiveUp("Bazaar does not support branch (in the muddle sense), branch=" + branch.value))
    else if repo.None? then Err(MuddleBug("Bazaar needs a Repository instance to do goto_revision()"))
    else PullCommand(Repositories.CopyWithChangedRevision(repo.value, Some(revision)))
  }

  /** checkout, pull, merge and goto_revision give up when a branch is
      given, and otherwise name the repository's URL as bzr wants it and
      the revision asked for. */
  lemma BranchRefused(repo: Repositories.Repository, coLeaf: string, revision: string, branch: Option<string>)
    ensures CheckoutCommand(repo, coLeaf).Err? <==> Repositories.Given(repo.branch)
    ensures PullCommand(repo).Err? <==> Repositories.Given(repo.branch)
    ensures MergeCommand(repo).Err? <==> Repositories.Given(repo.branch)
    ensures CheckoutCommand(repo, coLeaf).Err? ==> CheckoutCommand(repo, coLeaf).error.GiveUp?
    ensures PullCommand(repo).Err? ==> PullCommand(repo).error.GiveUp?
    ensures MergeCommand(repo).Err? ==> MergeCommand(repo).error.GiveUp?
    ensures Repositories.Given(branch) ==>
      (GotoRevision(revision, branch, Some(repo)).Err? && GotoRevision(revision, branch, Some(repo)).error.GiveUp?)
    ensures !Repositories.Given(branch) ==>
      GotoRevision(revision, branch, Some(repo)) == PullCommand(repo.(revision := Some(revision)))
    ensures !Repositories.Given(repo.branch) ==>
      PullCommand(repo) == Ok("bzr pull " + ROption(repo.revision) + " " + NormalisedRepo(repo.url))
  {
  }

  // ---------------------------------------------------------------------
  // reparent: branch.conf

  const ParentLocation := "parent_location"
  const PushLocation := "push_location"

  /** A line of branch.conf as reparent remembers it: a blank or comment
      line, or a setting and the line it came from. */
  datatype Posn = Note(orig: string) | Setting(key: string, orig: string)

  /** What reparent reads from branch.conf: the value of each key (the last
      one given) and the lines in order. */
  datatype Conf = Conf(items: map<string, string>, posns: seq<Posn>)

  /** A blank line, or a comment, once stripped. */
  predicate IsNote(orig: string) {
    Strip(orig) == "" || StartsWith(Strip(orig), "#")
  }

  /** The value of a setting as the source computes it: the pieces after
      the first '=' joined with nothing between them, so any further '='
      is lost. */
  function ValueAsWritten(line: string): string {
    var words := Split(line, '=');
    Strip(Join(words[1..], ""))
  }

  /** The value of a setting: everything after the first '=', stripped. */
  function Value(line: string): string {
    var words := Split(line, '=');
    Strip(Join(words[1..], "="))
  }

  /** One line of branch.conf, read: None for a blank or comment line, the
      key and the value of a setting, and GiveUp for a line with no '='. */
  function Entry(orig: string, count: nat): (r: Result<Option<(string, string)>>)
    ensures r.Err? <==> !IsNote(orig) && '=' !in Strip(orig)
    ensures r.Err? ==> r.error.GiveUp?
    ensures r.Ok? ==> (r.value.None? <==> IsNote(orig))
  {
    var line := Strip(orig);
    if line == "" || StartsWith(line, "#") then Ok(None)
    else if '=' !in line then Err(GiveUp("Cannot parse branch.conf - no '=' in line " + DecimalString(count) + ":\n    " + line))
    else Ok(Some((Strip(Split(line, '=')[0]), Value(line))))
  }

  /** The line reparent writes for a setting. */
  function SettingLine(key: string, value: string): string {
    key + " = " + value + "\n"
  }

  /** A key as reading a setting leaves it: stripped, no '=' in it, and
      not the start of a comment. */
  predicate KeyShape(key: string) {
    && '=' !in key
    && (key == "" || (!IsSpace(key[0]) && !IsSpace(key[|key| - 1]) && key[0] != '#'))
  }

  /** A key, " =" and the rest of a setting split at the first '='. */
  lemma SplitSetting(key: string, rest: string)
    requires '=' !in key
    ensures Split(key + " =" + rest, '=') == [key + " "] + Split(rest, '=')
  {
    var line := key + " =" + rest;
    assert line == (key + " ") + (['='] + rest);
    FindAfterFree(key + " ", ['='] + rest, '=');
    SplitAt(line, '=', key + " ", rest);
  }

  /** The line reparent writes for a setting, cut where stripping cuts it. */
  lemma SettingLineParts(key: string, value: string)
    ensures value == "" ==> SettingLine(key, value) == (key + " =") + " \n"
    ensures value != "" ==> SettingLine(key, value) == (key + " =" + (" " + value)) + "\n"
  {
  }

  /** A setting line of a key and a value, stripped, is the key, " =" and
      the value with a space before it if there is one. */
  lemma SettingLineStrips(key: string, value: string, rest: string)
    requires KeyShape(key) && key != "" && Strip(value) == value
    requires rest == (if value == "" then "" else " " + value)
    ensures Strip(SettingLine(key, value)) == key + " =" + rest
  {
    SettingLineParts(key, value);
    if value == "" {
      var line := key + " =";
      assert line[0] == key[0] && line[|line| - 1] == '=';
      StripTrailing(line, " \n");
      assert line + "" == line;
    } else {
      StripAround(value);
      var line := key + " =" + (" " + value);
      assert line[0] == key[0] && line[|line| - 1] == value[|value| - 1];
      StripTrailing(line, "\n");
    }
  }

  /** A line that strips to a setting reads as its key and value. */
  lemma EntryOfSetting(orig: string, line: string, count: nat)
    requires Strip(orig) == line && line != "" && line[0] != '#' && '=' in line
    ensures Entry(orig, count) == Ok(Some((Strip(Split(line, '=')[0]), Value(line))))
  {
    assert !StartsWith(line, "#");
  }

  /** A line reparent writes for a setting reads back as that setting. */
  lemma EntryRoundTrip(key: string, value: string, count: nat)
    requires KeyShape(key) && key != "" && Strip(value) == value
    ensures Entry(SettingLine(key, value), count) == Ok(Some((key, value)))
  {
    var rest := if value == "" then "" else " " + value;
    var line := key + " =" + rest;
    SettingLineStrips(key, value, rest);
    assert line[|key| + 1] == '=' && line[0] == key[0];
    EntryOfSetting(SettingLine(key, value), line, count);
    SplitSetting(key, rest);
    JoinSplit(rest, '=');
    assert Value(line) == Strip(rest);
    PaddedStrips(key, value, rest);
  }

  /** The key with the space after it, and the value with the space before
      it, strip back to themselves. */
  lemma PaddedStrips(key: string, value: string, rest: string)
    requires Strip(key) == key && Strip(value) == value
    requires rest == (if value == "" then "" else " " + value)
    ensures Strip(key + " ") == key && Strip(rest) == value
  {
    SpaceAfterStrips(key);
    if value != "" {
      SpaceBeforeStrips(value);
    }
  }

  /** Two pieces joined. */
  lemma JoinTwo(a: string, b: string, sep: string)
    ensures Join([a, b], sep) == a + sep + b
  {
    assert [a, b][1..] == [b];
  }

  /** Two pieces joined with nothing between them. */
  lemma JoinTwoNothing(a: string, b: string)
    ensures Join([a, b], "") == a + b
  {
    JoinTwo(a, b, "");
    assert a + "" == a;
  }

  /** A key and two pieces with an '=' before each, split at '='. */
  lemma SplitThree(k: string, a: string, b: string)
    requires '=' !in k && '=' !in a && '=' !in b
    ensures Split(k + "=" + a + "=" + b, '=') == [k, a, b]
  {
    var parts := [k, a, b];
    JoinTwo(a, b, "=");
    assert parts[1..] == [a, b];
    JoinHead(parts, "=");
    assert Join(parts, "=") == k + "=" + a + "=" + b;
    assert NoneContain(parts, '=');
    SplitJoin(parts, '=');
  }

  /** The source's reading of a value drops every '=' after the first: a
      setting `k=a=b` comes back with the value `ab`, where the rest of the
      line is `a=b`. */
  lemma ValueAsWrittenDropsEquals(k: string, a: string, b: string)
    requires '=' !in k && '=' !in a && '=' !in b
    requires a != "" && b != "" && Strip(a) == a && Strip(b) == b
    ensures ValueAsWritten(k + "=" + a + "=" + b) == a + b
    ensures Value(k + "=" + a + "=" + b) == a + "=" + b
  {
    var line := k + "=" + a + "=" + b;
    SplitThree(k, a, b);
    assert Split(line, '=')[1..] == [a, b];
    JoinTwoNothing(a, b);
    JoinTwo(a, b, "=");
    StripAround(a);
    StripAround(b);
    assert (a + b)[0] == a[0] && (a + b)[|a + b| - 1] == b[|b| - 1];
    Stripped(a + b);
    assert (a + "=" + b)[0] == a[0] && (a + "=" + b)[|a + "=" + b| - 1] == b[|b| - 1];
    Stripped(a + "=" + b);
  }

  /** branch.conf read line by line; the first line that cannot be read
      stops it. */
  function ParseConf(lines: seq<string>): (r: Result<Conf>)
  {
    if lines == [] then Ok(Conf(map[], []))
    else
      var c :- ParseConf(lines[..|lines| - 1]);
      var e :- Entry(lines[|lines| - 1], |lines|);
      if e.None? then Ok(Conf(c.items, c.posns + [Note(lines[|lines| - 1])]))
      else Ok(Conf(c.items[e.value.0 := e.value.1], c.posns + [Setting(e.value.0, lines[|lines| - 1])]))
  }

  /** The reading loop of reparent. */
  method ReadBranchConf(lines: seq<string>) returns (r: Result<Conf>)
    ensures r == ParseConf(lines)
  {
    var items: map<string, string> := map[];
    var posns: seq<Posn> := [];
    var count := 0;
    while count < |lines|
      invariant 0 <= count <= |lines|
      invariant ParseConf(lines[..count]) == Ok(Conf(items, posns))
    {
      assert lines[..count + 1][..count] == lines[..count];
      var origLine := lines[count];
      count := count + 1;
      var line := Strip(origLine);
      if line == "" || StartsWith(line, "#") {
        posns := posns + [Note(origLine)];
        continue;
      } else if '=' !in line {
        r := Err(GiveUp("Cannot parse branch.conf - no '=' in line " + DecimalString(count) + ":\n    " + line));
        ParseConfStops(lines, count);
        return;
      }
      var words := Split(line, '=');
      var key := Strip(words[0]);
      var val := Value(line);
      items := items[key := val];
      posns := posns + [Setting(key, origLine)];
    }
    assert lines[..count] == lines;
    r := Ok(Conf(items, posns));
  }

  /** A line that cannot be read is the error of the whole file. */
  lemma {:induction false} ParseConfStops(lines: seq<string>, n: nat)
    requires 0 < n <= |lines|
    requires ParseConf(lines[..n - 1]).Ok? && Entry(lines[n - 1], n).Err?
    ensures ParseConf(lines) == Err(Entry(lines[n - 1], n).error)
    decreases |lines|
  {
    if n < |lines| {
      var init := lines[..|lines| - 1];
      assert init[..n - 1] == lines[..n - 1] && init[n - 1] == lines[n - 1];
      ParseConfStops(init, n);
    } else {
      assert lines[..n - 1] == lines[..|lines| - 1];
    }
  }

  /** A line reading cannot get past: a setting with no '='. */
  predicate Unreadable(orig: string) {
    !IsNote(orig) && '=' !in Strip(orig)
  }

  /** Reading one more line fails when the lines before it fail or when it
      cannot be read, and then with one of those errors. */
  lemma ParseConfStep(lines: seq<string>)
    requires lines != []
    ensures var init := ParseConf(lines[..|lines| - 1]);
      var e := Entry(lines[|lines| - 1], |lines|);
      && (ParseConf(lines).Err? <==> init.Err? || e.Err?)
      && (ParseConf(lines).Err? ==> (init.Err? && ParseConf(lines).error == init.error) || (e.Err? && ParseConf(lines).error == e.error))
  {
  }

  /** A file fails to read exactly when one of its lines is a setting
      with no '=', and then with a GiveUp. */
  lemma {:induction false} ParseConfFails(lines: seq<string>)
    ensures ParseConf(lines).Err? <==> exists i | 0 <= i < |lines| :: Unreadable(lines[i])
    ensures ParseConf(lines).Err? ==> ParseConf(lines).error.GiveUp?
    decreases |lines|
  {
    if lines != [] {
      var init := lines[..|lines| - 1];
      ParseConfFails(init);
      ParseConfStep(lines);
      var e := Entry(lines[|lines| - 1], |lines|);
      assert e.Err? <==> Unreadable(lines[|lines| - 1]);
      if exists i | 0 <= i < |lines| :: Unreadable(lines[i]) {
        var i :| 0 <= i < |lines| && Unreadable(lines[i]);
        if i < |init| {
          assert Unreadable(init[i]);
        }
      }
      if exists i | 0 <= i < |init| :: Unreadable(init[i]) {
        var i :| 0 <= i < |init| && Unreadable(init[i]);
        assert Unreadable(lines[i]);
      }
    }
  }

  /** A file that reads adds its last line to what the lines before it
      read to. */
  lemma ParseConfOkStep(lines: seq<string>)
    requires lines != [] && ParseConf(lines).Ok?
    ensures ParseConf(lines[..|lines| - 1]).Ok? && Entry(lines[|lines| - 1], |lines|).Ok?
    ensures var c := ParseConf(lines[..|lines| - 1]).value;
      var last := lines[|lines| - 1];
      var e := Entry(last, |lines|).value;
      ParseConf(lines).value ==
        if e.None? then Conf(c.items, c.posns + [Note(last)])
        else Conf(c.items[e.value.0 := e.value.1], c.posns + [Setting(e.value.0, last)])
  {
  }

  /** The position reading makes of a line. */
  ghost predicate Matches(p: Posn, orig: string) {
    p.orig == orig && (p.Note? <==> IsNote(orig))
  }

  /** The positions made of the lines before the last, and the position
      made of the last, make the positions of all the lines. */
  lemma MatchesStep(posns: seq<Posn>, lines: seq<string>, p: Posn)
    requires lines != [] && |posns| == |lines| - 1
    requires forall i | 0 <= i < |posns| :: Matches(posns[i], lines[i])
    requires Matches(p, lines[|lines| - 1])
    ensures forall i | 0 <= i < |lines| :: Matches((posns + [p])[i], lines[i])
  {
  }

  /** The lines of the file become the positions one for one: a note for a
      blank or comment line, a setting otherwise. */
  lemma {:induction false} ParseConfPositions(lines: seq<string>)
    requires ParseConf(lines).Ok?
    ensures |ParseConf(lines).value.posns| == |lines|
    ensures forall i | 0 <= i < |lines| :: Matches(ParseConf(lines).value.posns[i], lines[i])
    decreases |lines|
  {
    if lines != [] {
      var init := lines[..|lines| - 1];
      var last := lines[|lines| - 1];
      ParseConfOkStep(lines);
      ParseConfPositions(init);
      var c := ParseConf(init).value;
      var e := Entry(last, |lines|).value;
      var p := if e.None? then Note(last) else Setting(e.value.0, last);
      assert Matches(p, last);
      MatchesStep(c.posns, lines, p);
    }
  }

  /** Every setting of the positions has a value. */
  ghost predicate Keyed(c: Conf) {
    forall i | 0 <= i < |c.posns| && c.posns[i].Setting? :: c.posns[i].key in c.items
  }

  /** Every setting of the positions has a key as reading leaves it. */
  ghost predicate KeysShaped(c: Conf) {
    forall i | 0 <= i < |c.posns| && c.posns[i].Setting? :: KeyShape(c.posns[i].key)
  }

  /** A comment or blank line keeps both. */
  lemma KeyedNote(c: Conf, orig: string)
    requires Keyed(c) && KeysShaped(c)
    ensures Keyed(Conf(c.items, c.posns + [Note(orig)]))
    ensures KeysShaped(Conf(c.items, c.posns + [Note(orig)]))
  {
    var c' := Conf(c.items, c.posns + [Note(orig)]);
    forall i | 0 <= i < |c'.posns| && c'.posns[i].Setting?
      ensures c'.posns[i].key in c'.items && KeyShape(c'.posns[i].key)
    {
      assert c'.posns[i] == c.posns[i];
    }
  }

  /** A setting keeps every setting's value. */
  lemma KeyedSetting(c: Conf, key: string, value: string, orig: string)
    requires Keyed(c)
    ensures Keyed(Conf(c.items[key := value], c.posns + [Setting(key, orig)]))
  {
    var c' := Conf(c.items[key := value], c.posns + [Setting(key, orig)]);
    forall i | 0 <= i < |c'.posns| && c'.posns[i].Setting?
      ensures c'.posns[i].key in c'.items
    {
      if i < |c.posns| {
        assert c'.posns[i] == c.posns[i];
      }
    }
  }

  /** A setting with a key as reading leaves it keeps the keys' shape. */
  lemma ShapedSetting(posns: seq<Posn>, key: string, orig: string)
    requires forall i | 0 <= i < |posns| && posns[i].Setting? :: KeyShape(posns[i].key)
    requires KeyShape(key)
    ensures var p := posns + [Setting(key, orig)];
      forall i | 0 <= i < |p| && p[i].Setting? :: KeyShape(p[i].key)
  {
    var p := posns + [Setting(key, orig)];
    forall i | 0 <= i < |p| && p[i].Setting?
      ensures KeyShape(p[i].key)
    {
      if i < |posns| {
        assert p[i] == posns[i];
      }
    }
  }

  /** Every setting's key has the shape of a key and a value in the items. */
  lemma {:induction false} ParseConfKeyed(lines: seq<string>)
    requires ParseConf(lines).Ok?
    ensures Keyed(ParseConf(lines).value) && KeysShaped(ParseConf(lines).value)
    decreases |lines|
  {
    if lines != [] {
      var init := lines[..|lines| - 1];
      var last := lines[|lines| - 1];
      ParseConfOkStep(lines);
      ParseConfKeyed(init);
      var c := ParseConf(init).value;
      var e := Entry(last, |lines|).value;
      if e.Some? {
        KeyOfSetting(last);
        KeyedSetting(c, e.value.0, e.value.1, last);
        ShapedSetting(c.posns, e.value.0, last);
      } else {
        KeyedNote(c, last);
      }
    }
  }

  /** Every key of the items comes from one of the positions. */
  ghost predicate KeysFrom(c: Conf) {
    forall k | k in c.items :: exists i | 0 <= i < |c.posns| :: c.posns[i].Setting? && c.posns[i].key == k
  }

  /** Every key of the items comes from one of the lines. */
  lemma {:induction false} ParseConfKeysFrom(lines: seq<string>)
    requires ParseConf(lines).Ok?
    ensures KeysFrom(ParseConf(lines).value)
    decreases |lines|
  {
    if lines != [] {
      var init := lines[..|lines| - 1];
      ParseConfOkStep(lines);
      ParseConfKeysFrom(init);
      var c := ParseConf(init).value;
      var c' := ParseConf(lines).value;
      forall k | k in c'.items
        ensures exists i | 0 <= i < |c'.posns| :: c'.posns[i].Setting? && c'.posns[i].key == k
      {
        if k in c.items {
          var i :| 0 <= i < |c.posns| && c.posns[i].Setting? && c.posns[i].key == k;
          assert c'.posns[i] == c.posns[i];
        } else {
          assert c'.posns[|c'.posns| - 1].key == k;
        }
      }
    }
  }

  /** The key read from a setting line has the shape of a key. */
  lemma KeyOfSetting(orig: string)
    requires !IsNote(orig) && '=' in Strip(orig)
    ensures KeyShape(Strip(Split(Strip(orig), '=')[0]))
  {
    var line := Strip(orig);
    var k := Find(line, '=');
    var w := Split(line, '=')[0];
    assert w == line[..k];
    var key := Strip(w);
    assert '=' !in w;
    if key != "" {
      assert line[0] != '#';
      assert !IsSpace(line[0]);
      assert key == StripRight(StripLeft(w));
      assert StripLeft(w) == w by {
        assert w != "" && w[0] == line[0];
      }
      assert key[0] == w[0];
    }
  }

  // ---------------------------------------------------------------------
  // reparent: deciding and writing

  /** The values as reparent changes them: None for a key to forget. */
  function Lifted(items: map<string, string>): map<string, Option<string>> {
    map k | k in items :: Some(items[k])
  }

  /** What reparent decides to write, or None if it leaves the file alone.
      With force, the push location is forgotten and the parent location
      set; without, the parent location is set only if there is none. A
      parent location not there before goes at the end. */
  function Decide(c: Conf, remote: string, force: bool): Option<(map<string, Option<string>>, seq<Posn>)> {
    var posns := if ParentLocation !in c.items then c.posns + [Setting(ParentLocation, remote)] else c.posns;
    if force then
      var items := if PushLocation in c.items then Lifted(c.items)[PushLocation := None] else Lifted(c.items);
      Some((items[ParentLocation := Some(remote)], posns))
    else if ParentLocation !in c.items then
      Some((Lifted(c.items)[ParentLocation := Some(remote)], posns))
    else None
  }

  /** The lines written for one position. */
  function WriteOne(p: Posn, items: map<string, Option<string>>): seq<string> {
    match p
    case Note(orig) => [orig]
    case Setting(key, orig) =>
      if key !in items then [orig]
      else if items[key].None? then []
      else [SettingLine(key, items[key].value)]
  }

  /** The lines written for the positions in turn. */
  function Written(posns: seq<Posn>, items: map<string, Option<string>>): seq<string> {
    if posns == [] then [] else Written(posns[..|posns| - 1], items) + WriteOne(posns[|posns| - 1], items)
  }

  /** The writing loop of reparent. */
  method WriteBranchConf(posns: seq<Posn>, items: map<string, Option<string>>) returns (out: seq<string>)
    ensures out == Written(posns, items)
  {
    out := [];
    var i := 0;
    while i < |posns|
      invariant 0 <= i <= |posns|
      invariant out == Written(posns[..i], items)
    {
      assert posns[..i + 1][..i] == posns[..i];
      var p := posns[i];
      if p.Note? {
        out := out + [p.orig];
      } else if p.key in items {
        if items[p.key].Some? {
          out := out + [SettingLine(p.key, items[p.key].value)];
        }
      } else {
        out := out + [p.orig];
      }
      i := i + 1;
    }
    assert posns[..i] == posns;
  }

  /** The new branch.conf, if reparent writes one. */
  function ReparentSpec(lines: seq<string>, url: string, force: bool): Result<Option<seq<string>>> {
    var c :- ParseConf(lines);
    var d := Decide(c, NormalisedRepo(url), force);
    if d.None? then Ok(None) else Ok(Some(Written(d.value.1, d.value.0)))
  }

  /** reparent(co_leaf, remote_repo, options, force): the lines of
      branch.conf in, and the lines written back, if any, out. */
  method Reparent(lines: seq<string>, remoteRepo: Repositories.Repository, force: bool) returns (r: Result<Option<seq<string>>>)
    ensures r == ReparentSpec(lines, remoteRepo.url, force)
  {
    var remote := NormalisedRepo(remoteRepo.url);
    var conf := ReadBranchConf(lines);
    if conf.Err? {
      return Err(conf.error);
    }
    var d := Decide(conf.value, remote, force);
    if d.None? {
      return Ok(None);
    }
    var out := WriteBranchConf(d.value.1, d.value.0);
    r := Ok(Some(out));
  }

  /** Written lines of two runs of positions. */
  lemma {:induction false} WrittenConcat(a: seq<Posn>, b: seq<Posn>, items: map<string, Option<string>>)
    ensures Written(a + b, items) == Written(a, items) + Written(b, items)
    decreases |b|
  {
    if b != [] {
      var init := b[..|b| - 1];
      assert (a + b)[..|a + b| - 1] == a + init;
      assert (a + b)[|a + b| - 1] == b[|b| - 1];
      WrittenConcat(a, init, items);
    } else {
      assert a + b == a;
    }
  }

  /** Positions whose keys the new values leave as they were write the
      same lines. */
  lemma {:induction false} WrittenSame(posns: seq<Posn>, items: map<string, Option<string>>, items': map<string, Option<string>>)
    requires forall i | 0 <= i < |posns| && posns[i].Setting? ::
      posns[i].key in items && posns[i].key in items' && items[posns[i].key] == items'[posns[i].key]
    ensures Written(posns, items) == Written(posns, items')
    decreases |posns|
  {
    if posns != [] {
      WrittenSame(posns[..|posns| - 1], items, items');
    }
  }

  /** Without force, what reparent decides about a file it has read. */
  lemma DecideWithoutForce(c: Conf, remote: string)
    requires Keyed(c)
    ensures ParentLocation in c.items ==> Decide(c, remote, false).None?
    ensures ParentLocation !in c.items ==> Decide(c, remote, false).Some?
    ensures ParentLocation !in c.items ==>
      (var d := Decide(c, remote, false).value;
       Written(d.1, d.0) == Written(c.posns, Lifted(c.items)) + [SettingLine(ParentLocation, remote)])
  {
    if ParentLocation !in c.items {
      var items := Lifted(c.items)[ParentLocation := Some(remote)];
      WrittenSame(c.posns, Lifted(c.items), items);
      WrittenConcat(c.posns, [Setting(ParentLocation, remote)], items);
      assert Written([Setting(ParentLocation, remote)], items) == [SettingLine(ParentLocation, remote)];
    }
  }

  /** Without force: a file that names a parent location is left alone;
      otherwise the parent location is added at the end and every other
      line is written as read (a setting with the value last given for
      its key). */
  lemma ReparentWithoutForce(lines: seq<string>, url: string)
    requires ParseConf(lines).Ok?
    ensures var c := ParseConf(lines).value;
      ParentLocation in c.items ==> ReparentSpec(lines, url, false) == Ok(None)
    ensures var c := ParseConf(lines).value;
      (ParentLocation !in c.items ==>
         ReparentSpec(lines, url, false) == Ok(Some(Written(c.posns, Lifted(c.items)) + [SettingLine(ParentLocation, NormalisedRepo(url))])))
  {
    ParseConfKeyed(lines);
    DecideWithoutForce(ParseConf(lines).value, NormalisedRepo(url));
  }

  /** The line written with force for one position: comment and blank
      lines as they were, nothing for the push location, the remote
      repository for the parent location, and any other setting with its
      value. */
  predicate Forced(p: Posn, written: seq<string>, items: map<string, string>, remote: string) {
    match p
    case Note(orig) => written == [orig]
    case Setting(key, _) =>
      && (key == PushLocation ==> written == [])
      && (key == ParentLocation ==> written == [SettingLine(ParentLocation, remote)])
      && (key != PushLocation && key != ParentLocation ==> key in items && written == [SettingLine(key, items[key])])
  }

  /** With force, what reparent decides about a file it has read. */
  lemma DecideWithForce(c: Conf, remote: string)
    requires Keyed(c) && KeysFrom(c)
    ensures Decide(c, remote, true).Some?
    ensures var d := Decide(c, remote, true).value;
      && d.1 == (if ParentLocation in c.items then c.posns else c.posns + [Setting(ParentLocation, remote)])
      && (forall i | 0 <= i < |d.1| :: Forced(d.1[i], WriteOne(d.1[i], d.0), c.items, remote))
      && (exists i | 0 <= i < |d.1| :: d.1[i].Setting? && d.1[i].key == ParentLocation)
  {
    var d := Decide(c, remote, true).value;
    forall i | 0 <= i < |d.1|
      ensures Forced(d.1[i], WriteOne(d.1[i], d.0), c.items, remote)
    {
      if i < |c.posns| {
        assert d.1[i] == c.posns[i];
      }
    }
    if ParentLocation !in c.items {
      assert d.1[|d.1| - 1] == Setting(ParentLocation, remote);
    } else {
      var i :| 0 <= i < |c.posns| && c.posns[i].Setting? && c.posns[i].key == ParentLocation;
      assert d.1[i] == c.posns[i];
    }
  }

  /** With force: the file is always written, one position after another,
      as Forced says. */
  lemma ReparentWithForce(lines: seq<string>, url: string)
    requires ParseConf(lines).Ok?
    ensures ReparentSpec(lines, url, true).Ok? && ReparentSpec(lines, url, true).value.Some?
    ensures var c := ParseConf(lines).value;
      var d := Decide(c, NormalisedRepo(url), true).value;
      && ReparentSpec(lines, url, true).value.value == Written(d.1, d.0)
      && d.1 == (if ParentLocation in c.items then c.posns else c.posns + [Setting(ParentLocation, NormalisedRepo(url))])
      && (forall i | 0 <= i < |d.1| :: Forced(d.1[i], WriteOne(d.1[i], d.0), c.items, NormalisedRepo(url)))
      && (exists i | 0 <= i < |d.1| :: d.1[i].Setting? && d.1[i].key == ParentLocation)
  {
    ParseConfKeyed(lines);
    ParseConfKeysFrom(lines);
    DecideWithForce(ParseConf(lines).value, NormalisedRepo(url));
  }
}
