/** Subversion as muddle drives it: the arguments it gives svn, the status
    report it makes of `svn status` output, the revision it reads from
    `svnversion`, and its refusal of muddle branches. */
module Subversion {
  import opened Wrappers
  import opened Text
  import Repositories

  // ---------------------------------------------------------------------
  // _r_option and the commands

  /** _r_option(revision): no option for no revision or HEAD, otherwise
      "-r" and the revision. */
  function ROption(revision: Option<string>): seq<string> {
    if revision.None? || revision.value == "HEAD" then [] else ["-r", revision.value]
  }

  /** Subversion has no branches in the muddle sense: an operation given
      one gives up. */
  function RefuseBranch(branch: Option<string>, operation: string): (o: Outcome)
    ensures o.Fail? <==> Repositories.Given(branch)
    ensures o.Fail? ==> o.error.GiveUp?
  {
    if Repositories.Given(branch) then
      Fail(GiveUp("Subversion does not support branch in '" + operation + "' (branch='" + branch.value + "')"))
    else Pass
  }

  /** checkout(repo, co_leaf, ...): svn checkout of the URL into the leaf. */
  function CheckoutCommand(repo: Repositories.Repository, coLeaf: string): Result<seq<string>> {
    var refused := RefuseBranch(repo.branch, "checkout");
    if refused.Fail? then Err(refused.error)
    else Ok(["svn", "checkout"] + ROption(repo.revision) + [repo.url, coLeaf])
  }

  /** The update that pull and merge run. */
  function UpdateCommand(revision: Option<string>): seq<string> {
    ["svn", "update"] + ROption(revision)
  }

  /** merge(other_repo, ...): Subversion's update, not its merge. */
  function MergeCommand(other: Repositories.Repository): Result<seq<string>> {
    var refused := RefuseBranch(other.branch, "merge");
    if refused.Fail? then Err(refused.error)
    else Ok(UpdateCommand(other.revision))
  }

  /** commit(repo, ...) runs nothing: there is no local repository. */
  function CommitCommands(repo: Repositories.Repository): seq<seq<string>> {
    []
  }

  /** push(repo, ...) commits to the remote repository. */
  function PushCommands(repo: Repositories.Repository): seq<seq<string>> {
    [["svn", "commit"]]
  }

  /** must_pull_before_commit(options). */
  const MustPullBeforeCommit := true

  /** The revision option names the revision unless it is HEAD, which is
      the same as naming none; checkout puts it between the command and
      the URL, and gives up on a branch. */
  lemma CheckoutArguments(repo: Repositories.Repository, coLeaf: string)
    ensures ROption(Some("HEAD")) == ROption(None) == []
    ensures repo.revision.Some? && repo.revision.value != "HEAD" ==> ROption(repo.revision) == ["-r", repo.revision.value]
    ensures CheckoutCommand(repo, coLeaf).Err? <==> Repositories.Given(repo.branch)
    ensures CheckoutCommand(repo, coLeaf).Err? ==> CheckoutCommand(repo, coLeaf).error.GiveUp?
    ensures CheckoutCommand(repo, coLeaf).Ok? ==>
      var argv := CheckoutCommand(repo, coLeaf).value;
      && argv[..2] == ["svn", "checkout"]
      && argv[|argv| - 2..] == [repo.url, coLeaf]
      && argv[2..|argv| - 2] == ROption(repo.revision)
    ensures MergeCommand(repo).Err? <==> Repositories.Given(repo.branch)
    ensures MergeCommand(repo).Ok? ==> MergeCommand(repo).value == UpdateCommand(repo.revision)
  {
    if CheckoutCommand(repo, coLeaf).Ok? {
      var argv := CheckoutCommand(repo, coLeaf).value;
      assert argv == ["svn", "checkout"] + ROption(repo.revision) + [repo.url, coLeaf];
    }
  }

  /** Committing leaves everything to push, which is why a pull comes
      first. */
  lemma CommitLeavesItToPush(repo: Repositories.Repository)
    ensures CommitCommands(repo) == []
    ensures PushCommands(repo) == [["svn", "commit"]]
    ensures MustPullBeforeCommit
  {
  }

  // ---------------------------------------------------------------------
  // pull: the conflict check

  /** The status columns pull looks at (0, 1 and 6), indexed as Python
      does: a line shorter than seven characters raises IndexError. */
  function ConflictColumns(line: string): (r: Result<bool>)
    ensures r.Err? <==> |line| < 7
    ensures r.Ok? ==> (r.value <==> 'C' in [line[0], line[1], line[6]])
  {
    if |line| < 7 then Err(Crash("IndexError: string index out of range"))
    else Ok(line[0] == 'C' || line[1] == 'C' || line[6] == 'C')
  }

  /** An item pull's loop gets past: long enough for the three columns,
      and no 'C' in them. */
  predicate Clean(item: string) {
    |item| >= 7 && 'C' !in [item[0], item[1], item[6]]
  }

  /** The loop of pull's conflict check over whatever it iterates: an item
      too short for the columns raises IndexError, and an item showing a
      conflict raises TypeError, the GiveUp's message having two '%s' for
      one argument. */
  method CheckColumns(items: seq<string>) returns (o: Outcome)
    ensures o == Pass <==> forall i | 0 <= i < |items| :: Clean(items[i])
    ensures o.Fail? ==> o.error.Crash?
  {
    var i := 0;
    while i < |items|
      invariant 0 <= i <= |items|
      invariant forall j | 0 <= j < i :: Clean(items[j])
    {
      var cols := ConflictColumns(items[i]);
      if cols.Err? {
        return Fail(cols.error);
      }
      if cols.value {
        return Fail(Crash("TypeError: not enough arguments for format string"));
      }
      i := i + 1;
    }
    o := Pass;
  }

  /** The characters of a string, each as a string of its own: what
      `for line in text` walks when text is a string. */
  function Chars(text: string): (r: seq<string>)
    ensures |r| == |text|
    ensures forall i | 0 <= i < |r| :: r[i] == [text[i]]
  {
    seq(|text|, i requires 0 <= i < |text| => [text[i]])
  }

  /** The conflict check of pull as written: it walks the characters of
      the output of `svn status`, not its lines, so any output at all
      stops pull with IndexError. */
  method ConflictCheckAsWritten(text: string) returns (o: Outcome)
    ensures o == Pass <==> text == ""
    ensures o.Fail? ==> o.error.Crash?
  {
    o := CheckColumns(Chars(text));
    if text != "" {
      assert !Clean(Chars(text)[0]);
    }
  }

  /** A line of `svn status` showing a conflict: 'C' in column 0, 1 or 6,
      as far as the line reaches. */
  predicate Conflicted(line: string) {
    (|line| > 0 && line[0] == 'C') || (|line| > 1 && line[1] == 'C') || (|line| > 6 && line[6] == 'C')
  }

  /** The conflict check of pull, line by line: any line showing a
      conflict makes pull give up. */
  method ConflictCheck(text: string) returns (o: Outcome)
    ensures o.Fail? <==> exists i | 0 <= i < |Split(text, '\n')| :: Conflicted(Split(text, '\n')[i])
    ensures o.Fail? ==> o.error.GiveUp?
  {
    var lines := Split(text, '\n');
    var i := 0;
    while i < |lines|
      invariant 0 <= i <= |lines|
      invariant forall j | 0 <= j < i :: !Conflicted(lines[j])
    {
      if Conflicted(lines[i]) {
        assert Conflicted(Split(text, '\n')[i]);
        return Fail(GiveUp("'svn status' says there is a Conflict, refusing to pull:\n" + text
                           + "\nUse 'muddle merge' if you want to merge"));
      }
      i := i + 1;
    }
    o := Pass;
  }

  /** pull(repo, ...) given the output of `svn status`: a branch is
      refused, a conflict stops it, and otherwise it updates to the
      repository's revision. */
  method Pull(repo: Repositories.Repository, statusText: string) returns (r: Result<seq<string>>)
    ensures r.Err? <==>
      (Repositories.Given(repo.branch) || exists i | 0 <= i < |Split(statusText, '\n')| :: Conflicted(Split(statusText, '\n')[i]))
    ensures r.Err? ==> r.error.GiveUp?
    ensures r.Ok? ==> r.value == UpdateCommand(repo.revision)
  {
    var refused := RefuseBranch(repo.branch, "pull");
    if refused.Fail? {
      return Err(refused.error);
    }
    var checked := ConflictCheck(statusText);
    if checked.Fail? {
      return Err(checked.error);
    }
    r := Ok(UpdateCommand(repo.revision));
  }

  /** goto_revision(revision, branch, repo): a branch is refused, a
      missing repository is a bug, and otherwise the repository is pulled
      at that revision. */
  method GotoRevision(revision: string, branch: Option<string>, repo: Option<Repositories.Repository>, statusText: string)
    returns (r: Result<seq<string>>)
    ensures Repositories.Given(branch) ==> r.Err? && r.error.GiveUp?
    ensures !Repositories.Given(branch) && repo.None? ==> r.Err? && r.error.MuddleBug?
    ensures r.Ok? ==> repo.Some? && r.value == UpdateCommand(Some(revision))
    ensures !Repositories.Given(branch) && repo.Some? ==>
      (r.Err? <==> Repositories.Given(repo.value.branch)
                   || exists i | 0 <= i < |Split(statusText, '\n')| :: Conflicted(Split(statusText, '\n')[i]))
  {
    if Repositories.Given(branch) {
      return Err(GiveUp("Subversion does not support branch (in the muddle sense), branch=" + branch.value));
    }
    if repo.None? {
      return Err(MuddleBug("Subversion needs a Repository instance to do goto_revision()"));
    }
    r := Pull(Repositories.CopyWithChangedRevision(repo.value, Some(revision)), statusText);
  }

  // ---------------------------------------------------------------------
  // status

  /** line.startswith(' ' * 7) */
  predicate SevenSpaced(line: string) {
    |line| >= 7 && forall i | 0 <= i < 7 :: line[i] == ' '
  }

  /** A line status cannot judge: seven spaces and no ninth character,
      which Python's line[8] refuses with IndexError. */
  predicate TooShort(line: string) {
    SevenSpaced(line) && |line| < 9
  }

  /** A line worth reporting: not blank, and not seven spaces with a space
      in the ninth column (nothing to say about that file). */
  predicate Remarkable(line: string) {
    line != "" && !(SevenSpaced(line) && |line| > 8 && line[8] == ' ')
  }

  /** One line of `svn status --show-updates --verbose` judged: kept or
      not, or the IndexError of a short line. */
  function Judge(line: string): (r: Result<bool>)
    ensures r.Err? <==> TooShort(line)
    ensures r.Err? ==> r.error.Crash?
    ensures r.Ok? ==> (r.value <==> Remarkable(line))
  {
    if SevenSpaced(line) && |line| < 9 then Err(Crash("IndexError: string index out of range"))
    else if SevenSpaced(line) && line[8] == ' ' then Ok(false)
    else if line == "" then Ok(false)
    else Ok(true)
  }

  /** The lines kept, in order; the first line that cannot be judged
      stops it. */
  function Filtered(lines: seq<string>): Result<seq<string>> {
    if lines == [] then Ok([])
    else
      var init :- Filtered(lines[..|lines| - 1]);
      var keep :- Judge(lines[|lines| - 1]);
      Ok(if keep then init + [lines[|lines| - 1]] else init)
  }

  const QuickMessage := "muddle status -quick is not supported on svn checkouts"
  const NothingNew := "Status against revision"

  /** What is left to report: nothing when the one line kept only says
      which revision the status is against. */
  function Reported(stuff: seq<string>): seq<string> {
    if |stuff| == 1 && StartsWith(stuff[0], NothingNew) then [] else stuff
  }

  /** The status report for the output of `svn status`: None when there is
      nothing to report, otherwise the kept lines and a blank line. */
  function StatusSpec(quick: bool, text: string): Result<Option<string>> {
    if quick then Ok(Some(QuickMessage))
    else
      var stuff :- Filtered(Split(text, '\n'));
      var shown := Reported(stuff);
      if shown == [] then Ok(None) else Ok(Some(Join(shown + [""], "\n")))
  }

  /** Filtering one more line. */
  lemma FilteredStep(lines: seq<string>, i: nat)
    requires i < |lines| && Filtered(lines[..i]).Ok? && Judge(lines[i]).Ok?
    ensures Filtered(lines[..i + 1]) ==
      Ok(if Judge(lines[i]).value then Filtered(lines[..i]).value + [lines[i]] else Filtered(lines[..i]).value)
  {
    assert lines[..i + 1][..i] == lines[..i];
  }

  /** A line that cannot be judged is the error of the whole output. */
  lemma {:induction false} FilteredStops(lines: seq<string>, n: nat)
    requires 0 < n <= |lines|
    requires Filtered(lines[..n - 1]).Ok? && Judge(lines[n - 1]).Err?
    ensures Filtered(lines) == Err(Judge(lines[n - 1]).error)
    decreases |lines|
  {
    if n < |lines| {
      var init := lines[..|lines| - 1];
      assert init[..n - 1] == lines[..n - 1] && init[n - 1] == lines[n - 1];
      FilteredStops(init, n);
    } else {
      assert lines[..n - 1] == lines[..|lines| - 1];
    }
  }

  /** status(repo, options, quick): the loop over the lines of the output
      keeps the remarkable ones. */
  method Status(quick: bool, text: string) returns (r: Result<Option<string>>)
    ensures r == StatusSpec(quick, text)
  {
    if quick {
      return Ok(Some(QuickMessage));
    }
    var lines := Split(text, '\n');
    var stuff: seq<string> := [];
    var i := 0;
    while i < |lines|
      invariant 0 <= i <= |lines|
      invariant Filtered(lines[..i]) == Ok(stuff)
    {
      var line := lines[i];
      if SevenSpaced(line) && |line| < 9 {
        FilteredStops(lines, i + 1);
        return Err(Crash("IndexError: string index out of range"));
      }
      FilteredStep(lines, i);
      if SevenSpaced(line) && line[8] == ' ' {
      } else if line == "" {
      } else {
        stuff := stuff + [line];
      }
      i := i + 1;
    }
    assert lines[..i] == lines;
    if |stuff| == 1 && StartsWith(stuff[0], NothingNew) {
      stuff := [];
    }
    if stuff != [] {
      r := Ok(Some(Join(stuff + [""], "\n")));
    } else {
      r := Ok(None);
    }
  }

  /** Filtering fails exactly when a line cannot be judged, and otherwise
      keeps exactly the remarkable lines, none of them holding a newline. */
  lemma {:induction false} FilteredExactly(lines: seq<string>)
    ensures Filtered(lines).Err? <==> exists i | 0 <= i < |lines| :: TooShort(lines[i])
    ensures Filtered(lines).Err? ==> Filtered(lines).error.Crash?
    ensures Filtered(lines).Ok? ==>
      && (forall l :: l in Filtered(lines).value <==> l in lines && Remarkable(l))
      && |Filtered(lines).value| <= |lines|
    decreases |lines|
  {
    if lines != [] {
      var init := lines[..|lines| - 1];
      var last := lines[|lines| - 1];
      FilteredExactly(init);
      assert lines == init + [last];
      if exists i | 0 <= i < |lines| :: TooShort(lines[i]) {
        var i :| 0 <= i < |lines| && TooShort(lines[i]);
        if i < |init| {
          assert TooShort(init[i]);
        }
      }
      if exists i | 0 <= i < |init| :: TooShort(init[i]) {
        var i :| 0 <= i < |init| && TooShort(init[i]);
        assert TooShort(lines[i]);
      }
      forall l ensures l in lines <==> l in init || l == last {
      }
    }
  }

  /** The report of the output of `svn status`: an error exactly when a
      line cannot be judged, and nothing when no line is remarkable or the
      only one says which revision the status is against. */
  lemma StatusOutcome(text: string)
    ensures StatusSpec(true, text) == Ok(Some(QuickMessage))
    ensures var lines := Split(text, '\n');
      StatusSpec(false, text).Err? <==> exists i | 0 <= i < |lines| :: TooShort(lines[i])
    ensures var stuff := Filtered(Split(text, '\n'));
      stuff.Ok? ==> (StatusSpec(false, text) == Ok(None) <==> Reported(stuff.value) == [])
  {
    FilteredExactly(Split(text, '\n'));
  }

  /** A report, split into lines, is the remarkable lines of the output of
      `svn status` and then a blank line. */
  lemma StatusLines(text: string)
    requires StatusSpec(false, text).Ok? && StatusSpec(false, text).value.Some?
    ensures var stuff := Filtered(Split(text, '\n'));
      && stuff.Ok?
      && Split(StatusSpec(false, text).value.value, '\n') == stuff.value + [""]
      && (forall l | l in stuff.value :: l in Split(text, '\n') && Remarkable(l))
  {
    var lines := Split(text, '\n');
    FilteredExactly(lines);
    var stuff := Filtered(lines).value;
    assert Reported(stuff) == stuff;
    var shown := stuff + [""];
    forall i | 0 <= i < |shown| ensures '\n' !in shown[i] {
      if i < |stuff| {
        assert stuff[i] in stuff;
      }
    }
    SplitJoin(shown, '\n');
  }

  // ---------------------------------------------------------------------
  // revision_to_checkout

  /** revision_to_checkout(repo, co_leaf, options, force, before) given the
      output of `svnversion`: a "before" is refused, and the stripped
      output is the revision if it is all digits. */
  function RevisionToCheckout(coLeaf: string, before: Option<string>, svnversion: string): (r: Result<string>)
    ensures r.Err? ==> r.error.GiveUp?
    ensures r.Ok? <==> !Repositories.Given(before) && AllDigits(Strip(svnversion))
    ensures r.Ok? ==> r.value == Strip(svnversion)
  {
    if Repositories.Given(before) then Err(GiveUp(coLeaf + ": \"before\" argument not currently supported"))
    else
      var revision := Strip(svnversion);
      if AllDigits(revision) then Ok(revision)
      else Err(GiveUp(coLeaf + ": 'svnversion' reports checkout has revision '" + revision + "'"))
  }

  /** The number svnversion prints for a clean working copy, with its
      newline, is the revision; a modified or mixed working copy ("1234M",
      "1234:1240") is refused. */
  lemma RevisionOfSvnversion(coLeaf: string, n: nat, mark: char)
    requires !IsDigit(mark) && !IsSpace(mark)
    ensures RevisionToCheckout(coLeaf, None, DecimalString(n) + "\n") == Ok(DecimalString(n))
    ensures RevisionToCheckout(coLeaf, None, DecimalString(n) + [mark] + "\n").Err?
  {
    var s := DecimalString(n);
    StripTrailing(s, "\n");
    var m := s + [mark];
    assert m[0] == s[0] && m[|m| - 1] == mark;
    StripTrailing(m, "\n");
    assert !IsDigit(m[|m| - 1]);
  }
}
