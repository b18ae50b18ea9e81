/** The interpatch sandbox script: two version stamps are read, the checkouts
    that only one of them has are reported, and the `git log` text between the
    revisions each stamp records is cut into commits.

    The script's own exception class is rendered as GiveUp; Python runtime
    errors that escape (ValueError from int(), ConfigParser's NoOptionError,
    IndexError, UnboundLocalError) are Crash. */
module Interpatch {
  import opened Wrappers
  import opened Text
  import Utils

  // ---------------------------------------------------------------------
  // Commit logs

  /** `log` without its leading empty lines. */
  function DropLeading(log: seq<string>): seq<string> {
    if log != [] && log[0] == "" then DropLeading(log[1..]) else log
  }

  /** `log` without its trailing empty lines. */
  function DropTrailing(log: seq<string>): seq<string> {
    if log != [] && log[|log| - 1] == "" then DropTrailing(log[..|log| - 1]) else log
  }

  /** What Commit.prune_log leaves of a message: the lines from the first
      non-empty one to the last non-empty one. */
  function Pruned(log: seq<string>): seq<string> {
    DropTrailing(DropLeading(log))
  }

  /** Dropping from the front leaves a suffix that starts with a non-empty
      line, and what it drops is empty. */
  lemma {:induction false} LeadingShape(log: seq<string>)
    ensures var r := DropLeading(log);
      && (r == [] || r[0] != "")
      && |r| <= |log| && r == log[|log| - |r|..]
      && forall i | 0 <= i < |log| - |r| :: log[i] == ""
  {
    if log != [] && log[0] == "" {
      LeadingShape(log[1..]);
      var r := DropLeading(log);
      assert log[1..][|log| - 1 - |r|..] == log[|log| - |r|..];
      forall i | 1 <= i < |log| - |r| ensures log[i] == "" {
        assert log[i] == log[1..][i - 1];
      }
    }
  }

  /** Dropping from the back leaves a prefix that ends with a non-empty line,
      and what it drops is empty. */
  lemma {:induction false} TrailingShape(log: seq<string>)
    ensures var r := DropTrailing(log);
      && (r == [] || r[|r| - 1] != "")
      && |r| <= |log| && r == log[..|r|]
      && forall i | |r| <= i < |log| :: log[i] == ""
  {
    if log != [] && log[|log| - 1] == "" {
      TrailingShape(log[..|log| - 1]);
      var r := DropTrailing(log);
      assert log[..|log| - 1][..|r|] == log[..|r|];
      forall i | |r| <= i < |log| - 1 ensures log[i] == "" {
        assert log[i] == log[..|log| - 1][i];
      }
    }
  }

  /** Pruning keeps one contiguous run of the log, from a non-empty line to a
      non-empty line, and drops only empty lines; it is empty exactly when
      every line is. */
  lemma PrunedShape(log: seq<string>)
    ensures Pruned(log) == [] <==> forall i | 0 <= i < |log| :: log[i] == ""
    ensures Pruned(log) != [] ==> Pruned(log)[0] != "" && Pruned(log)[|Pruned(log)| - 1] != ""
    ensures exists a, b ::
      && 0 <= a <= b <= |log|
      && Pruned(log) == log[a..b]
      && (forall i | 0 <= i < a :: log[i] == "")
      && (forall i | b <= i < |log| :: log[i] == "")
  {
    var lead := DropLeading(log);
    LeadingShape(log);
    TrailingShape(lead);
    var a := |log| - |lead|;
    var b := a + |Pruned(log)|;
    assert lead == log[a..];
    assert Pruned(log) == lead[..b - a];
    assert Pruned(log) == log[a..b];
    forall i | b <= i < |log| ensures log[i] == "" {
      assert log[i] == lead[i - a];
    }
    if Pruned(log) == [] {
      assert forall i | 0 <= i < |log| :: log[i] == "";
    }
  }

  /** Pruning a pruned log changes nothing. */
  lemma PrunedIdempotent(log: seq<string>)
    ensures Pruned(Pruned(log)) == Pruned(log)
  {
    var p := Pruned(log);
    LeadingShape(log);
    TrailingShape(DropLeading(log));
    assert DropLeading(p) == p;
    assert DropTrailing(p) == p;
  }

  /** A commit of the log: its id, its headers and its message lines. */
  class Commit {
    var cid: string
    var hdrs: map<string, string>
    var log: seq<string>

    constructor (cid: string, hdrs: map<string, string>, log: seq<string>)
      ensures this.cid == cid && this.hdrs == hdrs && this.log == Pruned(log)
    {
      this.cid := cid;
      this.hdrs := hdrs;
      this.log := log;
      new;
      PruneLog();
    }

    /** Drops the blank lines at the start and the end of the message. */
    method PruneLog()
      modifies this
      ensures log == Pruned(old(log))
      ensures cid == old(cid) && hdrs == old(hdrs)
    {
      var lines := log;
      var newLog: seq<string> := [];
      var started := false;
      var lastLine: nat := 0;
      for i := 0 to |lines|
        modifies {}
        invariant newLog == DropLeading(lines[..i])
        invariant started <==> newLog != []
        invariant started ==> lastLine < |newLog| && newLog[..lastLine + 1] == DropTrailing(newLog)
        invariant !started ==> lastLine == 0
      {
        var l := lines[i];
        ghost var lead := DropLeading(lines[..i + 1]);
        LeadingStep(lines, i);
        assert |l| > 0 <==> l != "";
        if |l| > 0 {
          started := true;
          lastLine := |newLog|;
        }
        if started {
          LastKept(newLog, lastLine, l);
          newLog := newLog + [l];
          assert newLog == lead;
        } else {
          assert lead == [];
        }
      }
      assert lines[..|lines|] == lines;
      var kept := newLog[..if lastLine + 1 <= |newLog| then lastLine + 1 else |newLog|];
      assert kept == DropTrailing(newLog) by {
        if !started { assert newLog == []; }
      }
      log := kept;
    }
  }

  lemma {:induction false} LeadingSnoc(log: seq<string>, l: string)
    ensures DropLeading(log + [l]) == if DropLeading(log) == [] && l == "" then [] else DropLeading(log) + [l]
    decreases |log|
  {
    if log == [] {
      assert DropLeading([l]) == if l == "" then DropLeading([]) else [l];
    } else if log[0] == "" {
      assert (log + [l])[1..] == log[1..] + [l];
      LeadingSnoc(log[1..], l);
    } else {
      assert DropLeading(log) == log;
    }
  }

  lemma LeadingStep(lines: seq<string>, i: nat)
    requires i < |lines|
    ensures DropLeading(lines[..i + 1]) ==
      if DropLeading(lines[..i]) == [] && lines[i] == "" then [] else DropLeading(lines[..i]) + [lines[i]]
  {
    assert lines[..i + 1] == lines[..i] + [lines[i]];
    LeadingSnoc(lines[..i], lines[i]);
  }

  /** Appending a line to a log whose last non-empty line is at `last`: the
      line is the new last non-empty line unless it is empty. */
  lemma LastKept(log: seq<string>, last: nat, l: string)
    requires l != "" ==> last == |log|
    requires l == "" ==> last < |log| && log[..last + 1] == DropTrailing(log)
    ensures (log + [l])[..last + 1] == DropTrailing(log + [l])
  {
    assert (log + [l])[..|log|] == log;
    if l == "" {
      assert (log + [l])[..last + 1] == log[..last + 1];
    } else {
      assert (log + [l])[..last + 1] == log + [l];
    }
  }

  // ---------------------------------------------------------------------
  // Lines of `git log` output

  /** The commit id on a commit line: the longest run of hexadecimal digits
      that ends the line, which is what searching for `([0-9a-fA-F]+)$`
      finds. */
  function HexTail(line: string): string {
    if line != [] && IsHexDigit(line[|line| - 1]) then HexTail(line[..|line| - 1]) + [line[|line| - 1]]
    else ""
  }

  /** The id is a suffix of the line made of hex digits, and the character
      before it, if any, is not one. */
  lemma {:induction false} HexTailShape(line: string)
    ensures var r := HexTail(line);
      && |r| <= |line| && r == line[|line| - |r|..]
      && (forall i | 0 <= i < |r| :: IsHexDigit(r[i]))
      && (|r| == |line| || !IsHexDigit(line[|line| - |r| - 1]))
  {
    if line != [] && IsHexDigit(line[|line| - 1]) {
      var init := line[..|line| - 1];
      HexTailShape(init);
      var r := HexTail(line);
      assert r == HexTail(init) + [line[|line| - 1]];
      assert init[|init| - |HexTail(init)|..] + [line[|line| - 1]] == line[|line| - |r|..];
    }
  }

  /** The line `commit <id>` that `git log` writes yields the id back. */
  lemma CommitLineId(id: string)
    requires id != [] && forall i | 0 <= i < |id| :: IsHexDigit(id[i])
    ensures HexTail("commit " + id) == id
  {
    var line := "commit " + id;
    var r := HexTail(line);
    HexTailShape(line);
    assert line[|line| - |id| - 1] == ' ';
    forall j | |line| - |id| <= j < |line| ensures IsHexDigit(line[j]) {
      assert line[j] == id[j - 7];
    }
    assert |r| == |id|;
    assert line[|line| - |id|..] == id;
  }

  /** The number of ':' characters `line` starts with. */
  function LeadingColons(line: string): (n: nat)
    ensures n <= |line|
    ensures forall i | 0 <= i < n :: line[i] == ':'
    ensures n == |line| || line[n] != ':'
  {
    if line != [] && line[0] == ':' then 1 + LeadingColons(line[1..]) else 0
  }

  /** A colon with something other than a colon just before it. */
  predicate KeyedColon(line: string, j: int)
    requires 0 < j < |line|
  {
    line[j] == ':' && line[j - 1] != ':'
  }

  /** Searching a line for `([^:]+):\s*(.*)$`, as the log parser does: the
      match starts at the first character that is not a colon and the key runs
      to the next colon; the value is the rest of the line less its leading
      whitespace. */
  function HeaderAsWritten(line: string): Option<(string, string)> {
    var i := LeadingColons(line);
    var k := Find(line[i..], ':');
    if k < 0 then None
    else Some((line[i..i + k], StripLeft(line[i + k + 1..])))
  }

  /** The search succeeds exactly when some colon has a non-colon just before
      it, and the key it finds is a non-empty run free of colons. */
  lemma HeaderAsWrittenShape(line: string)
    ensures HeaderAsWritten(line).Some? <==> exists j | 0 < j < |line| :: KeyedColon(line, j)
    ensures HeaderAsWritten(line).Some? ==>
      HeaderAsWritten(line).value.0 != "" && ':' !in HeaderAsWritten(line).value.0
  {
    var i := LeadingColons(line);
    var k := Find(line[i..], ':');
    if k < 0 {
      forall j | i <= j < |line| ensures line[j] != ':' {
        assert line[j] == line[i..][j - i];
      }
      assert forall j | 0 < j < |line| :: !KeyedColon(line, j);
    } else {
      assert line[i..][..k] == line[i..i + k];
      assert HeaderAsWritten(line).value.0 == line[i..][..k];
      assert KeyedColon(line, i + k) by { assert line[i..][k - 1] == line[i + k - 1]; }
    }
  }

  /** Header recognition as evidently intended: `git log` starts its header
      lines (Author, Date, Merge) at the first column and indents every
      message line, so only an unindented `Key: value` line is a header. */
  function Header(line: string): Option<(string, string)> {
    if line == "" || IsSpace(line[0]) then None else HeaderAsWritten(line)
  }

  /** A key free of colons, a colon, then the rest: the key and the rest less
      its leading whitespace. */
  lemma KeyColon(key: string, rest: string)
    requires key != "" && ':' !in key
    ensures HeaderAsWritten(key + (":" + rest)) == Some((key, StripLeft(rest)))
  {
    var line := key + (":" + rest);
    assert line[0] == key[0];
    assert LeadingColons(line) == 0;
    assert line[0..] == line;
    FindAfterFree(key, ":" + rest, ':');
    assert line[..|key|] == key;
    assert line[|key| + 1..] == rest;
  }

  /** The search takes an indented message line that holds a colon for a
      header, so the line is lost from the message; the corrected recognition
      leaves it in the message. */
  lemma IndentedColonIsHeaderAsWritten(indent: string, text: string, rest: string)
    requires indent != "" && forall i | 0 <= i < |indent| :: IsSpace(indent[i])
    requires ':' !in text
    ensures HeaderAsWritten(indent + text + ":" + rest) == Some((indent + text, StripLeft(rest)))
    ensures Header(indent + text + ":" + rest) == None
  {
    var key := indent + text;
    assert ':' !in key by {
      forall i | 0 <= i < |key| ensures key[i] != ':' {
        if i < |indent| { assert IsSpace(indent[i]); } else { assert key[i] == text[i - |indent|]; }
      }
    }
    assert key + ":" + rest == key + (":" + rest);
    KeyColon(key, rest);
    assert (key + (":" + rest))[0] == indent[0];
  }

  lemma LeadingSpace(value: string)
    requires value == "" || !IsSpace(value[0])
    ensures StripLeft(" " + value) == value
  {
    assert (" " + value)[1..] == value;
  }

  /** A header line `Key: value` as `git log` writes it yields its key and
      value back. */
  lemma HeaderLine(key: string, value: string)
    requires key != "" && ':' !in key && !IsSpace(key[0])
    requires value == "" || !IsSpace(value[0])
    ensures Header(key + ": " + value) == Some((key, value))
  {
    var rest := " " + value;
    var line := key + (":" + rest);
    assert key + ": " + value == line;
    assert line[0] == key[0];
    KeyColon(key, rest);
    LeadingSpace(value);
  }

  // ---------------------------------------------------------------------
  // The log parser

  /** A commit as the parser finds it, before its message is pruned. */
  datatype Entry = Entry(cid: string, hdrs: map<string, string>, message: seq<string>)

  /** The parser's state between lines: the id and headers of the commit being
      read (None before the first commit line, while `headers` is still
      unbound), the message lines read since, and the finished commits. */
  datatype Scan = Scan(current: Option<(string, map<string, string>)>, message: seq<string>, done: seq<Entry>)

  /** The finished commits and the one being read. */
  function Finished(s: Scan): (r: seq<Entry>)
    ensures |r| == |s.done| + (if s.current.Some? then 1 else 0)
  {
    match s.current
    case None => s.done
    case Some(c) => s.done + [Entry(c.0, c.1, s.message)]
  }

  predicate IsCommitLine(line: string) {
    StartsWith(line, "commit ")
  }

  /** One line of the log. */
  function Step(s: Scan, line: string): Result<Scan> {
    if IsCommitLine(line) then
      var id := HexTail(line);
      if id == "" then Err(GiveUp("Could not parse git commit line: '" + line + "'"))
      else Ok(Scan(Some((id, map[])), [], Finished(s)))
    else
      match Header(line)
      case None => Ok(s.(message := s.message + [Strip(line)]))
      case Some(kv) =>
        if s.current.None? then Err(Crash("UnboundLocalError: local variable 'headers' referenced before assignment"))
        else Ok(s.(current := Some((s.current.value.0, s.current.value.1[kv.0 := kv.1]))))
  }

  function Scanned(lines: seq<string>): Result<Scan> {
    if lines == [] then Ok(Scan(None, [], []))
    else
      var s :- Scanned(lines[..|lines| - 1]);
      Step(s, lines[|lines| - 1])
  }

  /** The commits of a `git log` text, messages not yet pruned. */
  function Entries(changes: string): Result<seq<Entry>> {
    var s := Scanned(Split(changes, '\n'));
    if s.Err? then Err(s.error) else Ok(Finished(s.value))
  }

  /** The commits hold the ids and headers of the entries, and the entries'
      messages pruned. */
  predicate Records(commits: seq<Commit>, entries: seq<Entry>)
    reads set i | 0 <= i < |commits| :: commits[i]
  {
    && |commits| == |entries|
    && forall i | 0 <= i < |commits| ::
         && commits[i].cid == entries[i].cid
         && commits[i].hdrs == entries[i].hdrs
         && commits[i].log == Pruned(entries[i].message)
  }

  lemma StepOnCommit(s: Scan, line: string)
    requires IsCommitLine(line)
    ensures Step(s, line) ==
      if HexTail(line) == "" then Err(GiveUp("Could not parse git commit line: '" + line + "'"))
      else Ok(Scan(Some((HexTail(line), map[])), [], Finished(s)))
  {
  }

  lemma StepOnText(s: Scan, line: string)
    requires !IsCommitLine(line) && Header(line).None?
    ensures Step(s, line) == Ok(s.(message := s.message + [Strip(line)]))
  {
  }

  lemma StepOnHeader(s: Scan, line: string)
    requires !IsCommitLine(line) && Header(line).Some?
    ensures Step(s, line) ==
      if s.current.None? then Err(Crash("UnboundLocalError: local variable 'headers' referenced before assignment"))
      else Ok(s.(current := Some((s.current.value.0, s.current.value.1[Header(line).value.0 := Header(line).value.1]))))
  {
  }

  lemma RecordsSnoc(commits: seq<Commit>, entries: seq<Entry>, c: Commit, e: Entry)
    requires Records(commits, entries)
    requires c.cid == e.cid && c.hdrs == e.hdrs && c.log == Pruned(e.message)
    ensures Records(commits + [c], entries + [e])
  {
    var cs := commits + [c];
    forall i | 0 <= i < |cs| ensures cs[i].cid == (entries + [e])[i].cid
    {
    }
  }

  /** Repo.do_diff once git has run: `rc` is git's exit status and `changes`
      its output. A failed git gives no commits; otherwise the output is read
      line by line. */
  method DoDiff(rc: int, changes: string) returns (r: Result<seq<Commit>>)
    ensures rc != 0 ==> r == Ok([])
    ensures rc == 0 ==> (r.Ok? <==> Entries(changes).Ok?)
    ensures rc == 0 && r.Err? ==> r.error == Entries(changes).error
    ensures rc == 0 && r.Ok? ==> Records(r.value, Entries(changes).value)
  {
    if rc != 0 {
      return Ok([]);
    }
    var lines := Split(changes, '\n');
    // `headers` is bound exactly when `commitId` is not None.
    var commitId: Option<string> := None;
    var headers: map<string, string> := map[];
    var commits: seq<Commit> := [];
    var logMessage: seq<string> := [];
    ghost var scan := Scan(None, [], []);
    for i := 0 to |lines|
      invariant Scanned(lines[..i]) == Ok(scan)
      invariant scan.message == logMessage
      invariant commitId.None? <==> scan.current.None?
      invariant commitId.Some? ==> scan.current.value == (commitId.value, headers)
      invariant Records(commits, scan.done)
    {
      var l := lines[i];
      ScannedNext(lines, i);
      if IsCommitLine(l) {
        StepOnCommit(scan, l);
        if commitId.Some? {
          var c := new Commit(commitId.value, headers, logMessage);
          RecordsSnoc(commits, scan.done, c, Entry(commitId.value, headers, logMessage));
          commits := commits + [c];
        }
        var id := HexTail(l);
        if id == "" {
          ErrorSticks(lines, i + 1);
          return Err(GiveUp("Could not parse git commit line: '" + l + "'"));
        }
        commitId := Some(id);
        headers := map[];
        logMessage := [];
        scan := Scan(Some((id, map[])), [], Finished(scan));
      } else {
        var h := Header(l);
        if h.None? {
          StepOnText(scan, l);
          logMessage := logMessage + [Strip(l)];
          scan := scan.(message := scan.message + [Strip(l)]);
        } else {
          StepOnHeader(scan, l);
          if commitId.None? {
            ErrorSticks(lines, i + 1);
            return Err(Crash("UnboundLocalError: local variable 'headers' referenced before assignment"));
          }
          headers := headers[h.value.0 := h.value.1];
          scan := scan.(current := Some((commitId.value, headers)));
        }
      }
    }
    assert lines[..|lines|] == lines;
    assert Entries(changes) == Ok(Finished(scan));
    if commitId.Some? {
      var c := new Commit(commitId.value, headers, logMessage);
      RecordsSnoc(commits, scan.done, c, Entry(commitId.value, headers, logMessage));
      commits := commits + [c];
    }
    return Ok(commits);
  }

  /** Once a line stops the parser, the rest of the log does not matter. */
  lemma {:induction false} ErrorSticks(lines: seq<string>, k: nat)
    requires k <= |lines| && Scanned(lines[..k]).Err?
    ensures Scanned(lines) == Scanned(lines[..k])
    decreases |lines| - k
  {
    if k < |lines| {
      ScannedSnoc(lines[..k + 1]);
      assert lines[..k + 1][..k] == lines[..k];
      ErrorSticks(lines, k + 1);
    } else {
      assert lines[..k] == lines;
    }
  }

  lemma ScannedNext(lines: seq<string>, i: nat)
    requires i < |lines|
    ensures Scanned(lines[..i + 1]) == if Scanned(lines[..i]).Err? then Err(Scanned(lines[..i]).error) else Step(Scanned(lines[..i]).value, lines[i])
  {
    ScannedSnoc(lines[..i + 1]);
    assert lines[..i + 1][..i] == lines[..i];
  }

  // ---------------------------------------------------------------------
  // What the parser finds

  /** The ids on the commit lines, in order. */
  function CommitIds(lines: seq<string>): seq<string> {
    if lines == [] then []
    else
      var init := CommitIds(lines[..|lines| - 1]);
      if IsCommitLine(lines[|lines| - 1]) then init + [HexTail(lines[|lines| - 1])] else init
  }

  function Ids(entries: seq<Entry>): (r: seq<string>)
    ensures |r| == |entries| && forall i | 0 <= i < |entries| :: r[i] == entries[i].cid
  {
    seq(|entries|, i requires 0 <= i < |entries| => entries[i].cid)
  }

  /** No line so far was a commit line. */
  predicate NoCommitLine(lines: seq<string>) {
    forall j | 0 <= j < |lines| :: !IsCommitLine(lines[j])
  }

  /** The line at i stops the parser: a commit line with no id, or a header
      line before any commit line. */
  predicate Stops(lines: seq<string>, i: int)
    requires 0 <= i < |lines|
  {
    || (IsCommitLine(lines[i]) && HexTail(lines[i]) == "")
    || (!IsCommitLine(lines[i]) && Header(lines[i]).Some? && NoCommitLine(lines[..i]))
  }

  /** Some line stops the parser. */
  predicate AnyStop(lines: seq<string>) {
    exists i | 0 <= i < |lines| :: Stops(lines, i)
  }

  lemma ScannedSnoc(lines: seq<string>)
    requires lines != []
    ensures var init := Scanned(lines[..|lines| - 1]);
      Scanned(lines) == if init.Err? then Err(init.error) else Step(init.value, lines[|lines| - 1])
  {
  }

  /** One line adds its id when it is a commit line, and opens a commit. */
  lemma StepIds(s: Scan, line: string)
    requires Step(s, line).Ok?
    ensures Ids(Finished(Step(s, line).value)) == Ids(Finished(s)) + (if IsCommitLine(line) then [HexTail(line)] else [])
    ensures Step(s, line).value.current.None? <==> s.current.None? && !IsCommitLine(line)
  {
    var t := Step(s, line).value;
    if IsCommitLine(line) {
      assert t == Scan(Some((HexTail(line), map[])), [], Finished(s));
      assert Finished(t) == Finished(s) + [Entry(HexTail(line), map[], [])];
    } else {
      assert t.done == s.done && (t.current.None? <==> s.current.None?)
        && (t.current.Some? ==> t.current.value.0 == s.current.value.0);
      SameIds(s, t);
    }
  }

  lemma SameIds(s: Scan, t: Scan)
    requires t.done == s.done && (t.current.None? <==> s.current.None?)
    requires t.current.Some? ==> t.current.value.0 == s.current.value.0
    ensures Ids(Finished(t)) == Ids(Finished(s))
  {
    assert |Finished(t)| == |Finished(s)|;
    assert forall i | 0 <= i < |Finished(t)| :: Finished(t)[i].cid == Finished(s)[i].cid;
  }

  /** When one line stops the parser. */
  lemma StepFails(s: Scan, line: string)
    ensures Step(s, line).Err? <==>
      || (IsCommitLine(line) && HexTail(line) == "")
      || (!IsCommitLine(line) && Header(line).Some? && s.current.None?)
  {
  }

  lemma NoCommitSnoc(lines: seq<string>)
    requires lines != []
    ensures NoCommitLine(lines) <==> NoCommitLine(lines[..|lines| - 1]) && !IsCommitLine(lines[|lines| - 1])
  {
    var init := lines[..|lines| - 1];
    if NoCommitLine(init) && !IsCommitLine(lines[|lines| - 1]) {
      forall j | 0 <= j < |lines| ensures !IsCommitLine(lines[j]) {
        if j < |init| { assert lines[j] == init[j]; }
      }
    }
  }

  /** Whether a line stops the parser depends only on the lines up to it. */
  lemma StopsPrefix(lines: seq<string>, n: nat, i: nat)
    requires i < n <= |lines|
    ensures Stops(lines, i) == Stops(lines[..n], i)
  {
    assert lines[..n][i] == lines[i];
    assert lines[..n][..i] == lines[..i];
  }

  lemma {:induction false} ScannedIds(lines: seq<string>)
    requires Scanned(lines).Ok?
    ensures Ids(Finished(Scanned(lines).value)) == CommitIds(lines)
    ensures Scanned(lines).value.current.None? <==> NoCommitLine(lines)
  {
    if lines != [] {
      var init := lines[..|lines| - 1];
      var l := lines[|lines| - 1];
      ScannedSnoc(lines);
      ScannedIds(init);
      StepIds(Scanned(init).value, l);
      NoCommitSnoc(lines);
    }
  }

  lemma {:induction false} ScannedStops(lines: seq<string>)
    ensures Scanned(lines).Err? <==> AnyStop(lines)
  {
    if lines != [] {
      var n := |lines| - 1;
      var init := lines[..n];
      var l := lines[n];
      ScannedSnoc(lines);
      ScannedStops(init);
      if Scanned(init).Err? {
        var i :| 0 <= i < n && Stops(init, i);
        StopsPrefix(lines, n, i);
        assert Stops(lines, i);
        assert Scanned(lines).Err?;
      } else {
        ScannedIds(init);
        StepFails(Scanned(init).value, l);
        assert lines[..n] == init;
        assert Scanned(lines).Err? <==> Stops(lines, n);
        if !Stops(lines, n) {
          forall i | 0 <= i < |lines| ensures !Stops(lines, i) {
            if i < n {
              assert !Stops(init, i);
              StopsPrefix(lines, n, i);
            } else {
              assert i == n;
            }
          }
        }
      }
    }
  }

  /** The parser fails exactly when some line stops it (a commit line without
      a trailing hex id is an Error); otherwise it returns one commit per
      commit line, in order, each with the id its line ends with. */
  lemma {:induction false} EntriesShape(changes: string)
    ensures Entries(changes).Err? <==> AnyStop(Split(changes, '\n'))
    ensures Entries(changes).Ok? ==> Ids(Entries(changes).value) == CommitIds(Split(changes, '\n'))
  {
    var lines := Split(changes, '\n');
    var r := Scanned(lines);
    assert Entries(changes).Err? == r.Err?;
    ScannedStops(lines);
    if r.Ok? {
      assert Entries(changes).value == Finished(r.value);
      ScannedIds(lines);
    }
  }

  // ---------------------------------------------------------------------
  // Stamps

  /** An INI file as RawConfigParser holds it: the section names in the order
      they appear and the options of each section. */
  datatype Ini = Ini(sections: seq<string>, options: map<string, map<string, string>>)

  predicate HasOption(ini: Ini, section: string, option: string) {
    section in ini.options && option in ini.options[section]
  }

  /** RawConfigParser.get. */
  function Get(ini: Ini, section: string, option: string): (r: Result<string>)
    ensures r.Ok? <==> HasOption(ini, section, option)
    ensures r.Ok? ==> r.value == ini.options[section][option]
    ensures r.Err? ==> r.error.Crash?
  {
    if section !in ini.options then Err(Crash("NoSectionError: No section: '" + section + "'"))
    else if option !in ini.options[section] then Err(Crash("NoOptionError: No option '" + option + "' in section: '" + section + "'"))
    else Ok(ini.options[section][option])
  }

  /** A checkout a stamp records. */
  datatype Checkout = Checkout(name: string, repo: string, rev: string, co: string)

  /** A stamp as interpatch results it. */
  datatype Stamp = Stamp(fn: string, vsn: int, repo: string, checkouts: map<string, Checkout>, order: seq<string>)

  predicate Distinct(names: seq<string>) {
    forall i, j | 0 <= i < j < |names| :: names[i] != names[j]
  }

  /** The checkout names in reading order are the keys of the table, each once. */
  ghost predicate Consistent(s: Stamp) {
    Distinct(s.order) && (forall n :: n in s.checkouts <==> n in s.order)
  }

  function SignedString(n: int): string {
    if n < 0 then "-" + DecimalString(-n) else DecimalString(n)
  }

  /** Stamp.check_version: the `version` of section STAMP must read as the
      integer 2. */
  function Version(fn: string, ini: Ini): (r: Result<int>)
    ensures r.Ok? <==> HasOption(ini, "STAMP", "version") && ParseInt(ini.options["STAMP"]["version"]) == Some(2)
    ensures r.Ok? ==> r.value == 2
    ensures HasOption(ini, "STAMP", "version") && ParseInt(ini.options["STAMP"]["version"]).Some? && !r.Ok? ==> r.error.GiveUp?
  {
    var text :- Get(ini, "STAMP", "version");
    match ParseInt(text)
    case None => Err(Crash("ValueError: invalid literal for int() with base 10: '" + text + "'"))
    case Some(v) =>
      if v != 2 then Err(GiveUp("Invalid version stamp " + SignedString(v) + " for " + fn))
      else Ok(v)
  }

  /** What one section contributes: nothing unless its name's first word is
      CHECKOUT, otherwise the checkout named by the second word. */
  function CheckoutOf(ini: Ini, section: string): Result<Option<Checkout>> {
    var words := Split(section, ' ');
    if words[0] != "CHECKOUT" then Ok(None)
    else if |words| < 2 then Err(Crash("IndexError: list index out of range"))
    else
      var fromUrl := if HasOption(ini, section, "repo_from_url_string") then ini.options[section]["repo_from_url_string"] else "None";
      var repo :- if fromUrl != "None" then Ok(fromUrl) else RepoOf(ini, section);
      var leaf :- Get(ini, section, "co_leaf");
      var co := if HasOption(ini, section, "co_dir") then Utils.PosixJoin(ini.options[section]["co_dir"], leaf) else leaf;
      var vcs :- Get(ini, section, "repo_vcs");
      if vcs != "git" then Err(GiveUp("Interpatch will only work with git repositories; sorry.\n"))
      else
        var rev :- Get(ini, section, "repo_revision");
        Ok(Some(Checkout(words[1], repo, rev, co)))
  }

  /** The repository of a checkout section that does not give it as a URL:
      the base URL joined with the optional prefix and the name. */
  function RepoOf(ini: Ini, section: string): Result<string> {
    var name :- Get(ini, section, "repo_name");
    var ext := if HasOption(ini, section, "repo_prefix") then Utils.PosixJoin(ini.options[section]["repo_prefix"], name) else name;
    var base :- Get(ini, section, "repo_base_url");
    Ok(Utils.PosixJoin(base, ext))
  }

  /** What one section results as. */
  type Read = Result<Option<Checkout>>

  /** What each section results as, in order. */
  function Reads(ini: Ini, sections: seq<string>): (r: seq<Read>)
    ensures |r| == |sections| && forall k | 0 <= k < |sections| :: r[k] == CheckoutOf(ini, sections[k])
  {
    seq(|sections|, k requires 0 <= k < |sections| => CheckoutOf(ini, sections[k]))
  }

  /** The section read at k is a checkout with that name. */
  predicate Names(results: seq<Read>, k: int, name: string)
    requires 0 <= k < |results|
  {
    results[k].Ok? && results[k].value.Some? && results[k].value.value.name == name
  }

  /** The sections read at i and j name the same checkout. */
  predicate SameName(results: seq<Read>, i: int, j: int)
    requires 0 <= i < |results| && 0 <= j < |results|
  {
    results[i].Ok? && results[i].value.Some? && Names(results, j, results[i].value.value.name)
  }

  /** Gathering the checkouts of the sections read, in order: the table and
      the names in the order they were first seen; a name seen twice is an
      Error. */
  function Collect(fn: string, results: seq<Read>): Result<(map<string, Checkout>, seq<string>)> {
    if results == [] then Ok((map[], []))
    else
      var (table, order) :- Collect(fn, results[..|results| - 1]);
      var c :- results[|results| - 1];
      match c
      case None => Ok((table, order))
      case Some(co) =>
        if co.name in table then Err(GiveUp("Duplicate checkout name " + co.name + " in " + fn))
        else Ok((table[co.name := co], order + [co.name]))
  }

  /** The checkouts of the sections in order, and their names in order. */
  function CheckoutsOf(fn: string, ini: Ini, sections: seq<string>): Result<(map<string, Checkout>, seq<string>)> {
    Collect(fn, Reads(ini, sections))
  }

  lemma CollectNext(fn: string, results: seq<Read>, i: nat)
    requires i < |results|
    ensures var prior := Collect(fn, results[..i]);
      Collect(fn, results[..i + 1]) ==
        if prior.Err? then Err(prior.error)
        else if results[i].Err? then Err(results[i].error)
        else if results[i].value.None? then prior
        else if results[i].value.value.name in prior.value.0 then
          Err(GiveUp("Duplicate checkout name " + results[i].value.value.name + " in " + fn))
        else Ok((prior.value.0[results[i].value.value.name := results[i].value.value], prior.value.1 + [results[i].value.value.name]))
  {
    assert results[..i + 1][..i] == results[..i];
  }

  lemma {:induction false} CollectSticks(fn: string, results: seq<Read>, k: nat)
    requires k <= |results| && Collect(fn, results[..k]).Err?
    ensures Collect(fn, results) == Collect(fn, results[..k])
    decreases |results| - k
  {
    if k < |results| {
      CollectNext(fn, results, k);
      CollectSticks(fn, results, k + 1);
    } else {
      assert results[..k] == results;
    }
  }

  /** Stamp.read_checkouts. */
  method ReadCheckouts(fn: string, ini: Ini) returns (r: Result<(map<string, Checkout>, seq<string>)>)
    ensures r == CheckoutsOf(fn, ini, ini.sections)
  {
    var checkouts: map<string, Checkout> := map[];
    var order: seq<string> := [];
    var sections := ini.sections;
    ghost var results := Reads(ini, sections);
    for i := 0 to |sections|
      invariant Collect(fn, results[..i]) == Ok((checkouts, order))
    {
      CollectNext(fn, results, i);
      var c := CheckoutOf(ini, sections[i]);
      if c.Err? {
        CollectSticks(fn, results, i + 1);
        return Err(c.error);
      }
      if c.value.Some? {
        var co := c.value.value;
        if co.name in checkouts {
          CollectSticks(fn, results, i + 1);
          return Err(GiveUp("Duplicate checkout name " + co.name + " in " + fn));
        }
        checkouts := checkouts[co.name := co];
        order := order + [co.name];
      }
    }
    assert results[..|sections|] == results;
    return Ok((checkouts, order));
  }

  /** When the checkouts gather, the names are listed once each, in the order
      first seen, and they are exactly the keys of the table. */
  lemma {:induction false} CollectOrder(fn: string, results: seq<Read>)
    requires Collect(fn, results).Ok?
    ensures var (table, order) := Collect(fn, results).value;
      Distinct(order) && forall n :: n in table <==> n in order
  {
    if results != [] {
      var n := |results| - 1;
      CollectNext(fn, results, n);
      assert results[..n + 1] == results;
      CollectOrder(fn, results[..n]);
      var (t0, o0) := Collect(fn, results[..n]).value;
      var (table, order) := Collect(fn, results).value;
      if results[n].value.Some? {
        var name := results[n].value.value.name;
        assert name !in o0;
        assert order == o0 + [name];
        forall i, j | 0 <= i < j < |order| ensures order[i] != order[j] {
          if j == |o0| {
            assert order[i] == o0[i];
          } else {
            assert order[i] == o0[i] && order[j] == o0[j];
          }
        }
        forall m ensures m in table <==> m in order {
          assert m in order <==> m in o0 || m == name;
        }
      }
    }
  }

  /** When the checkouts gather, the table holds exactly the names the sections
      give, and each checkout section is in the table under its name. */
  lemma {:induction false} CollectTable(fn: string, results: seq<Read>)
    requires Collect(fn, results).Ok?
    ensures var table := Collect(fn, results).value.0;
      && (forall m | m in table :: exists k | 0 <= k < |results| :: Names(results, k, m))
      && (forall k | 0 <= k < |results| && results[k].Ok? && results[k].value.Some? ::
            results[k].value.value.name in table && table[results[k].value.value.name] == results[k].value.value)
  {
    if results != [] {
      var n := |results| - 1;
      var init := results[..n];
      CollectNext(fn, results, n);
      assert results[..n + 1] == results;
      CollectTable(fn, init);
      var t0 := Collect(fn, init).value.0;
      var table := Collect(fn, results).value.0;
      forall k | 0 <= k < n ensures results[k] == init[k] {}
      forall m | m in table ensures exists k | 0 <= k < |results| :: Names(results, k, m) {
        if m in t0 {
          var k :| 0 <= k < n && Names(init, k, m);
          assert Names(results, k, m);
        } else {
          assert Names(results, n, m);
        }
      }
    }
  }

  /** Gathering succeeds exactly when every section results and no two sections
      name the same checkout; when every section results, the only failure is
      the duplicate Error. */
  lemma {:induction false} CollectOk(fn: string, results: seq<Read>)
    ensures Collect(fn, results).Ok? <==>
      && (forall k | 0 <= k < |results| :: results[k].Ok?)
      && (forall i, j | 0 <= i < j < |results| :: !SameName(results, i, j))
    ensures (forall k | 0 <= k < |results| :: results[k].Ok?) && Collect(fn, results).Err? ==>
      Collect(fn, results).error.GiveUp?
  {
    if results != [] {
      var n := |results| - 1;
      var init := results[..n];
      CollectNext(fn, results, n);
      assert results[..n + 1] == results;
      CollectOk(fn, init);
      forall k | 0 <= k < n ensures results[k] == init[k] {}
      assert (forall i, j | 0 <= i < j < n :: !SameName(results, i, j)) <==> (forall i, j | 0 <= i < j < n :: !SameName(init, i, j)) by {
        forall i, j | 0 <= i < j < n ensures SameName(results, i, j) == SameName(init, i, j) {}
      }
      if Collect(fn, init).Ok? && results[n].Ok? && results[n].value.Some? {
        CollectTable(fn, init);
        var co := results[n].value.value;
        if co.name in Collect(fn, init).value.0 {
          var k :| 0 <= k < n && Names(init, k, co.name);
          assert SameName(results, k, n);
        } else {
          forall i | 0 <= i < n ensures !SameName(results, i, n) {
            assert results[i] == init[i];
          }
        }
      } else if Collect(fn, init).Ok? && results[n].Ok? {
        forall i | 0 <= i < n ensures !SameName(results, i, n) {}
      }
    }
  }

  /** The Stamp constructor: the version check, the ROOT repository, then the
      checkouts. */
  function StampOf(fn: string, ini: Ini): Result<Stamp> {
    var vsn :- Version(fn, ini);
    var repo :- Get(ini, "ROOT", "repository");
    var (table, order) :- CheckoutsOf(fn, ini, ini.sections);
    Ok(Stamp(fn, vsn, repo, table, order))
  }

  method ReadStamp(fn: string, ini: Ini) returns (r: Result<Stamp>)
    ensures r == StampOf(fn, ini)
  {
    var vsn :- Version(fn, ini);
    var repo :- Get(ini, "ROOT", "repository");
    var checkouts := ReadCheckouts(fn, ini);
    if checkouts.Err? {
      return Err(checkouts.error);
    }
    return Ok(Stamp(fn, vsn, repo, checkouts.value.0, checkouts.value.1));
  }

  /** Every stamp read has version 2 and a consistent checkout table; a stamp
      whose version results as another integer is an Error. */
  lemma StampShape(fn: string, ini: Ini)
    ensures StampOf(fn, ini).Ok? ==> StampOf(fn, ini).value.vsn == 2 && Consistent(StampOf(fn, ini).value)
    ensures (HasOption(ini, "STAMP", "version") && ParseInt(ini.options["STAMP"]["version"]).Some?
             && ParseInt(ini.options["STAMP"]["version"]) != Some(2)) ==>
              StampOf(fn, ini).Err? && StampOf(fn, ini).error == Version(fn, ini).error && StampOf(fn, ini).error.GiveUp?
  {
    var results := Reads(ini, ini.sections);
    if Collect(fn, results).Ok? {
      CollectOrder(fn, results);
    }
  }

  /** Stamp.missing_repo_report: the checkouts of `self` that `other` lacks,
      and the log section that records each of them with its repository. */
  method MissingRepoReport(self: Stamp, other: Stamp) returns (missing: seq<string>, section: map<string, string>)
    requires Consistent(self)
    ensures forall n :: n in missing <==> n in self.checkouts && n !in other.checkouts
    ensures Distinct(missing)
    ensures forall n :: n in section <==> n in missing
    ensures forall n | n in section :: section[n] == self.checkouts[n].repo
  {
    missing := [];
    section := map[];
    for i := 0 to |self.order|
      invariant forall n :: n in missing <==> n in self.order[..i] && n !in other.checkouts
      invariant Distinct(missing)
      invariant forall n :: n in section <==> n in missing
      invariant forall n | n in section :: n in self.checkouts && section[n] == self.checkouts[n].repo
    {
      var name := self.order[i];
      assert self.order[..i + 1] == self.order[..i] + [name];
      if name !in other.checkouts {
        assert name !in self.order[..i] by {
          forall k | 0 <= k < i ensures self.order[..i][k] != name {
            assert self.order[k] != self.order[i];
          }
        }
        section := section[name := self.checkouts[name].repo];
        missing := missing + [name];
      }
    }
    assert self.order[..|self.order|] == self.order;
  }

  /** InterPatch.do_missing: the checkouts the first stamp has and the second
      lacks are removed, those only the second has are added. */
  method DoMissing(from: Stamp, to: Stamp) returns (removed: seq<string>, added: seq<string>)
    requires Consistent(from) && Consistent(to)
    ensures forall n :: n in removed <==> n in from.checkouts && n !in to.checkouts
    ensures forall n :: n in added <==> n in to.checkouts && n !in from.checkouts
    ensures forall n :: !(n in removed && n in added)
  {
    var removedLog, addedLog;
    removed, removedLog := MissingRepoReport(from, to);
    added, addedLog := MissingRepoReport(to, from);
  }
}
