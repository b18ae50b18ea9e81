// String and path helpers of muddled/utils.py: VCS URL splitting, shell
// escaping, path joining, padding and mode parsing.

module Utils {
  import opened Wrappers
  import opened Text

  // ---------------------------------------------------------------------
  // split_vcs_url

  predicate IsVcsChar(c: char) { IsLetter(c) || c == '+' }

  /** What `.*$` accepts: a line with no newline, or one followed by a
      single final newline (Python's `$` also matches before it). */
  predicate IsLineEnd(s: string) {
    '\n' !in s || ('\n' !in s[..|s| - 1] && s[|s| - 1] == '\n')
  }

  /** The part of `s` that `.*` captures before `$`. */
  function LineOf(s: string): (r: string)
    requires IsLineEnd(s)
    ensures '\n' !in r
  {
    if '\n' in s then s[..|s| - 1] else s
  }

  /** split_vcs_url: the match of ^([A-Za-z]+)\+([A-Za-z+]+):(.*)$ split
      into the lower-cased VCS name and the rest, or (None, None). The
      first group ends at the first '+', the second at the first ':'. */
  function SplitVcsUrl(url: string): (r: (Option<string>, Option<string>))
    ensures r.0.Some? <==> r.1.Some?
  {
    var plus := Find(url, '+');
    if plus <= 0 || !AllChars(url[..plus], IsLetter) then (None, None)
    else
      var rest := url[plus + 1..];
      var colon := Find(rest, ':');
      if colon <= 0 || !AllChars(rest[..colon], IsVcsChar) || !IsLineEnd(rest[colon + 1..]) then (None, None)
      else
        (Some(LowerString(url[..plus])), Some(rest[..colon] + ":" + LineOf(rest[colon + 1..])))
  }

  /** A URL without both a '+' and a ':' has no VCS prefix; a VCS name that
      is split off is non-empty and lower case. */
  lemma SplitVcsUrlShape(url: string)
    ensures '+' !in url || ':' !in url ==> SplitVcsUrl(url) == (None, None)
    ensures var r := SplitVcsUrl(url);
      r.0.Some? ==> |r.0.value| > 0 && forall i | 0 <= i < |r.0.value| :: IsLower(r.0.value[i])
  {
    var plus := Find(url, '+');
    if plus > 0 && AllChars(url[..plus], IsLetter) {
      var rest := url[plus + 1..];
      var colon := Find(rest, ':');
      if colon > 0 {
        assert url[plus + 1 + colon] == ':';
      }
    }
  }

  /** Every URL of the form X+s:rest, with X letters, s letters and '+',
      and rest a single line, splits into (lower(X), "s:rest"). */
  lemma SplitVcsUrlOf(x: string, s: string, rest: string)
    requires |x| > 0 && AllChars(x, IsLetter)
    requires |s| > 0 && AllChars(s, IsVcsChar)
    requires '\n' !in rest
    ensures SplitVcsUrl(x + ("+" + (s + (":" + rest)))) == (Some(LowerString(x)), Some(s + ":" + rest))
  {
    var after := ":" + rest;
    var url := x + ("+" + (s + after));
    assert '+' !in x by {
      assert forall i | 0 <= i < |x| :: x[i] != '+';
    }
    assert ':' !in s by {
      assert forall i | 0 <= i < |s| :: s[i] != ':';
    }
    FindAfterFree(x, "+" + (s + after), '+');
    Sides(x, '+', s + after);
    var tail := url[|x| + 1..];
    FindAfterFree(s, after, ':');
    Sides(s, ':', rest);
    assert tail[..|s|] == s && tail[|s| + 1..] == rest;
    assert IsLineEnd(rest) && LineOf(rest) == rest;
  }

  /** A plain URL has no VCS prefix. */
  lemma SplitVcsUrlPlain()
    ensures SplitVcsUrl("http://www.google.com/") == (None, None)
  {
    var url := "http://www.google.com/";
    assert forall i | 0 <= i < |url| :: url[i] != '+';
  }

  /** The VCS name is lower-cased; the rest is kept as written (the
      repository's own example has rest "//Foo.example.com/usr/cvs/foo"). */
  lemma SplitVcsUrlPrefixed(rest: string)
    requires '\n' !in rest
    ensures SplitVcsUrl("cVs+pserver:" + rest) == (Some("cvs"), Some("pserver:" + rest))
  {
    var x, s := "cVs", "pserver";
    var a, b := x + ("+" + (s + (":" + rest))), "cVs+pserver:" + rest;
    assert a == b by {
      assert forall i | 0 <= i < |a| :: a[i] == b[i];
    }
    var c, d := s + ":" + rest, "pserver:" + rest;
    assert c == d by {
      assert forall i | 0 <= i < |c| :: c[i] == d[i];
    }
    assert LowerString(x) == "cvs";
    assert AllChars(s, IsVcsChar);
    SplitVcsUrlOf(x, s, rest);
  }

  // ---------------------------------------------------------------------
  // maybe_shell_quote and unescape_backslashes

  /** The characters maybe_shell_quote escapes. */
  predicate NeedsEscape(c: char) { c == '"' || c == '\\' || c == '\'' || c == ' ' }

  /** The escaped form of `s`: a backslash before each character that
      needs one. */
  function Quoted(s: string): string {
    if s == [] then []
    else (if NeedsEscape(s[0]) then ['\\', s[0]] else [s[0]]) + Quoted(s[1..])
  }

  lemma {:induction false} QuotedAppend(a: string, b: string)
    ensures Quoted(a + b) == Quoted(a) + Quoted(b)
    decreases |a|
  {
    if a != [] {
      assert (a + b)[1..] == a[1..] + b;
      QuotedAppend(a[1..], b);
    } else {
      assert a + b == b;
    }
  }

  /** A string with nothing to escape is its own escaped form. */
  lemma {:induction false} QuotedPlain(s: string)
    requires forall i | 0 <= i < |s| :: !NeedsEscape(s[i])
    ensures Quoted(s) == s
    decreases |s|
  {
    if s != [] {
      QuotedPlain(s[1..]);
    }
  }

  /** maybe_shell_quote: with doQuote, a backslash goes before each '"',
      '\', ''' and space; without it the string is returned unchanged. */
  method MaybeShellQuote(s: string, doQuote: bool) returns (r: string)
    ensures r == if doQuote then Quoted(s) else s
  {
    if !doQuote {
      return s;
    }
    r := "";
    var i := 0;
    while i < |s|
      invariant 0 <= i <= |s|
      invariant r == Quoted(s[..i])
    {
      QuotedAppend(s[..i], [s[i]]);
      assert s[..i + 1] == s[..i] + [s[i]];
      if NeedsEscape(s[i]) {
        r := r + "\\";
      }
      r := r + [s[i]];
      i := i + 1;
    }
    assert s[..i] == s;
  }

  /** What unescape_backslashes makes of `s` when the character before it
      was an unconsumed backslash (`pending`) or not: a backslash is dropped
      and the character after it kept as it is. */
  function Unescaped(s: string, pending: bool): string {
    if s == [] then []
    else if pending then [s[0]] + Unescaped(s[1..], false)
    else if s[0] == '\\' then Unescaped(s[1..], true)
    else [s[0]] + Unescaped(s[1..], false)
  }

  /** unescape_backslashes: every "\X" becomes X; a final lone backslash
      disappears. */
  method UnescapeBackslashes(s: string) returns (r: string)
    ensures r == Unescaped(s, false)
  {
    var wasBackslash := false;
    r := "";
    var i := 0;
    while i < |s|
      invariant 0 <= i <= |s|
      invariant r + Unescaped(s[i..], wasBackslash) == Unescaped(s, false)
    {
      UnescapedStep(s, i, wasBackslash);
      if wasBackslash {
        r := r + [s[i]];
        wasBackslash := false;
      } else if s[i] == '\\' {
        wasBackslash := true;
      } else {
        r := r + [s[i]];
      }
      i := i + 1;
    }
  }

  /** One character of unescaping. */
  lemma {:induction false} UnescapedStep(s: string, i: nat, pending: bool)
    requires i < |s|
    ensures forall r: string ::
      r + Unescaped(s[i..], pending) ==
        if pending || s[i] != '\\' then (r + [s[i]]) + Unescaped(s[i + 1..], false)
        else r + Unescaped(s[i + 1..], true)
  {
    assert s[i..][1..] == s[i + 1..];
    forall r: string ensures r + ([s[i]] + Unescaped(s[i + 1..], false)) == (r + [s[i]]) + Unescaped(s[i + 1..], false) {}
  }

  /** Unescaping undoes shell quoting. */
  lemma {:induction false} UnescapeQuoted(s: string)
    ensures Unescaped(Quoted(s), false) == s
    decreases |s|
  {
    if s != [] {
      var head := if NeedsEscape(s[0]) then ['\\', s[0]] else [s[0]];
      assert Quoted(s) == head + Quoted(s[1..]);
      UnescapeQuoted(s[1..]);
      if NeedsEscape(s[0]) {
        assert (head + Quoted(s[1..]))[1..] == [s[0]] + Quoted(s[1..]);
        assert ([s[0]] + Quoted(s[1..]))[1..] == Quoted(s[1..]);
      } else {
        assert (head + Quoted(s[1..]))[1..] == Quoted(s[1..]);
      }
    }
  }

  // ---------------------------------------------------------------------
  // quote_list and unquote_list

  function QuotedAll(xs: seq<string>): (r: seq<string>)
    ensures |r| == |xs|
    ensures forall i | 0 <= i < |xs| :: r[i] == Quoted(xs[i])
  {
    if xs == [] then [] else [Quoted(xs[0])] + QuotedAll(xs[1..])
  }

  /** quote_list: each element shell-escaped, separated by single spaces. */
  function QuoteList(xs: seq<string>): string {
    Join(QuotedAll(xs), " ")
  }

  /** A string starting with a quote loses its first and last characters,
      as the slice [1:-1] does (a lone quote becomes empty). */
  function Unwrapped(s: string): (r: string)
    ensures s == [] || (s[0] != '\'' && s[0] != '"') ==> r == s
    ensures |s| >= 2 && (s[0] == '\'' || s[0] == '"') ==> r == s[1..|s| - 1]
  {
    if |s| > 0 && (s[0] == '\'' || s[0] == '"') then
      (if |s| >= 2 then s[1..|s| - 1] else "")
    else s
  }

  /** The elements unquote_list makes of the space-separated `pieces`,
      given the text carried over from pieces ending in a backslash: such a
      piece loses its backslash and is glued to the next one; every other
      piece ends an element, unescaped. */
  function Merge(pieces: seq<string>, last: Option<string>): (r: seq<string>)
    ensures pieces != [] || last.Some? ==> |r| >= 1
    ensures |r| <= |pieces| + (if last.Some? then 1 else 0)
    ensures last.None? ==> |r| <= |pieces|
  {
    if pieces == [] then (if last.Some? then [Unescaped(last.value, false)] else [])
    else
      var cur := if last.Some? then last.value + pieces[0] else pieces[0];
      if |cur| > 0 && cur[|cur| - 1] == '\\' then Merge(pieces[1..], Some(cur[..|cur| - 1]))
      else [Unescaped(cur, false)] + Merge(pieces[1..], None)
  }

  /** What unquote_list returns: an IndexError for a blank string, else
      the merged pieces of the stripped, unwrapped text. */
  function Unquote(text: string): (r: Result<seq<string>>)
    ensures r.Err? <==> Strip(text) == []
    ensures r.Ok? ==> 1 <= |r.value| <= |Split(Unwrapped(Strip(text)), ' ')|
  {
    var t := Strip(text);
    if t == [] then Err(Crash("IndexError: string index out of range"))
    else Ok(Merge(Split(Unwrapped(t), ' '), None))
  }

  /** unquote_list: strip, unwrap, split at spaces and merge. */
  method UnquoteList(text: string) returns (r: Result<seq<string>>)
    ensures r == Unquote(text)
  {
    var t := Strip(text);
    if t == [] {
      return Err(Crash("IndexError: string index out of range"));
    }
    var result := MergePieces(Split(Unwrapped(t), ' '));
    return Ok(result);
  }

  /** The merging loop of unquote_list. */
  method MergePieces(initial: seq<string>) returns (result: seq<string>)
    ensures result == Merge(initial, None)
  {
    result := [];
    var last: Option<string> := None;
    var rest := initial;
    while rest != []
      invariant result + Merge(rest, last) == Merge(initial, None)
      decreases |rest|
    {
      var cur := if last.Some? then last.value + rest[0] else rest[0];
      MergeFront(rest, last);
      if |cur| > 0 && cur[|cur| - 1] == '\\' {
        last := Some(cur[..|cur| - 1]);
      } else {
        var u := UnescapeBackslashes(cur);
        assert result + ([u] + Merge(rest[1..], None)) == (result + [u]) + Merge(rest[1..], None);
        result := result + [u];
        last := None;
      }
      rest := rest[1..];
    }
    if last.Some? {
      var u := UnescapeBackslashes(last.value);
      result := result + [u];
    }
  }

  /** One step of Merge: the first piece either continues the carried
      text or closes an element. */
  lemma MergeFront(pieces: seq<string>, last: Option<string>)
    requires pieces != []
    ensures var cur := if last.Some? then last.value + pieces[0] else pieces[0];
      if |cur| > 0 && cur[|cur| - 1] == '\\' then Merge(pieces, last) == Merge(pieces[1..], Some(cur[..|cur| - 1]))
      else Merge(pieces, last) == [Unescaped(cur, false)] + Merge(pieces[1..], None)
  {
  }

  /** A word quote_list and unquote_list leave alone: not empty, and with
      no whitespace, quote or backslash in it. */
  predicate Plain(x: string) {
    |x| > 0 && forall i | 0 <= i < |x| :: !NeedsEscape(x[i]) && !IsSpace(x[i]) && x[i] != '\\'
  }

  lemma {:induction false} UnescapedPlain(x: string)
    requires forall i | 0 <= i < |x| :: x[i] != '\\'
    ensures Unescaped(x, false) == x
    decreases |x|
  {
    if x != [] {
      UnescapedPlain(x[1..]);
    }
  }

  lemma {:induction false} MergePlain(xs: seq<string>)
    requires forall i | 0 <= i < |xs| :: Plain(xs[i])
    ensures Merge(xs, None) == xs
    decreases |xs|
  {
    if xs != [] {
      UnescapedPlain(xs[0]);
      MergePlain(xs[1..]);
    }
  }

  lemma {:induction false} QuotedAllPlain(xs: seq<string>)
    requires forall i | 0 <= i < |xs| :: Plain(xs[i])
    ensures QuotedAll(xs) == xs
  {
    forall i | 0 <= i < |xs|
      ensures Quoted(xs[i]) == xs[i]
    {
      QuotedPlain(xs[i]);
    }
  }

  lemma {:induction false} JoinEnds(xs: seq<string>, sep: string)
    requires |xs| >= 1 && forall i | 0 <= i < |xs| :: |xs[i]| > 0
    ensures var j := Join(xs, sep); |j| > 0 && j[0] == xs[0][0] && j[|j| - 1] == xs[|xs| - 1][|xs[|xs| - 1]| - 1]
    decreases |xs|
  {
    if |xs| > 1 {
      JoinEnds(xs[1..], sep);
    }
  }

  /** A non-empty list of plain words survives quote_list and
      unquote_list unchanged. */
  lemma UnquoteQuotedPlain(xs: seq<string>)
    requires |xs| >= 1 && forall i | 0 <= i < |xs| :: Plain(xs[i])
    ensures Unquote(QuoteList(xs)) == Ok(xs)
  {
    QuotedAllPlain(xs);
    var j := Join(xs, " ");
    JoinEnds(xs, " ");
    assert Strip(j) == j;
    assert Unwrapped(j) == j;
    assert NoneContain(xs, ' ');
    SplitJoin(xs, ' ');
    MergePlain(xs);
  }

  /** An escaped space inside an element is lost: quote_list(["a b"]) is
      "a\\ b", which unquote_list reads back as ["ab"]. */
  lemma UnquoteLosesEscapedSpace()
    ensures QuoteList(["a b"]) == "a\\ b"
    ensures Unquote("a\\ b") == Ok(["ab"])
  {
    QuoteListOfSpaced();
    UnquoteOfEscaped();
  }

  lemma QuoteListOfSpaced()
    ensures QuoteList(["a b"]) == "a\\ b"
  {
    QuotedAppend("a", " b");
    QuotedAppend(" ", "b");
    assert "a" + " b" == "a b";
    assert " " + "b" == " b";
    assert Quoted("a") == "a" && Quoted(" ") == "\\ " && Quoted("b") == "b";
    assert "a" + ("\\ " + "b") == "a\\ b";
    assert QuotedAll(["a b"]) == ["a\\ b"];
  }

  lemma UnquoteOfEscaped()
    ensures Unquote("a\\ b") == Ok(["ab"])
  {
    StripOfEscaped();
    SplitOfEscaped();
    MergeOfEscaped();
  }

  lemma StripOfEscaped()
    ensures Strip("a\\ b") == "a\\ b" && Unwrapped("a\\ b") == "a\\ b"
  {
    var t := "a\\ b";
    assert |t| == 4 && t[0] == 'a' && t[3] == 'b';
    assert !IsSpace(t[0]) && !IsSpace(t[|t| - 1]);
  }

  lemma SplitOfEscaped()
    ensures Split("a\\ b", ' ') == ["a\\", "b"]
  {
    var t := "a\\ b";
    assert t == "a\\" + ([' '] + "b");
    FindAfterFree("a\\", [' '] + "b", ' ');
    SplitAt(t, ' ', "a\\", "b");
    assert Find("b", ' ') == -1;
  }

  lemma MergeOfEscaped()
    ensures Merge(["a\\", "b"], None) == ["ab"]
  {
    assert "a\\"[..1] == "a";
    assert ["a\\", "b"][1..] == ["b"];
    assert "a" + "b" == "ab";
    assert Unescaped("ab", false) == "ab";
  }

  /** The merge of unquote_list as evidently intended: a piece ending in a
      backslash was cut at an escaped space, so that space is put back
      when the next piece is glued on. */
  function MergeKept(pieces: seq<string>, last: Option<string>): (r: seq<string>)
    ensures pieces != [] || last.Some? ==> |r| >= 1
    ensures |r| <= |pieces| + (if last.Some? then 1 else 0)
  {
    if pieces == [] then (if last.Some? then [Unescaped(last.value, false)] else [])
    else
      var cur := if last.Some? then last.value + pieces[0] else pieces[0];
      if |cur| > 0 && cur[|cur| - 1] == '\\' then MergeKept(pieces[1..], Some(cur[..|cur| - 1] + " "))
      else [Unescaped(cur, false)] + MergeKept(pieces[1..], None)
  }

  /** unquote_list with the escaped spaces kept. */
  function UnquoteKept(text: string): (r: Result<seq<string>>)
    ensures r.Err? <==> Strip(text) == []
    ensures r.Ok? ==> 1 <= |r.value| <= |Split(Unwrapped(Strip(text)), ' ')|
  {
    var t := Strip(text);
    if t == [] then Err(Crash("IndexError: string index out of range"))
    else Ok(MergeKept(Split(Unwrapped(t), ' '), None))
  }

  /** An element made of plain words with single spaces between them
      survives quote_list and the corrected unquote_list: "a b" comes back
      as "a b". */
  lemma UnquoteKeptSpaced(ws: seq<string>)
    requires |ws| >= 1 && forall i | 0 <= i < |ws| :: Plain(ws[i])
    ensures UnquoteKept(QuoteList([Join(ws, " ")])) == Ok([Join(ws, " ")])
  {
    var x := Join(ws, " ");
    SpacedPieces(ws);
    UnquoteKeptOf(QuoteList([x]), Marked(ws));
    MergeKeptMarked(ws, None);
    SpacedUnescaped(ws);
  }

  lemma UnquoteKeptOf(text: string, pieces: seq<string>)
    requires Strip(text) != [] && Split(Unwrapped(Strip(text)), ' ') == pieces
    ensures UnquoteKept(text) == Ok(MergeKept(pieces, None))
  {
  }

  lemma SpacedUnescaped(ws: seq<string>)
    requires |ws| >= 1 && forall i | 0 <= i < |ws| :: Plain(ws[i])
    ensures Unescaped(None.GetOr("") + Join(ws, " "), false) == Join(ws, " ")
  {
    var x := Join(ws, " ");
    assert None.GetOr("") + x == x;
    JoinFree(ws, " ", '\\');
    UnescapedPlain(x);
  }

  /** What the corrected unquote_list splits the quoted element into. */
  lemma SpacedPieces(ws: seq<string>)
    requires |ws| >= 1 && forall i | 0 <= i < |ws| :: Plain(ws[i])
    ensures var t := Strip(QuoteList([Join(ws, " ")]));
      t != [] && Split(Unwrapped(t), ' ') == Marked(ws)
  {
    QuoteListSpaced(ws);
    var q := Join(Marked(ws), " ");
    MarkedEnds(ws);
    assert Strip(q) == q;
    assert Unwrapped(q) == q;
    SplitJoin(Marked(ws), ' ');
  }

  /** quote_list of the one element: the marked pieces joined by spaces. */
  lemma QuoteListSpaced(ws: seq<string>)
    requires |ws| >= 1 && forall i | 0 <= i < |ws| :: Plain(ws[i])
    ensures QuoteList([Join(ws, " ")]) == Join(Marked(ws), " ")
  {
    var x := Join(ws, " ");
    assert QuotedAll([x]) == [Quoted(x)];
    QuotedWords(ws);
    MarkedJoin(ws);
  }

  /** The pieces quote_list makes of plain words joined by spaces, once
      split at the spaces: every word but the last carries the backslash
      of the escaped space after it. */
  function Marked(ws: seq<string>): (r: seq<string>)
    ensures |r| == |ws|
  {
    if |ws| <= 1 then ws else [ws[0] + "\\"] + Marked(ws[1..])
  }

  lemma {:induction false} QuotedWords(ws: seq<string>)
    requires |ws| >= 1 && forall i | 0 <= i < |ws| :: Plain(ws[i])
    ensures Quoted(Join(ws, " ")) == Join(ws, "\\ ")
    decreases |ws|
  {
    QuotedPlain(ws[0]);
    if |ws| > 1 {
      QuotedWords(ws[1..]);
      JoinHead(ws, " ");
      JoinHead(ws, "\\ ");
      QuotedAppend(ws[0], " " + Join(ws[1..], " "));
      QuotedAppend(" ", Join(ws[1..], " "));
      assert Quoted(" ") == "\\ ";
    }
  }

  lemma {:induction false} MarkedJoin(ws: seq<string>)
    requires |ws| >= 1
    ensures Join(ws, "\\ ") == Join(Marked(ws), " ")
    ensures forall i | 0 <= i < |ws| :: ' ' !in ws[i] ==> ' ' !in Marked(ws)[i]
    decreases |ws|
  {
    if |ws| > 1 {
      MarkedJoin(ws[1..]);
      var ms := Marked(ws);
      assert ms[1..] == Marked(ws[1..]);
      JoinHead(ws, "\\ ");
      JoinHead(ms, " ");
      var rest := Join(ws[1..], "\\ ");
      assert ws[0] + ("\\ " + rest) == (ws[0] + "\\") + (" " + rest);
    }
  }

  lemma MarkedEnds(ws: seq<string>)
    requires |ws| >= 1 && forall i | 0 <= i < |ws| :: Plain(ws[i])
    ensures var q := Join(Marked(ws), " ");
      |q| > 0 && !IsSpace(q[0]) && !IsSpace(q[|q| - 1]) && q[0] != '\'' && q[0] != '"'
    ensures NoneContain(Marked(ws), ' ')
  {
    var ms := Marked(ws);
    MarkedJoin(ws);
    forall i | 0 <= i < |ms|
      ensures |ms[i]| > 0
    {
      MarkedAt(ws, i);
    }
    JoinEnds(ms, " ");
    MarkedAt(ws, 0);
    MarkedAt(ws, |ws| - 1);
  }

  /** Each marked piece is the word, followed by a backslash unless it is
      the last one. */
  lemma {:induction false} MarkedAt(ws: seq<string>, i: nat)
    requires i < |ws|
    ensures Marked(ws)[i] == if i < |ws| - 1 then ws[i] + "\\" else ws[i]
    decreases |ws|
  {
    if |ws| > 1 && i > 0 {
      MarkedAt(ws[1..], i - 1);
    }
  }

  /** The corrected merge glues the marked pieces back into the words with
      single spaces between them. */
  lemma {:induction false} MergeKeptMarked(ws: seq<string>, last: Option<string>)
    requires |ws| >= 1 && forall i | 0 <= i < |ws| :: Plain(ws[i])
    ensures MergeKept(Marked(ws), last) == [Unescaped(last.GetOr("") + Join(ws, " "), false)]
    decreases |ws|
  {
    var pre := last.GetOr("");
    if |ws| == 1 {
      MergeKeptLast(ws[0], last);
    } else {
      MergeKeptGlue(ws, last);
      MergeKeptMarked(ws[1..], Some(pre + ws[0] + " "));
      JoinHead(ws, " ");
      Glued(pre, ws[0], Join(ws[1..], " "));
    }
  }

  lemma Glued(pre: string, w: string, rest: string)
    ensures (pre + w + " ") + rest == pre + (w + (" " + rest))
  {
  }

  /** The last word closes the element. */
  lemma MergeKeptLast(w: string, last: Option<string>)
    requires Plain(w)
    ensures MergeKept([w], last) == [Unescaped(last.GetOr("") + w, false)]
  {
    var cur := if last.Some? then last.value + w else w;
    assert cur == last.GetOr("") + w;
    assert cur[|cur| - 1] == w[|w| - 1];
    assert [w][1..] == [];
  }

  /** A marked word is glued on with its space put back. */
  lemma MergeKeptGlue(ws: seq<string>, last: Option<string>)
    requires |ws| > 1
    ensures MergeKept(Marked(ws), last) == MergeKept(Marked(ws[1..]), Some(last.GetOr("") + ws[0] + " "))
  {
    var ms := Marked(ws);
    var pre := last.GetOr("");
    var cur := if last.Some? then last.value + ms[0] else ms[0];
    assert ms[0] == ws[0] + "\\";
    assert cur == (pre + ws[0]) + "\\";
    assert cur[..|cur| - 1] == pre + ws[0];
    assert ms[1..] == Marked(ws[1..]);
  }

  /** Plain words are read back alike by both merges. */
  lemma {:induction false} MergeKeptPlain(xs: seq<string>)
    requires forall i | 0 <= i < |xs| :: Plain(xs[i])
    ensures MergeKept(xs, None) == Merge(xs, None) == xs
    decreases |xs|
  {
    MergePlain(xs);
    if xs != [] {
      UnescapedPlain(xs[0]);
      MergeKeptPlain(xs[1..]);
    }
  }

  /** The correction keeps the plain-word round trip of quote_list and
      unquote_list. */
  lemma UnquoteKeptPlain(xs: seq<string>)
    requires |xs| >= 1 && forall i | 0 <= i < |xs| :: Plain(xs[i])
    ensures UnquoteKept(QuoteList(xs)) == Unquote(QuoteList(xs)) == Ok(xs)
  {
    UnquoteQuotedPlain(xs);
    QuotedAllPlain(xs);
    var j := Join(xs, " ");
    JoinEnds(xs, " ");
    assert Strip(j) == j;
    assert Unwrapped(j) == j;
    assert NoneContain(xs, ' ');
    SplitJoin(xs, ' ');
    MergeKeptPlain(xs);
  }

  // ---------------------------------------------------------------------
  // replace_root_name, rel_join, pad_to

  /** replace_root_name: a file name under `base` gets `replacement` in
      its place, with a leading "//" cut to "/"; any other name is kept. */
  function ReplaceRootName(base: string, replacement: string, filename: string): (r: string)
    ensures !StartsWith(filename, base) ==> r == filename
    ensures StartsWith(filename, base) && !StartsWith(replacement + filename[|base|..], "//") ==>
      r == replacement + filename[|base|..]
    ensures StartsWith(filename, base) && StartsWith(replacement + filename[|base|..], "//") ==>
      "/" + r == replacement + filename[|base|..]
  {
    if StartsWith(filename, base) then
      var left := replacement + filename[|base|..];
      if |left| > 1 && left[..2] == "//" then left[1..] else left
    else filename
  }

  lemma ReplaceRootNameExamples()
    ensures ReplaceRootName("/a", "/b", "/a/c") == "/b/c"
    ensures ReplaceRootName("/a", "/b", "/d/e") == "/d/e"
    ensures ReplaceRootName("/a", "/", "/a/c") == "/c"
  {
    assert "/a/c"[..2] == "/a";
    assert "/d/e"[1] != "/a"[1];
    assert ("/" + "/c")[..2] == "//";
  }

  /** os.path.join of two POSIX paths: an absolute second path replaces
      the first, otherwise a '/' separates them unless the first is empty
      or already ends with one. */
  function PosixJoin(a: string, b: string): (r: string)
    ensures StartsWith(b, "/") ==> r == b
    ensures !StartsWith(b, "/") ==> EndsWith(r, b) && StartsWith(r, a)
  {
    if |b| > 0 && b[0] == '/' then b
    else if a == "" || a[|a| - 1] == '/' then a + b
    else a + "/" + b
  }

  /** Two paths neither of which has a '/' where they meet are joined by one. */
  lemma PosixJoinPlain(a: string, b: string)
    requires a != "" && a[|a| - 1] != '/' && (b == "" || b[0] != '/')
    ensures PosixJoin(a, b) == a + "/" + b
  {
  }

  /** rel_join: `path` as it would be named inside `vroot`; one leading
      '/' of `path` does not make it escape `vroot`. */
  function RelJoin(vroot: Option<string>, path: string): (r: string)
    ensures vroot.None? ==> r == path
    ensures vroot.Some? && path == "" ==> r == vroot.value
    ensures vroot.Some? && !StartsWith(path, "//") ==> StartsWith(r, vroot.value)
  {
    if vroot.None? then path
    else if |path| == 0 then vroot.value
    else
      var p := if path[0] == '/' then path[1..] else path;
      PosixJoin(vroot.value, p)
  }

  /** The number of copies of `padWith` pad_to appends: Python 2's floor
      division of the shortfall, and none when it is not positive. */
  function PadCount(s: string, val: int, padWith: string): nat
    requires |padWith| > 0
  {
    if val - |s| <= 0 then 0 else (val - |s|) / |padWith|
  }

  function Copies(p: string, n: nat): (r: string)
    ensures |r| == n * |p|
  {
    if n == 0 then "" else Copies(p, n - 1) + p
  }

  /** pad_to: `s` followed by as many whole copies of `padWith` as fit in
      the width `val`. */
  method PadTo(s: string, val: int, padWith: string) returns (r: string)
    requires |padWith| > 0
    ensures r == s + Copies(padWith, PadCount(s, val, padWith))
    ensures |s| <= |r| && |r| <= if |s| < val then val else |s|
    ensures |padWith| == 1 && |s| <= val ==> |r| == val
  {
    var toPad := PadCount(s, val, padWith);
    r := s;
    var i := 0;
    while i < toPad
      invariant 0 <= i <= toPad
      invariant r == s + Copies(padWith, i)
    {
      r := r + padWith;
      i := i + 1;
    }
    if |s| < val {
      assert toPad * |padWith| <= val - |s|;
    }
  }

  // ---------------------------------------------------------------------
  // parse_mode

  predicate IsOctalDigit(c: char) { '0' <= c <= '7' }

  /** The value of a string of octal digits. */
  function OctalValue(s: string): nat
    requires AllChars(s, IsOctalDigit)
  {
    if s == [] then 0 else 8 * OctalValue(s[..|s| - 1]) + (s[|s| - 1] as int - '0' as int)
  }

  /** The octal digits of n, without leading zeros ("0" for zero). */
  function OctalString(n: nat): (s: string)
    ensures |s| > 0 && AllChars(s, IsOctalDigit)
  {
    var d := ['0' + ((n % 8) as char)];
    if n < 8 then d else OctalString(n / 8) + d
  }

  lemma {:induction false} OctalRoundTrip(n: nat)
    ensures OctalValue(OctalString(n)) == n
  {
    var s := OctalString(n);
    if n >= 8 {
      OctalRoundTrip(n / 8);
      assert s[..|s| - 1] == OctalString(n / 8);
    }
  }

  /** All the permission bits a numeric mode sets or clears (07777). */
  const AllModeBits := 4095

  /** parse_mode: a mode starting with a digit is octal and yields
      (07777, its value); a symbolic mode is refused with GiveUp. A
      non-octal digit is a ValueError and an empty mode an IndexError. */
  function ParseMode(mode: string): (r: Result<(int, int)>)
    ensures r.Ok? <==> |mode| > 0 && AllChars(mode, IsOctalDigit)
    ensures r.Ok? ==> r.value.0 == AllModeBits && 0 <= r.value.1
    ensures |mode| > 0 && !IsDigit(mode[0]) ==> r == Err(GiveUp("Unsupported UNIX modespec"))
  {
    if |mode| == 0 then Err(Crash("IndexError: string index out of range"))
    else if !IsDigit(mode[0]) then Err(GiveUp("Unsupported UNIX modespec"))
    else if !AllChars(mode, IsOctalDigit) then Err(Crash("ValueError: invalid literal for int() with base 8"))
    else Ok((AllModeBits, OctalValue(mode)))
  }

  /** Every mode written out in octal parses back to itself. */
  lemma ParseModeOctal(n: nat)
    ensures ParseMode(OctalString(n)) == Ok((AllModeBits, n))
  {
    OctalRoundTrip(n);
  }

  // ---------------------------------------------------------------------
  // os.path.join over several components

  /** A path to which os.path.join adds "/" and the next component. */
  predicate JoinableBase(b: string) { |b| > 0 && b[|b| - 1] != '/' }

  /** os.path.join of a base and several components. */
  function JoinPath(base: string, parts: seq<string>): string
    decreases |parts|
  {
    if parts == [] then base else JoinPath(PosixJoin(base, parts[0]), parts[1..])
  }

  /** Components that os.path.join simply puts after a "/". */
  predicate PlainComponents(parts: seq<string>) {
    forall i | 0 <= i < |parts| :: |parts[i]| > 0 && '/' !in parts[i]
  }

  /** A component that neither starts nor ends with "/". */
  predicate Relative(p: string) { |p| > 0 && p[0] != '/' && p[|p| - 1] != '/' }

  predicate RelativeComponents(parts: seq<string>) {
    forall i | 0 <= i < |parts| :: Relative(parts[i])
  }

  lemma PlainIsRelative(parts: seq<string>)
    requires PlainComponents(parts)
    ensures RelativeComponents(parts)
  {
    forall i | 0 <= i < |parts| ensures Relative(parts[i]) {
      var p := parts[i];
      assert p[0] in p && p[|p| - 1] in p;
    }
  }

  /** Joining relative components onto a joinable base is putting them after
      it, each behind a "/". */
  lemma {:induction false} JoinPathFlat(base: string, parts: seq<string>)
    requires JoinableBase(base) && RelativeComponents(parts) && parts != []
    ensures JoinPath(base, parts) == base + "/" + Join(parts, "/")
    decreases |parts|
  {
    var p := parts[0];
    var b := JoinStep(base, p, parts);
    if |parts| > 1 {
      var rest := parts[1..];
      RelativeTail(parts);
      JoinPathFlat(b, rest);
      JoinHead(parts, "/");
      Regroup(base, p, Join(rest, "/"));
    } else {
      assert parts[1..] == [];
    }
  }

  lemma Regroup(base: string, p: string, j: string)
    ensures (base + "/" + p) + "/" + j == base + "/" + (p + ("/" + j))
  {
  }

  /** One step of the join: a relative component goes behind a "/" and
      leaves a joinable base. */
  lemma JoinStep(base: string, p: string, parts: seq<string>) returns (b: string)
    requires JoinableBase(base) && Relative(p) && parts != [] && parts[0] == p
    ensures b == base + "/" + p && JoinableBase(b)
    ensures JoinPath(base, parts) == JoinPath(b, parts[1..])
  {
    b := base + "/" + p;
    assert PosixJoin(base, p) == b;
    assert b[|b| - 1] == p[|p| - 1];
  }

  lemma RelativeTail(parts: seq<string>)
    requires RelativeComponents(parts) && parts != []
    ensures RelativeComponents(parts[1..])
  {
    forall i | 0 <= i < |parts| - 1 ensures Relative(parts[1..][i]) {
      assert parts[1..][i] == parts[i + 1];
    }
  }

  lemma JoinPathOne(base: string, part: string)
    ensures JoinPath(base, [part]) == PosixJoin(base, part)
  {
    assert [part][1..] == [];
  }
}
