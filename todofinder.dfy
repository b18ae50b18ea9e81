// The reusable parts of sandbox/ToDoFinder/FullCheckNames.py: fileLineIter,
// which splits a stream read in chunks at a newline string, and the exit code
// `output` chooses from what the scan found.

module ToDoFinder {
  import opened Wrappers
  import opened Text

  // ---------------------------------------------------------------------
  // fileLineIter

  /** The text a stream of reads delivers: every chunk up to the first empty
      one, which marks the end of the file. */
  function ReadText(chunks: seq<string>): string {
    if chunks == [] || chunks[0] == "" then "" else chunks[0] + ReadText(chunks[1..])
  }

  /** Each part with the output newline after it. */
  function Terminated(parts: seq<string>, out: string): (r: seq<string>)
    ensures |r| == |parts|
  {
    seq(|parts|, i requires 0 <= i < |parts| => parts[i] + out)
  }

  /** What fileLineIter yields for the whole text: every part the newline
      ends, with `out` after it, then the unterminated tail if it is not
      empty. */
  function LinesOf(text: string, nl: char, out: string): seq<string> {
    Terminated(Ended(text, nl), out) + (if Tail(text, nl) != "" then [Tail(text, nl)] else [])
  }

  /** The parts of the text that the newline ends. */
  function Ended(text: string, nl: char): seq<string> {
    var parts := Split(text, nl);
    parts[..|parts| - 1]
  }

  /** The part after the last newline. */
  function Tail(text: string, nl: char): string {
    var parts := Split(text, nl);
    parts[|parts| - 1]
  }

  /** The output newline: the input newline unless another is given. */
  function OutputNewline(nl: char, outputNewline: Option<string>): string {
    if outputNewline.None? then [nl] else outputNewline.value
  }

  /** fileLineIter over the reads `chunks` (read(readSize) returning "" at the
      end of the file): the lines it yields, in order. */
  method FileLineIter(chunks: seq<string>, inputNewline: char, outputNewline: Option<string>) returns (items: seq<string>)
    ensures items == LinesOf(ReadText(chunks), inputNewline, OutputNewline(inputNewline, outputNewline))
  {
    var out := if outputNewline.None? then [inputNewline] else outputNewline.value;
    var partialLine := "";
    items := [];
    ghost var text := "";
    var i := 0;
    // read() returning "" ends the loop, as does running out of reads
    while i < |chunks| && chunks[i] != ""
      invariant 0 <= i <= |chunks|
      invariant ReadText(chunks) == text + ReadText(chunks[i..])
      invariant items == Terminated(Ended(text, inputNewline), out) && partialLine == Tail(text, inputNewline)
    {
      var charsJustRead := chunks[i];
      ReadMore(chunks, i, text);
      Advance(text, charsJustRead, inputNewline, out);
      items, partialLine := SplitRead(items, partialLine, charsJustRead, inputNewline, out);
      text := text + charsJustRead;
      i := i + 1;
    }
    assert ReadText(chunks) == text by {
      if i < |chunks| {
        assert chunks[i..][0] == chunks[i];
      }
    }
    if partialLine != "" {
      items := items + [partialLine];
    }
  }

  /** One pass of fileLineIter's loop over a read: the carried partial line
      with the new characters is split at the newline, every part but the
      last is yielded with the output newline, and the last is carried on. */
  method SplitRead(items: seq<string>, partialLine: string, charsJustRead: string, nl: char, out: string)
    returns (items': seq<string>, partialLine': string)
    ensures items' == items + Terminated(Ended(partialLine + charsJustRead, nl), out)
    ensures partialLine' == Tail(partialLine + charsJustRead, nl)
  {
    var lines := Split(partialLine + charsJustRead, nl);
    partialLine' := lines[|lines| - 1];
    items' := YieldLines(items, lines[..|lines| - 1], out);
  }

  /** The inner loop of fileLineIter: every line of the read with the output
      newline after it. */
  method YieldLines(items: seq<string>, lines: seq<string>, out: string) returns (r: seq<string>)
    ensures r == items + Terminated(lines, out)
  {
    r := items;
    for j := 0 to |lines|
      invariant r == items + Terminated(lines[..j], out)
    {
      TerminatedSnoc(lines, j, out);
      r := r + [lines[j] + out];
    }
    assert lines[..|lines|] == lines;
  }

  /** One read: the parts ended so far stay, and the carried tail with the
      new characters gives the parts that follow. */
  lemma Advance(text: string, chunk: string, nl: char, out: string)
    ensures Terminated(Ended(text + chunk, nl), out) ==
              Terminated(Ended(text, nl), out) + Terminated(Ended(Tail(text, nl) + chunk, nl), out)
    ensures Tail(text + chunk, nl) == Tail(Tail(text, nl) + chunk, nl)
  {
    EndedAppend(text, chunk, nl);
    TerminatedAppend(Ended(text, nl), Ended(Tail(text, nl) + chunk, nl), out);
  }

  lemma EndedAppend(text: string, chunk: string, nl: char)
    ensures Ended(text + chunk, nl) == Ended(text, nl) + Ended(Tail(text, nl) + chunk, nl)
    ensures Tail(text + chunk, nl) == Tail(Tail(text, nl) + chunk, nl)
  {
    var ps := Split(text, nl);
    var tail := Tail(text, nl);
    assert tail == ps[|ps| - 1];
    var ls := Split(tail + chunk, nl);
    SplitAppend(text, chunk, nl);
    var ns := Split(text + chunk, nl);
    assert ns == ps[..|ps| - 1] + ls;
    AppendEnds(ps[..|ps| - 1], ls);
    assert Ended(text + chunk, nl) == ns[..|ns| - 1];
    assert Ended(tail + chunk, nl) == ls[..|ls| - 1];
  }

  /** A non-empty read adds itself to the text. */
  lemma ReadMore(chunks: seq<string>, i: nat, text: string)
    requires i < |chunks| && chunks[i] != ""
    ensures text + ReadText(chunks[i..]) == (text + chunks[i]) + ReadText(chunks[i + 1..])
  {
    assert chunks[i..][1..] == chunks[i + 1..];
    SeqAssoc(text, chunks[i], ReadText(chunks[i + 1..]));
  }

  lemma TerminatedSnoc(parts: seq<string>, j: nat, out: string)
    requires j < |parts|
    ensures Terminated(parts[..j + 1], out) == Terminated(parts[..j], out) + [parts[j] + out]
  {
  }

  lemma TerminatedAppend(a: seq<string>, b: seq<string>, out: string)
    ensures Terminated(a + b, out) == Terminated(a, out) + Terminated(b, out)
  {
  }

  /** Splitting s + t: the parts the separator ends in s stay, and the last
      part of s continues into t. */
  lemma {:induction false} SplitAppend(s: string, t: string, c: char)
    ensures var ps := Split(s, c);
      Split(s + t, c) == ps[..|ps| - 1] + Split(ps[|ps| - 1] + t, c)
    decreases |s|
  {
    var k := Find(s, c);
    var ps := Split(s, c);
    if k == -1 {
      assert ps == [s];
      assert Split(s + t, c) == ps[..|ps| - 1] + Split(ps[|ps| - 1] + t, c);
    } else {
      var head := s[..k];
      var rest := s[k + 1..];
      SplitHead(s, c, k);
      Around(s, k);
      var qs := Split(rest, c);
      SplitAppendAt(s, head, rest, t, c);
      SplitAppend(rest, t, c);
      ConsEnds(head, qs);
      var x := Split(qs[|qs| - 1] + t, c);
      SeqAssoc([head], qs[..|qs| - 1], x);
    }
  }

  /** A separator after a part free of it: the part, then the rest. */
  lemma SplitAppendAt(s: string, head: string, rest: string, t: string, c: char)
    requires s == head + ([c] + rest) && c !in head
    ensures Split(s + t, c) == [head] + Split(rest + t, c)
  {
    var u := s + t;
    assert u == head + ([c] + (rest + t));
    FindAfterFree(head, [c] + (rest + t), c);
    SplitAt(u, c, head, rest + t);
  }

  lemma AppendEnds<T>(a: seq<T>, b: seq<T>)
    requires |b| >= 1
    ensures var p := a + b;
      p[..|p| - 1] == a + b[..|b| - 1] && p[|p| - 1] == b[|b| - 1]
  {
    var p := a + b;
    assert p[..|p| - 1] == a + b[..|b| - 1];
  }

  lemma SeqAssoc<T>(a: seq<T>, b: seq<T>, c: seq<T>)
    ensures a + (b + c) == (a + b) + c
  {
  }

  lemma ConsEnds<T>(h: T, q: seq<T>)
    requires |q| >= 1
    ensures var p := [h] + q;
      p[..|p| - 1] == [h] + q[..|q| - 1] && p[|p| - 1] == q[|q| - 1]
  {
  }

  // ---------------------------------------------------------------------
  // Properties of fileLineIter

  /** Reads that are never empty deliver all of their characters, so the
      read size changes only the chunking, never what is yielded. */
  lemma {:induction false} ReadAll(chunks: seq<string>)
    requires forall i | 0 <= i < |chunks| :: chunks[i] != ""
    ensures ReadText(chunks) == Concat(chunks)
  {
    if chunks != [] {
      ReadAll(chunks[1..]);
    }
  }

  /** With the default output newline, the lines yielded put back together
      give the text read. */
  lemma LinesJoin(text: string, nl: char)
    ensures Concat(LinesOf(text, nl, [nl])) == text
  {
    var parts := Split(text, nl);
    var tail := parts[|parts| - 1];
    var init := parts[..|parts| - 1];
    assert parts == init + [tail];
    ConcatTerminated(init, tail, [nl]);
    JoinSplit(text, nl);
    ConcatAppend(Terminated(init, [nl]), if tail != "" then [tail] else []);
  }

  lemma {:induction false} ConcatAppend(a: seq<string>, b: seq<string>)
    ensures Concat(a + b) == Concat(a) + Concat(b)
  {
    if a != [] {
      assert (a + b)[0] == a[0];
      assert (a + b)[1..] == a[1..] + b;
      ConcatAppend(a[1..], b);
    } else {
      assert a + b == b;
    }
  }

  /** Parts each followed by the separator, then a last part: the parts
      joined by the separator. */
  lemma {:induction false} ConcatTerminated(parts: seq<string>, last: string, sep: string)
    ensures Concat(Terminated(parts, sep)) + last == Join(parts + [last], sep)
  {
    if parts != [] {
      ConcatTerminated(parts[1..], last, sep);
      assert Terminated(parts, sep)[1..] == Terminated(parts[1..], sep);
      assert (parts + [last])[1..] == parts[1..] + [last];
      JoinHead(parts + [last], sep);
    }
  }

  /** Every item but the last is a line free of the newline followed by the
      output newline; the last one is either such a line or the tail, which
      is not empty. Empty input yields nothing. */
  lemma LinesShape(text: string, nl: char, out: string)
    ensures var items := LinesOf(text, nl, out);
      && (forall i | 0 <= i < |items| - 1 ::
            EndsWith(items[i], out) && nl !in items[i][..|items[i]| - |out|])
      && (items == [] <==> text == "")
  {
    var parts := Split(text, nl);
    var items := LinesOf(text, nl, out);
    var init := parts[..|parts| - 1];
    forall i | 0 <= i < |items| - 1
      ensures EndsWith(items[i], out) && nl !in items[i][..|items[i]| - |out|]
    {
      assert i < |init|;
      assert items[i] == init[i] + out;
      assert items[i][..|items[i]| - |out|] == parts[i];
      assert items[i][|items[i]| - |out|..] == out;
    }
    if text == "" {
      assert Find(text, nl) == -1;
    } else if Find(text, nl) == -1 {
      assert parts == [text];
    } else {
      assert |init| > 0;
    }
  }

  // ---------------------------------------------------------------------
  // output

  /** output's exit code from the findings of the scan: 2 when a comment is
      left open, else 4 when the two sides of a `//==` differ, else 8 when
      there is a TODO, else nothing. */
  function ExitCode<C, M, T>(comments: seq<C>, mismatches: seq<M>, todos: seq<T>): (r: Option<int>)
    ensures r.None? <==> comments == [] && mismatches == [] && todos == []
    ensures r.Some? ==> r.value == 2 || r.value == 4 || r.value == 8
  {
    if comments != [] then Some(2)
    else if mismatches != [] then Some(4)
    else if todos != [] then Some(8)
    else None
  }

  /** The code names the highest-priority kind of finding present, whatever
      the lower-priority lists hold. */
  lemma ExitCodePriority<C, M, T>(comments: seq<C>, mismatches: seq<M>, todos: seq<T>, m2: seq<M>, t2: seq<T>)
    ensures comments != [] ==> ExitCode(comments, mismatches, todos) == ExitCode(comments, m2, t2) == Some(2)
    ensures comments == [] && mismatches != [] ==> ExitCode(comments, mismatches, todos) == ExitCode(comments, mismatches, t2) == Some(4)
    ensures ExitCode(comments, mismatches, todos) == Some(8) <==> comments == [] && mismatches == [] && todos != []
  {
  }
}
