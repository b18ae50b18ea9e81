/** String helpers shared by the model: character classes, Python's
    str.find/split/join/startswith, and Python's ordering on strings. */
module Text {
  import opened Wrappers

  predicate IsUpper(c: char) { 'A' <= c <= 'Z' }
  predicate IsLower(c: char) { 'a' <= c <= 'z' }
  predicate IsLetter(c: char) { IsUpper(c) || IsLower(c) }
  predicate IsDigit(c: char) { '0' <= c <= '9' }
  predicate IsAlnum(c: char) { IsLetter(c) || IsDigit(c) }
  predicate IsHexDigit(c: char) { IsDigit(c) || 'a' <= c <= 'f' || 'A' <= c <= 'F' }

  /** Python's str.isspace on one character (ASCII whitespace). */
  predicate IsSpace(c: char) {
    c == ' ' || c == '\t' || c == '\n' || c == '\r' || c == '\U{B}' || c == '\U{C}'
  }

  /** The characters of the regular expression class [A-Za-z0-9_-]. */
  predicate IsNameChar(c: char) { IsAlnum(c) || c == '_' || c == '-' }

  predicate AllChars(s: string, p: char -> bool) { forall i | 0 <= i < |s| :: p(s[i]) }

  /** s is a full match of [A-Za-z0-9_-]+ */
  predicate IsName(s: string) { |s| > 0 && forall i | 0 <= i < |s| :: IsNameChar(s[i]) }

  predicate AllDigits(s: string) { forall i | 0 <= i < |s| :: IsDigit(s[i]) }

  function ToLower(c: char): (r: char)
    ensures IsUpper(c) ==> IsLower(r)
    ensures !IsUpper(c) ==> r == c
  {
    if IsUpper(c) then (c as int + 32) as char else c
  }

  function LowerString(s: string): (r: string)
    ensures |r| == |s|
    ensures forall i | 0 <= i < |s| :: r[i] == ToLower(s[i])
  {
    if s == [] then [] else [ToLower(s[0])] + LowerString(s[1..])
  }

  predicate StartsWith(s: string, prefix: string) {
    |prefix| <= |s| && s[..|prefix|] == prefix
  }

  predicate EndsWith(s: string, suffix: string) {
    |suffix| <= |s| && s[|s| - |suffix|..] == suffix
  }

  /** Python's `word in s`. */
  predicate Occurs(word: string, s: string) {
    exists i | 0 <= i <= |s| :: StartsWith(s[i..], word)
  }

  function StripLeft(s: string): (r: string)
    ensures r == [] || !IsSpace(r[0])
    ensures |r| <= |s| && r == s[|s| - |r|..]
  {
    if s != [] && IsSpace(s[0]) then StripLeft(s[1..]) else s
  }

  function StripRight(s: string): (r: string)
    ensures r == [] || !IsSpace(r[|r| - 1])
    ensures |r| <= |s| && r == s[..|r|]
  {
    if s != [] && IsSpace(s[|s| - 1]) then StripRight(s[..|s| - 1]) else s
  }

  /** Python's str.strip(): leading and trailing whitespace removed. */
  function Strip(s: string): (r: string)
    ensures r == [] || (!IsSpace(r[0]) && !IsSpace(r[|r| - 1]))
    ensures |r| <= |s|
    ensures s == [] || (!IsSpace(s[0]) && !IsSpace(s[|s| - 1])) ==> r == s
  {
    var l := StripLeft(s);
    assert l == [] || !IsSpace(l[0]);
    var r := StripRight(l);
    assert r != [] ==> r[0] == l[0];
    r
  }

  /** A stripped string has no space at either end. */
  lemma StripAround(s: string)
    requires Strip(s) == s
    ensures s == "" || (!IsSpace(s[0]) && !IsSpace(s[|s| - 1]))
  {
  }

  /** Leading spaces are stripped up to the first other character. */
  lemma {:induction false} StripLeftSpaces(w: string, s: string)
    requires forall i | 0 <= i < |w| :: IsSpace(w[i])
    requires s == "" || !IsSpace(s[0])
    ensures StripLeft(w + s) == s
    decreases |w|
  {
    if w != [] {
      assert (w + s)[1..] == w[1..] + s;
      StripLeftSpaces(w[1..], s);
    } else {
      assert w + s == s;
    }
  }

  /** Trailing spaces are stripped back to the last other character. */
  lemma {:induction false} StripRightSpaces(s: string, w: string)
    requires forall i | 0 <= i < |w| :: IsSpace(w[i])
    requires s == "" || !IsSpace(s[|s| - 1])
    ensures StripRight(s + w) == s
    decreases |w|
  {
    if w != [] {
      assert (s + w)[..|s + w| - 1] == s + w[..|w| - 1];
      StripRightSpaces(s, w[..|w| - 1]);
    } else {
      assert s + w == s;
    }
  }

  /** Nothing but spaces strips to nothing. */
  lemma StripSpaces(w: string)
    requires forall i | 0 <= i < |w| :: IsSpace(w[i])
    ensures Strip(w) == ""
  {
    StripLeftSpaces(w, "");
    assert w + "" == w;
  }

  /** A stripped string with spaces added around it strips back to it. */
  lemma StripPadded(a: string, s: string, b: string)
    requires forall i | 0 <= i < |a| :: IsSpace(a[i])
    requires forall i | 0 <= i < |b| :: IsSpace(b[i])
    requires Strip(s) == s
    ensures Strip(a + s + b) == s
  {
    if s == "" {
      assert a + s + b == a + b;
      StripSpaces(a + b);
    } else {
      StripAround(s);
      assert a + s + b == a + (s + b);
      StripLeftSpaces(a, s + b);
      StripRightSpaces(s, b);
    }
  }

  /** A string with no space at either end is stripped. */
  lemma Stripped(s: string)
    requires s != "" && !IsSpace(s[0]) && !IsSpace(s[|s| - 1])
    ensures Strip(s) == s
  {
  }

  /** A string with no space at either end, followed by spaces, strips
      back to it. */
  lemma StripTrailing(s: string, w: string)
    requires s != "" && !IsSpace(s[0]) && !IsSpace(s[|s| - 1])
    requires forall i | 0 <= i < |w| :: IsSpace(w[i])
    ensures Strip(s + w) == s
  {
    assert (s + w)[0] == s[0];
    StripRightSpaces(s, w);
  }

  /** A stripped string with a space after it strips back to it. */
  lemma SpaceAfterStrips(s: string)
    requires Strip(s) == s
    ensures Strip(s + " ") == s
  {
    if s != "" {
      StripAround(s);
      assert (s + " ")[0] == s[0];
      StripRightSpaces(s, " ");
    }
  }

  /** A stripped string with a space before it strips back to it. */
  lemma SpaceBeforeStrips(s: string)
    requires Strip(s) == s
    ensures Strip(" " + s) == s
  {
    StripPadded(" ", s, "");
    assert " " + s + "" == " " + s;
  }

  function DigitValue(c: char): nat
    requires IsDigit(c)
  {
    c as int - '0' as int
  }

  /** The value of a string of decimal digits. */
  function DecimalValue(s: string): nat
    requires AllDigits(s)
  {
    if s == [] then 0 else 10 * DecimalValue(s[..|s| - 1]) + DigitValue(s[|s| - 1])
  }

  /** '%d' of a natural number: its decimal digits, no leading zero. */
  function DecimalString(n: nat): (s: string)
    ensures |s| > 0 && AllDigits(s)
    ensures |s| > 1 ==> s[0] != '0'
  {
    var d := ['0' + ((n % 10) as char)];
    if n < 10 then d else DecimalString(n / 10) + d
  }

  lemma {:induction false} DecimalRoundTrip(n: nat)
    ensures DecimalValue(DecimalString(n)) == n
  {
    var s := DecimalString(n);
    if n >= 10 {
      DecimalRoundTrip(n / 10);
      assert s[..|s| - 1] == DecimalString(n / 10);
    }
  }

  /** Python's int(s, 10): surrounding whitespace, an optional sign and at
      least one decimal digit; anything else is a ValueError (None). */
  function ParseInt(s: string): (r: Option<int>)
    ensures AllDigits(s) && |s| > 0 ==> r == Some(DecimalValue(s))
  {
    var t := Strip(s);
    if t == [] then None
    else
      var neg := t[0] == '-';
      var digits := if t[0] == '-' || t[0] == '+' then t[1..] else t;
      if digits == [] || !AllDigits(digits) then None
      else
        var v: int := DecimalValue(digits);
        Some(if neg then -v else v)
  }

  /** Python's str.find for one character: the first index of c, or -1. */
  function Find(s: string, c: char): (r: int)
    ensures -1 <= r < |s|
    ensures r == -1 <==> c !in s
    ensures r >= 0 ==> s[r] == c && c !in s[..r]
  {
    if s == [] then -1
    else if s[0] == c then 0
    else var k := Find(s[1..], c); if k == -1 then -1 else k + 1
  }

  /** The index of the last `c` in `s`, or -1 (str.rfind). */
  function LastIndex(s: string, c: char): (r: int)
    ensures -1 <= r < |s|
    ensures r == -1 <==> c !in s
    ensures r >= 0 ==> s[r] == c && c !in s[r + 1..]
  {
    if s == [] then -1
    else if s[|s| - 1] == c then |s| - 1
    else
      var k := LastIndex(s[..|s| - 1], c);
      assert s == s[..|s| - 1] + [s[|s| - 1]];
      k
  }

  /** Text without `c` after the last `c` leaves its index unchanged. */
  lemma {:induction false} LastIndexAppend(b: string, w: string, c: char)
    requires c !in w
    ensures LastIndex(b + w, c) == LastIndex(b, c)
    decreases |w|
  {
    if w == [] {
      assert b + w == b;
    } else {
      var w' := w[..|w| - 1];
      assert (b + w)[..|b + w| - 1] == b + w';
      assert c !in w' by { assert forall i | 0 <= i < |w'| :: w'[i] == w[i]; }
      LastIndexAppend(b, w', c);
    }
  }

  /** The string made of n copies of c. */
  function Repeat(c: char, n: nat): (r: string)
    ensures |r| == n
    ensures forall i | 0 <= i < n :: r[i] == c
  {
    if n == 0 then [] else [c] + Repeat(c, n - 1)
  }

  /** Python's sep.join(parts) for a one-character separator. */
  function Join(parts: seq<string>, sep: string): string
  {
    if parts == [] then ""
    else if |parts| == 1 then parts[0]
    else parts[0] + sep + Join(parts[1..], sep)
  }

  /** The strings one after another (''.join). */
  function Concat(ss: seq<string>): string {
    if ss == [] then "" else ss[0] + Concat(ss[1..])
  }

  /** Python's s.split(c) for a one-character separator: never empty. */
  function Split(s: string, c: char): (r: seq<string>)
    ensures |r| >= 1
    ensures forall i | 0 <= i < |r| :: c !in r[i]
    decreases |s|
  {
    var k := Find(s, c);
    if k == -1 then [s] else [s[..k]] + Split(s[k + 1..], c)
  }

  lemma {:induction false} JoinSplit(s: string, c: char)
    ensures Join(Split(s, c), [c]) == s
    decreases |s|
  {
    var k := Find(s, c);
    if k != -1 {
      var rest := Split(s[k + 1..], c);
      SplitHead(s, c, k);
      JoinSplit(s[k + 1..], c);
      JoinCons(s[..k], rest, [c]);
      Around(s, k);
    }
  }

  lemma JoinCons(head: string, rest: seq<string>, sep: string)
    requires |rest| >= 1
    ensures Join([head] + rest, sep) == head + (sep + Join(rest, sep))
  {
    assert ([head] + rest)[1..] == rest;
  }

  /** s taken apart around its k-th character. */
  lemma Around(s: string, k: int)
    requires 0 <= k < |s|
    ensures s == s[..k] + ([s[k]] + s[k + 1..])
  {
  }

  /** The two sides of a string put together around one character. */
  lemma Sides(a: string, c: char, b: string)
    ensures (a + ([c] + b))[..|a|] == a
    ensures (a + ([c] + b))[|a| + 1..] == b
  {
    var s := a + ([c] + b);
    assert s[..|a|] == a;
    assert forall i | 0 <= i < |b| :: s[|a| + 1 + i] == b[i];
    assert s[|a| + 1..] == b;
  }

  lemma {:induction false} SplitHead(s: string, c: char, k: int)
    requires k == Find(s, c) && k != -1
    ensures Split(s, c) == [s[..k]] + Split(s[k + 1..], c)
  {
    var r := Split(s, c);
    assert r == (var k' := Find(s, c); if k' == -1 then [s] else [s[..k']] + Split(s[k' + 1..], c));
  }

  /** No part contains c. */
  predicate NoneContain(parts: seq<string>, c: char) {
    forall i | 0 <= i < |parts| :: c !in parts[i]
  }

  lemma {:induction false} SplitJoin(parts: seq<string>, c: char)
    requires |parts| >= 1 && NoneContain(parts, c)
    ensures Split(Join(parts, [c]), c) == parts
    decreases |parts|
  {
    if |parts| > 1 {
      var rest := Join(parts[1..], [c]);
      JoinHead(parts, [c]);
      NoneContainHead(parts, c);
      FindAfterFree(parts[0], [c] + rest, c);
      SplitAt(parts[0] + ([c] + rest), c, parts[0], rest);
      SplitJoin(parts[1..], c);
      assert parts == [parts[0]] + parts[1..];
    } else {
      NoneContainHead(parts, c);
      assert Find(parts[0], c) == -1;
    }
  }

  /** A character in neither the parts nor the separator is not in their join. */
  lemma JoinFree(parts: seq<string>, sep: string, c: char)
    requires c !in sep
    requires forall i | 0 <= i < |parts| :: c !in parts[i]
    ensures c !in Join(parts, sep)
    decreases |parts|
  {
    if |parts| > 1 { JoinFree(parts[1..], sep, c); }
  }

  lemma JoinHead(parts: seq<string>, sep: string)
    requires |parts| > 1
    ensures Join(parts, sep) == parts[0] + (sep + Join(parts[1..], sep))
  {
  }

  lemma NoneContainHead(parts: seq<string>, c: char)
    requires |parts| >= 1 && NoneContain(parts, c)
    ensures c !in parts[0] && NoneContain(parts[1..], c)
  {
    forall i | 0 <= i < |parts| - 1 ensures c !in parts[1..][i] { assert parts[1..][i] == parts[i + 1]; }
  }

  /** Splitting at the first separator. */
  lemma SplitAt(s: string, c: char, head: string, rest: string)
    requires s == head + ([c] + rest) && Find(s, c) == |head|
    ensures Split(s, c) == [head] + Split(rest, c)
  {
    assert s[..|head|] == head;
    assert s[|head| + 1..] == rest;
  }

  lemma {:induction false} FindAfterFree(a: string, b: string, c: char)
    requires c !in a && |b| > 0 && b[0] == c
    ensures Find(a + b, c) == |a|
    decreases |a|
  {
    if a != [] {
      assert (a + b)[1..] == a[1..] + b;
      FindAfterFree(a[1..], b, c);
    }
  }

  /** Python's ordering on strings: lexicographic by character code, a proper
      prefix sorts first. */
  predicate LexLess(a: string, b: string)
    decreases |a|
  {
    if a == [] then b != []
    else if b == [] then false
    else if a[0] != b[0] then a[0] < b[0]
    else LexLess(a[1..], b[1..])
  }

  lemma {:induction false} LexLessIrreflexive(a: string)
    ensures !LexLess(a, a)
    decreases |a|
  {
    if a != [] { LexLessIrreflexive(a[1..]); }
  }

  lemma {:induction false} LexLessAsymmetric(a: string, b: string)
    requires LexLess(a, b)
    ensures !LexLess(b, a)
    decreases |a|
  {
    if a != [] && b != [] && a[0] == b[0] { LexLessAsymmetric(a[1..], b[1..]); }
  }

  lemma {:induction false} LexLessTransitive(a: string, b: string, c: string)
    requires LexLess(a, b) && LexLess(b, c)
    ensures LexLess(a, c)
    decreases |a|
  {
    if a != [] && b != [] && c != [] && a[0] == b[0] && b[0] == c[0] {
      LexLessTransitive(a[1..], b[1..], c[1..]);
    }
  }

  lemma {:induction false} LexLessTotal(a: string, b: string)
    requires a != b
    ensures LexLess(a, b) || LexLess(b, a)
    decreases |a|
  {
    if a != [] && b != [] && a[0] == b[0] {
      assert a == [a[0]] + a[1..] && b == [b[0]] + b[1..];
      LexLessTotal(a[1..], b[1..]);
    }
  }

  /** A proper prefix sorts before the longer string. */
  lemma {:induction false} PrefixLexLess(a: string, rest: string)
    requires rest != []
    ensures LexLess(a, a + rest)
    decreases |a|
  {
    if a != [] {
      assert (a + rest)[1..] == a[1..] + rest;
      PrefixLexLess(a[1..], rest);
    }
  }

  predicate LexLeq(a: string, b: string) { a == b || LexLess(a, b) }

  /** Python 2 orders None before every string. */
  predicate OptionLess(x: Option<string>, y: Option<string>) {
    (x.None? && y.Some?) || (x.Some? && y.Some? && LexLess(x.value, y.value))
  }

  lemma OptionLessTotal(x: Option<string>, y: Option<string>)
    requires x != y
    ensures OptionLess(x, y) != OptionLess(y, x)
  {
    if x.Some? && y.Some? {
      LexLessTotal(x.value, y.value);
      if LexLess(x.value, y.value) { LexLessAsymmetric(x.value, y.value); }
    }
  }

  lemma OptionLessTransitive(x: Option<string>, y: Option<string>, z: Option<string>)
    requires OptionLess(x, y) && OptionLess(y, z)
    ensures OptionLess(x, z)
  {
    if x.Some? { LexLessTransitive(x.value, y.value, z.value); }
  }

  /** Sorted in Python's string order. */
  predicate Sorted(s: seq<string>) {
    forall i, j | 0 <= i < j < |s| :: LexLeq(s[i], s[j])
  }

  /** Python's sorted() on a list of strings (the order is unique, so
      stability does not matter). */
  function SortStrings(s: seq<string>): (r: seq<string>)
    ensures Sorted(r)
    ensures multiset(r) == multiset(s)
    ensures |r| == |s|
  {
    if s == [] then []
    else
      assert s == [s[0]] + s[1..];
      Insert(s[0], SortStrings(s[1..]))
  }

  /** Sorting two distinct strings puts the smaller first. */
  lemma SortTwo(x: string, y: string)
    requires x != y
    ensures SortStrings([x, y]) == if LexLess(x, y) then [x, y] else [y, x]
  {
    assert [x, y][1..] == [y];
    assert SortStrings([y]) == [y];
    if !LexLess(x, y) {
      assert Insert(x, [y]) == [y] + Insert(x, []);
    }
  }

  function Insert(x: string, s: seq<string>): (r: seq<string>)
    requires Sorted(s)
    ensures Sorted(r)
    ensures multiset(r) == multiset(s) + multiset{x}
    ensures |r| == |s| + 1
  {
    if s == [] then [x]
    else if LexLeq(x, s[0]) then
      InsertFrontSorted(x, s);
      [x] + s
    else
      assert LexLess(s[0], x) by { LexLessTotal(x, s[0]); }
      var t := Insert(x, s[1..]);
      assert s == [s[0]] + s[1..];
      InsertConsSorted(s[0], x, s[1..], t);
      [s[0]] + t
  }

  lemma InsertFrontSorted(x: string, s: seq<string>)
    requires Sorted(s) && s != [] && LexLeq(x, s[0])
    ensures Sorted([x] + s)
  {
    var r := [x] + s;
    forall i, j | 0 <= i < j < |r| ensures LexLeq(r[i], r[j]) {
      if i == 0 && j > 1 {
        assert LexLeq(s[0], s[j - 1]);
        if x != s[0] && s[0] != s[j - 1] { LexLessTransitive(x, s[0], s[j - 1]); }
      }
    }
  }

  lemma InsertConsSorted(h: string, x: string, tail: seq<string>, t: seq<string>)
    requires Sorted([h] + tail) && LexLess(h, x) && Sorted(t)
    requires multiset(t) == multiset(tail) + multiset{x}
    ensures Sorted([h] + t)
  {
    var r := [h] + t;
    forall i, j | 0 <= i < j < |r| ensures LexLeq(r[i], r[j]) {
      if i == 0 {
        var y := t[j - 1];
        assert y in multiset(t);
        if y != x {
          assert y in multiset(tail);
          assert y in tail;
          var k :| 0 <= k < |tail| && tail[k] == y;
          assert ([h] + tail)[k + 1] == y;
          assert LexLeq(([h] + tail)[0], ([h] + tail)[k + 1]);
        }
      }
    }
  }
}
