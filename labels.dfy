/** Labels, the names of muddled/depend.py: `type:(domain)name{role}/tag[flags]`.
    Type, name, role and tag are made of [A-Za-z0-9._+-] or are the wildcard
    '*'; a domain may also hold parentheses, for nested sub-domains. */
module Labels {
  import opened Wrappers
  import opened Text
  import DomainNames

  /** The characters of the class [A-Za-z0-9._+-]. */
  predicate IsPartChar(c: char) { IsAlnum(c) || c == '.' || c == '_' || c == '+' || c == '-' }

  /** The characters of the class [()A-Za-z0-9._+-]. */
  predicate IsDomainChar(c: char) { IsPartChar(c) || c == '(' || c == ')' }

  /** A whole-string match of `[A-Za-z0-9._+-]+|\*`, as Label._check_part demands. */
  predicate ValidPart(s: string) { s == "*" || (|s| > 0 && AllChars(s, IsPartChar)) }

  /** A whole-string match of `[()A-Za-z0-9._+-]+|\*`. */
  predicate ValidDomainText(s: string) { s == "*" || (|s| > 0 && AllChars(s, IsDomainChar)) }

  /** A label. The flags `transient` and `system` are annotations: they take no
      part in equality, ordering or hashing. */
  datatype Label = Label(ty: string, domain: Option<string>, name: string, role: Option<string>,
                         tag: string, transient: bool, system: bool)

  /** What the constructor accepts: valid parts, and a domain that is absent or
      that Label.split_domain accepts. */
  predicate Valid(l: Label) {
    PartsValid(l) && (l.domain.None? || SplitLabelDomain(l.domain.value).Ok?)
  }

  /** The checks on everything but the domain. */
  predicate PartsValid(l: Label) {
    && ValidPart(l.ty) && ValidPart(l.name) && ValidPart(l.tag)
    && (l.role.None? || ValidPart(l.role.value))
  }

  /** Label.split_domain: the whole text must match the domain class, then
      'a(b(c))' is taken apart from the outside in. */
  function SplitLabelDomain(value: string): (r: Result<seq<string>>)
    ensures r.Ok? ==> ValidDomainText(value) && |r.value| >= 1
    ensures r.Ok? ==> forall i | 0 <= i < |r.value| :: r.value[i] != "" && '(' !in r.value[i]
    ensures r.Err? ==> r.error.GiveUp?
  {
    if !ValidDomainText(value) then Err(GiveUp("Label domain is not allowed"))
    else SplitNested(value)
  }

  /** The loop of Label.split_domain, one nesting level per call. */
  function SplitNested(dom: string): (r: Result<seq<string>>)
    ensures r.Ok? ==> (|r.value| >= 1 <==> dom != "")
    ensures r.Ok? ==> forall i | 0 <= i < |r.value| :: r.value[i] != "" && '(' !in r.value[i]
    ensures r.Err? ==> r.error.GiveUp?
    decreases |dom|
  {
    if dom == "" then Ok([])
    else
      var pos := Find(dom, '(');
      if pos == -1 then
        if dom[|dom| - 1] == ')' then Err(GiveUp("Label domain has unbalanced parentheses"))
        else Ok([dom])
      else if dom[|dom| - 1] != ')' then Err(GiveUp("Label domain part has unbalanced parentheses"))
      else
        var part := dom[..pos];
        if part == "" then Err(GiveUp("Label domain starts with zero length domain"))
        else
          var rest :- SplitNested(dom[pos + 1..|dom| - 1]);
          Ok([part] + rest)
  }

  /** The constructor Label(type, name, role, tag, transient, system, domain):
      each part is checked, and the domain '' is stored as None. */
  function NewLabel(ty: string, name: string, role: Option<string>, tag: string,
                    transient: bool, system: bool, domain: Option<string>): (r: Result<Label>)
    ensures r.Ok? <==>
      && ValidPart(ty) && ValidPart(name) && (role.None? || ValidPart(role.value)) && ValidPart(tag)
      && (domain.None? || domain.value == "" || SplitLabelDomain(domain.value).Ok?)
    ensures r.Ok? ==> Valid(r.value)
    ensures r.Err? ==> r.error.GiveUp?
    ensures r.Ok? ==> r.value == Label(ty, if domain == Some("") then None else domain,
                                       name, role, tag, transient, system)
  {
    if !ValidPart(ty) then Err(GiveUp("Label type is not allowed"))
    else if !ValidPart(name) then Err(GiveUp("Label name is not allowed"))
    else if role.Some? && !ValidPart(role.value) then Err(GiveUp("Label role is not allowed"))
    else if !ValidPart(tag) then Err(GiveUp("Label tag is not allowed"))
    else
      var d := if domain == Some("") then None else domain;
      if d.Some? && SplitLabelDomain(d.value).Err? then Err(SplitLabelDomain(d.value).error)
      else Ok(Label(ty, d, name, role, tag, transient, system))
  }

  // ---------------------------------------------------------------------
  // Rendering (Label.__str__)

  /** The flag letters of __str__: T for transient, S for system, D for unswept. */
  function FlagLetters(transient: bool, system: bool, unswept: bool): string {
    (if transient then "T" else "") + (if system then "S" else "") + (if unswept then "D" else "")
  }

  function FlagText(transient: bool, system: bool, unswept: bool): string {
    var letters := FlagLetters(transient, system, unswept);
    if letters == "" then "" else "[" + letters + "]"
  }

  /** Python tests `if self._domain:` and `if self._role:`, so an empty text
      is shown like an absent one. */
  function DomainText(d: Option<string>): string {
    if d.Some? && d.value != "" then "(" + d.value + ")" else ""
  }

  function RoleText(r: Option<string>): string {
    if r.Some? && r.value != "" then "{" + r.value + "}" else ""
  }

  /** Everything after the domain. */
  function Body(l: Label, unswept: bool): string {
    l.name + (RoleText(l.role) + ("/" + (l.tag + FlagText(l.transient, l.system, unswept))))
  }

  /** str(label) for a label that is not marked unswept. */
  function Render(l: Label): (r: string)
    ensures ':' in r && '/' in r
  {
    RenderMarked(l, false)
  }

  /** str(label); an unswept label also shows the flag D. */
  function RenderMarked(l: Label, unswept: bool): (r: string)
    ensures ':' in r && '/' in r
  {
    var b := Body(l, unswept);
    var s := l.ty + (":" + (DomainText(l.domain) + b));
    assert s[|l.ty|] == ':';
    assert b[|l.name| + |RoleText(l.role)|] == '/';
    assert s[|l.ty| + 1 + |DomainText(l.domain)| + |l.name| + |RoleText(l.role)|] == '/';
    s
  }

  // ---------------------------------------------------------------------
  // Parsing (Label.from_string). The regular expression is matched the way
  // Python's re.match does it: each part takes the longest run it can, the
  // domain gives characters back until a ')' is followed by a matching rest,
  // and only then is the end of the match compared with the length.

  /** b ends with a. */
  predicate IsSuffix(a: string, b: string) {
    |a| <= |b| && b[|b| - |a|..] == a
  }

  /** The length of the longest prefix of s whose characters satisfy p. */
  function RunLength(s: string, p: char -> bool): (n: nat)
    ensures n <= |s|
    ensures forall i | 0 <= i < n :: p(s[i])
    ensures n < |s| ==> !p(s[n])
  {
    if s == [] || !p(s[0]) then 0 else 1 + RunLength(s[1..], p)
  }

  /** `[A-Za-z0-9._+-]+|\*` at the start of s: the part and what follows. */
  function MatchPart(s: string): (r: Option<(string, string)>)
    ensures r.None? <==> s == [] || (!IsPartChar(s[0]) && s[0] != '*')
    ensures r.Some? ==> ValidPart(r.value.0) && s == r.value.0 + r.value.1
  {
    var n := RunLength(s, IsPartChar);
    if n > 0 then
      assert AllChars(s[..n], IsPartChar);
      assert s == s[..n] + s[n..];
      Some((s[..n], s[n..]))
    else if |s| > 0 && s[0] == '*' then
      assert s == "*" + s[1..];
      Some(("*", s[1..]))
    else None
  }

  /** `(\{(?P<role>part)?\})?`: a braced role, empty braces, or nothing. */
  function MatchRole(s: string): (r: (Option<string>, string))
    ensures IsSuffix(r.1, s)
    ensures r.0.Some? ==> ValidPart(r.0.value) && s == "{" + r.0.value + "}" + r.1
  {
    if |s| > 0 && s[0] == '{' then
      match MatchPart(s[1..])
      case Some((v, rest)) =>
        if |rest| > 0 && rest[0] == '}' then
          assert s == "{" + v + "}" + rest[1..] by { assert s == [s[0]] + s[1..]; }
          (Some(v), rest[1..])
        else EmptyBraces(s)
      case None => EmptyBraces(s)
    else (None, s)
  }

  function EmptyBraces(s: string): (r: (Option<string>, string))
    ensures r.0.None? && IsSuffix(r.1, s)
  {
    if |s| > 1 && s[1] == '}' then (None, s[2..]) else (None, s)
  }

  /** `(\[(?P<flags>[A-Za-z0-9]+)\])?` */
  function MatchFlags(s: string): (r: (Option<string>, string))
    ensures IsSuffix(r.1, s)
    ensures r.0.Some? ==> |r.0.value| > 0 && AllChars(r.0.value, IsAlnum)
  {
    if |s| > 0 && s[0] == '[' then
      var n := RunLength(s[1..], IsAlnum);
      if n > 0 && n + 1 < |s| && s[n + 1] == ']' then
        assert forall i | 0 <= i < n :: s[1..n + 1][i] == s[1..][i];
        (Some(s[1..n + 1]), s[n + 2..])
      else (None, s)
    else (None, s)
  }

  /** What follows the domain: name, role, '/', tag and flags. */
  datatype Tail = Tail(name: string, role: Option<string>, tag: string, flags: Option<string>, rest: string)

  function MatchTail(s: string): Option<Tail> {
    var p :- MatchPart(s);
    var (role, r2) := MatchRole(p.1);
    if |r2| > 0 && r2[0] == '/' then
      var q :- MatchPart(r2[1..]);
      var (flags, r3) := MatchFlags(q.1);
      Some(Tail(p.0, role, q.0, flags, r3))
    else None
  }

  /** The optional `\((?P<domain>[()A-Za-z0-9._+-]+|\*)\)`. The first
      alternative tries the lengths len, len-1, ..., 1 of the domain run in
      turn and takes the first one that is followed by ')' and a matching
      tail; a length not followed by ')' fails at once, so the search moves
      from one ')' of the run to the one before it. When none is left the
      second alternative, '*', is tried. */
  function DomainSearch(t: string, len: nat): Option<(string, Tail)>
    requires len <= |t|
    decreases len
  {
    var k := LastClose(t, len);
    if k == 0 then StarDomain(t)
    else if MatchTail(t[k + 1..]).Some? then Some((t[..k], MatchTail(t[k + 1..]).value))
    else DomainSearch(t, k - 1)
  }

  /** The largest k in 1..len with t[k] == ')', or 0 when there is none. */
  function LastClose(t: string, len: nat): (k: nat)
    ensures k <= len
    ensures k > 0 ==> k < |t| && t[k] == ')'
    ensures forall j | k < j <= len && j < |t| :: t[j] != ')'
  {
    if len == 0 then 0
    else if len < |t| && t[len] == ')' then len
    else LastClose(t, len - 1)
  }

  /** The '*' alternative of the domain group. */
  function StarDomain(t: string): Option<(string, Tail)> {
    if |t| >= 2 && t[0] == '*' && t[1] == ')' then
      var tail :- MatchTail(t[2..]);
      Some(("*", tail))
    else None
  }

  /** Everything after `type:`: an optional domain and the tail. When the
      domain group fails to match, the regular expression goes on without it. */
  function MatchBody(s: string): Option<(Option<string>, Tail)> {
    if |s| > 0 && s[0] == '(' then
      var found := DomainSearch(s[1..], RunLength(s[1..], IsDomainChar));
      if found.Some? then Some((Some(found.value.0), found.value.1))
      else NoDomain(s)
    else NoDomain(s)
  }

  function NoDomain(s: string): Option<(Option<string>, Tail)> {
    var tail :- MatchTail(s);
    Some((None, tail))
  }

  datatype Parsed = Parsed(ty: string, domain: Option<string>, tail: Tail)

  /** Label.label_string_re.match(s). */
  function MatchLabel(s: string): Option<Parsed> {
    var p :- MatchPart(s);
    if |p.1| > 0 && p.1[0] == ':' then
      var b :- MatchBody(p.1[1..]);
      Some(Parsed(p.0, b.0, b.1))
    else None
  }

  /** Label.from_string: the match must cover the whole string; the flag T
      makes the label transient and S makes it a system label. */
  function FromString(s: string): (r: Result<Label>)
    ensures r.Ok? ==> Valid(r.value)
  {
    match MatchLabel(s)
    case None => Err(GiveUp("Label string is not a valid Label"))
    case Some(p) =>
      if p.tail.rest != [] then Err(GiveUp("Label string is not a valid Label"))
      else
        var flags := p.tail.flags.GetOr("");
        NewLabel(p.ty, p.tail.name, p.tail.role, p.tail.tag, 'T' in flags, 'S' in flags, p.domain)
  }

  // ---------------------------------------------------------------------
  // from_string undoes __str__

  lemma {:induction false} RunLengthPrefix(x: string, s: string, p: char -> bool)
    requires AllChars(x, p)
    ensures RunLength(x + s, p) == |x| + RunLength(s, p)
    decreases |x|
  {
    if x == [] {
      assert x + s == s;
    } else {
      assert (x + s)[0] == x[0] && p(x[0]);
      assert (x + s)[1..] == x[1..] + s;
      assert AllChars(x[1..], p) by { assert forall i | 0 <= i < |x| - 1 :: x[1..][i] == x[i + 1]; }
      RunLengthPrefix(x[1..], s, p);
    }
  }

  lemma MatchPartOf(x: string, rest: string)
    requires ValidPart(x) && (rest == [] || !IsPartChar(rest[0]))
    ensures MatchPart(x + rest) == Some((x, rest))
  {
    if x == "*" {
      assert (x + rest)[1..] == rest;
    } else {
      RunLengthPrefix(x, rest, IsPartChar);
      assert (x + rest)[..|x|] == x && (x + rest)[|x|..] == rest;
    }
  }

  lemma FlagsOf(transient: bool, system: bool)
    ensures MatchFlags(FlagText(transient, system, false)) ==
      (if transient || system then Some(FlagLetters(transient, system, false)) else None, "")
  {
    var letters := FlagLetters(transient, system, false);
    if transient || system {
      var s := "[" + letters + "]";
      FlagSlices(letters, s);
      FlagsLayer(s, |letters|);
    }
  }

  lemma FlagSlices(letters: string, s: string)
    requires |letters| > 0 && AllChars(letters, IsAlnum) && s == "[" + letters + "]"
    ensures |s| == |letters| + 2 && s[0] == '[' && s[|letters| + 1] == ']'
    ensures RunLength(s[1..], IsAlnum) == |letters|
    ensures s[1..|letters| + 1] == letters && s[|letters| + 2..] == ""
  {
    assert s[1..] == letters + "]";
    RunLengthPrefix(letters, "]", IsAlnum);
  }

  lemma FlagsLayer(s: string, n: nat)
    requires |s| > 0 && s[0] == '[' && RunLength(s[1..], IsAlnum) == n > 0 && n + 1 < |s| && s[n + 1] == ']'
    ensures MatchFlags(s) == (Some(s[1..n + 1]), s[n + 2..])
  {
  }

  /** The braced role, if any, is read back. */
  lemma RoleOf(role: Option<string>, after: string)
    requires role.None? || ValidPart(role.value)
    requires |after| > 0 && after[0] == '/'
    ensures MatchRole(RoleText(role) + after) == (role, after)
  {
    if role.Some? {
      var v := role.value;
      var s := RoleText(role) + after;
      assert s == "{" + (v + ("}" + after));
      assert s[1..] == v + ("}" + after);
      MatchPartOf(v, "}" + after);
    } else {
      assert RoleText(role) + after == after;
    }
  }

  /** What follows the name starts with '{' or '/'. */
  lemma AfterName(role: Option<string>, after: string)
    requires |after| > 0 && after[0] == '/'
    ensures |RoleText(role) + after| > 0
    ensures (RoleText(role) + after)[0] == '{' || (RoleText(role) + after)[0] == '/'
  {
  }

  /** The tag and flags are read back. */
  lemma TagOf(tag: string, transient: bool, system: bool)
    requires ValidPart(tag)
    ensures var ft := FlagText(transient, system, false);
      MatchPart(tag + ft) == Some((tag, ft))
  {
    var ft := FlagText(transient, system, false);
    assert ft == [] || ft[0] == '[';
    MatchPartOf(tag, ft);
  }

  /** The tail of a rendered label parses back to its parts. */
  lemma TailOf(l: Label)
    requires PartsValid(l)
    ensures MatchTail(Body(l, false)) == Some(RenderedTail(l))
  {
    var ft := FlagText(l.transient, l.system, false);
    var after := "/" + (l.tag + ft);
    var rest := RoleText(l.role) + after;
    AfterName(l.role, after);
    MatchPartOf(l.name, rest);
    RoleOf(l.role, after);
    assert after[1..] == l.tag + ft;
    TagOf(l.tag, l.transient, l.system);
    FlagsOf(l.transient, l.system);
  }

  /** The domain run over a name followed by '{' or '/' covers the name only. */
  lemma NameRun(name: string, rest: string)
    requires ValidPart(name) && |rest| > 0 && (rest[0] == '{' || rest[0] == '/')
    ensures RunLength(name + rest, IsDomainChar) == if name == "*" then 0 else |name|
  {
    if name != "*" {
      assert AllChars(name, IsDomainChar) by {
        forall i | 0 <= i < |name| ensures IsDomainChar(name[i]) {
          assert IsPartChar(name[i]);
        }
      }
      RunLengthPrefix(name, rest, IsDomainChar);
    } else {
      assert (name + rest)[0] == '*';
    }
  }

  /** With no ')' between lo and len, the search from len lands where the
      search from lo does. */
  lemma {:induction false} LastCloseSkip(t: string, lo: nat, len: nat)
    requires lo <= len
    requires forall j | lo < j <= len && j < |t| :: t[j] != ')'
    ensures LastClose(t, len) == LastClose(t, lo)
    decreases len
  {
    if len > lo {
      LastCloseSkip(t, lo, len - 1);
    }
  }

  /** Where the domain run of `v)name...` can stop: the only ')' it offers
      is the one right after v. */
  lemma ClosingOnlyAfterDomain(v: string, name: string, rest: string)
    requires |v| > 0 && AllChars(v, IsDomainChar)
    requires ValidPart(name) && |rest| > 0 && (rest[0] == '{' || rest[0] == '/')
    ensures var t := v + (")" + (name + rest));
      var m := RunLength(t, IsDomainChar);
      |v| < m && t[|v|] == ')' && forall j | |v| < j <= m && j < |t| :: t[j] != ')'
  {
    var b := name + rest;
    var t := v + (")" + b);
    assert AllChars(v + ")", IsDomainChar);
    assert t == (v + ")") + b;
    RunLengthPrefix(v + ")", b, IsDomainChar);
    NameRun(name, rest);
    var m := RunLength(t, IsDomainChar);
    forall j | |v| < j <= m && j < |t| ensures t[j] != ')' {
      var i := j - |v| - 1;
      assert t[j] == b[i];
      if i < |name| {
        assert b[i] == name[i];
      } else {
        assert b[i] == rest[0];
      }
    }
  }

  /** The search over the domain run of `v)name...` lands on the ')' after v. */
  lemma CloseAfterDomain(v: string, name: string, rest: string, t: string)
    requires |v| > 0 && AllChars(v, IsDomainChar)
    requires ValidPart(name) && |rest| > 0 && (rest[0] == '{' || rest[0] == '/')
    requires t == v + (")" + (name + rest))
    ensures LastClose(t, RunLength(t, IsDomainChar)) == |v|
  {
    ClosingOnlyAfterDomain(v, name, rest);
    LastCloseSkip(t, |v|, RunLength(t, IsDomainChar));
    LastCloseHere(t, |v|);
  }

  lemma LastCloseHere(t: string, k: nat)
    requires 0 < k < |t| && t[k] == ')'
    ensures LastClose(t, k) == k
  {
  }

  /** The domain of a rendered label is read back. */
  lemma DomainOf(d: Option<string>, name: string, rest: string)
    requires d.None? || ValidDomainText(d.value)
    requires ValidPart(name) && |rest| > 0 && (rest[0] == '{' || rest[0] == '/')
    requires MatchTail(name + rest).Some?
    ensures MatchBody(DomainText(d) + (name + rest)) == Some((d, MatchTail(name + rest).value))
  {
    var b := name + rest;
    var s := DomainText(d) + b;
    if d.None? {
      NameStart(name, rest, s);
      UnopenedBody(s);
    } else if d.value == "*" {
      StarDomainOf(b, s);
    } else {
      TextDomainOf(d.value, name, rest, s);
    }
  }

  /** A rendered name does not open a domain group. */
  lemma NameStart(name: string, rest: string, s: string)
    requires ValidPart(name) && s == "" + (name + rest)
    ensures s == name + rest && |s| > 0 && s[0] != '('
  {
    assert s[0] == name[0];
  }

  /** MatchBody on a string that opens a domain group. */
  lemma OpenedBody(s: string, t: string, d: string, tail: Tail)
    requires |s| > 0 && s[0] == '(' && s[1..] == t
    requires DomainSearch(t, RunLength(t, IsDomainChar)) == Some((d, tail))
    ensures MatchBody(s) == Some((Some(d), tail))
  {
  }

  /** MatchBody on a string that does not open one. */
  lemma UnopenedBody(s: string)
    requires |s| > 0 && s[0] != '(' && MatchTail(s).Some?
    ensures MatchBody(s) == Some((None, MatchTail(s).value))
  {
  }

  lemma StarSlices(b: string, s: string, t: string)
    requires s == "(" + "*" + ")" + b && t == "*)" + b
    ensures |s| > 0 && s[0] == '(' && s[1..] == t
    ensures |t| >= 2 && t[0] == '*' && t[1] == ')' && t[2..] == b
  {
  }

  lemma StarDomainOf(b: string, s: string)
    requires s == "(" + "*" + ")" + b && MatchTail(b).Some?
    ensures MatchBody(s) == Some((Some("*"), MatchTail(b).value))
  {
    var t := "*)" + b;
    StarSlices(b, s, t);
    StarSearch(t, b);
    OpenedBody(s, t, "*", MatchTail(b).value);
  }

  lemma StarSearch(t: string, b: string)
    requires |t| >= 2 && t[0] == '*' && t[1] == ')' && t[2..] == b && MatchTail(b).Some?
    ensures RunLength(t, IsDomainChar) == 0
    ensures DomainSearch(t, 0) == Some(("*", MatchTail(b).value))
  {
    StarAlternative(t, b);
    StarRun(t);
    SearchEmptyRun(t);
  }

  lemma StarRun(t: string)
    requires |t| > 0 && t[0] == '*'
    ensures RunLength(t, IsDomainChar) == 0
  {
    assert !IsDomainChar(t[0]);
  }

  lemma SearchEmptyRun(t: string)
    ensures DomainSearch(t, 0) == StarDomain(t)
  {
    assert LastClose(t, 0) == 0;
  }

  lemma StarAlternative(t: string, b: string)
    requires |t| >= 2 && t[0] == '*' && t[1] == ')' && t[2..] == b && MatchTail(b).Some?
    ensures StarDomain(t) == Some(("*", MatchTail(b).value))
  {
  }

  lemma TextSlices(v: string, b: string, s: string, t: string)
    requires s == "(" + v + ")" + b && t == v + (")" + b)
    ensures |s| > 0 && s[0] == '(' && s[1..] == t
    ensures |v| < |t| && t[|v| + 1..] == b && t[..|v|] == v
  {
  }

  lemma TextDomainOf(v: string, name: string, rest: string, s: string)
    requires |v| > 0 && AllChars(v, IsDomainChar) && s == "(" + v + ")" + (name + rest)
    requires ValidPart(name) && |rest| > 0 && (rest[0] == '{' || rest[0] == '/')
    requires MatchTail(name + rest).Some?
    ensures MatchBody(s) == Some((Some(v), MatchTail(name + rest).value))
  {
    var b := name + rest;
    var t := v + (")" + b);
    TextSlices(v, b, s, t);
    CloseAfterDomain(v, name, rest, t);
    TextSearch(v, b, t, RunLength(t, IsDomainChar));
    OpenedBody(s, t, v, MatchTail(b).value);
  }

  lemma TextSearch(v: string, b: string, t: string, m: nat)
    requires m <= |t| && LastClose(t, m) == |v| > 0 && t[|v| + 1..] == b && t[..|v|] == v
    requires MatchTail(b).Some?
    ensures DomainSearch(t, m) == Some((v, MatchTail(b).value))
  {
  }

  /** MatchLabel from the type and the body. */
  lemma LabelLayer(s: string, ty: string, after: string, d: Option<string>, tail: Tail)
    requires MatchPart(s) == Some((ty, after)) && |after| > 0 && after[0] == ':'
    requires MatchBody(after[1..]) == Some((d, tail))
    ensures MatchLabel(s) == Some(Parsed(ty, d, tail))
  {
  }

  /** FromString from a match that covers the whole string. */
  lemma FromStringLayer(s: string, p: Parsed)
    requires MatchLabel(s) == Some(p) && p.tail.rest == []
    ensures var flags := p.tail.flags.GetOr("");
      FromString(s) == NewLabel(p.ty, p.tail.name, p.tail.role, p.tail.tag, 'T' in flags, 'S' in flags, p.domain)
  {
  }

  lemma ColonSlice(x: string)
    ensures |":" + x| > 0 && (":" + x)[0] == ':' && (":" + x)[1..] == x
  {
  }

  /** The flag letters read back as the flags. */
  lemma FlagsRead(transient: bool, system: bool)
    ensures var flags := (if transient || system then Some(FlagLetters(transient, system, false)) else None).GetOr("");
      ('T' in flags) == transient && ('S' in flags) == system
  {
    var letters := FlagLetters(transient, system, false);
    assert ('T' in letters) == transient;
    assert ('S' in letters) == system;
  }

  /** The constructor gives back a label it accepts. */
  lemma NewLabelOf(l: Label)
    requires Valid(l)
    ensures NewLabel(l.ty, l.name, l.role, l.tag, l.transient, l.system, l.domain) == Ok(l)
    ensures PartsValid(l) && (l.domain.None? || ValidDomainText(l.domain.value))
  {
  }

  /** Label.from_string(str(l)) gives back l, flags included, for every label
      the constructor accepts. */
  lemma RoundTrip(l: Label)
    requires Valid(l)
    ensures FromString(Render(l)) == Ok(l)
  {
    NewLabelOf(l);
    RenderedParses(l);
  }

  lemma RenderedParses(l: Label)
    requires PartsValid(l) && (l.domain.None? || ValidDomainText(l.domain.value))
    requires NewLabel(l.ty, l.name, l.role, l.tag, l.transient, l.system, l.domain) == Ok(l)
    ensures FromString(Render(l)) == Ok(l)
  {
    var s := Render(l);
    var afterType := ":" + (DomainText(l.domain) + Body(l, false));
    RenderOf(l, s, afterType);
    RenderedMatch(l, s, afterType);
    FromStringLayer(s, Parsed(l.ty, l.domain, RenderedTail(l)));
    FlagsRead(l.transient, l.system);
  }

  lemma RenderedMatch(l: Label, s: string, afterType: string)
    requires PartsValid(l) && (l.domain.None? || ValidDomainText(l.domain.value))
    requires s == l.ty + afterType && |afterType| > 0 && afterType[0] == ':'
    requires afterType[1..] == DomainText(l.domain) + Body(l, false)
    ensures MatchLabel(s) == Some(Parsed(l.ty, l.domain, RenderedTail(l)))
  {
    MatchPartOf(l.ty, afterType);
    BodyParses(l);
    LabelLayer(s, l.ty, afterType, l.domain, RenderedTail(l));
  }

  /** The tail that a rendered label parses to. */
  function RenderedTail(l: Label): Tail {
    Tail(l.name, l.role, l.tag, if l.transient || l.system
         then Some(FlagLetters(l.transient, l.system, false)) else None, "")
  }

  lemma RenderOf(l: Label, s: string, afterType: string)
    requires s == Render(l) && afterType == ":" + (DomainText(l.domain) + Body(l, false))
    ensures s == l.ty + afterType && |afterType| > 0 && afterType[0] == ':'
    ensures afterType[1..] == DomainText(l.domain) + Body(l, false)
  {
    ColonSlice(DomainText(l.domain) + Body(l, false));
  }

  lemma BodyParses(l: Label)
    requires PartsValid(l) && (l.domain.None? || ValidDomainText(l.domain.value))
    ensures MatchBody(DomainText(l.domain) + Body(l, false)) == Some((l.domain, RenderedTail(l)))
  {
    var after := "/" + (l.tag + FlagText(l.transient, l.system, false));
    var rest := RoleText(l.role) + after;
    AfterName(l.role, after);
    TailOf(l);
    assert Body(l, false) == l.name + rest;
    DomainOf(l.domain, l.name, rest);
  }

  /** An empty domain '()' is refused (when no later ')' could close a
      different domain). */
  lemma EmptyDomainRefused(ty: string, body: string)
    requires ValidPart(ty) && ')' !in body
    ensures FromString(ty + ":()" + body).Err?
  {
    var s := ty + ":()" + body;
    var afterType := ":" + ("()" + body);
    var b := "()" + body;
    var t := ")" + body;
    EmptySlices(ty, body, s, afterType, b, t);
    MatchPartOf(ty, afterType);
    NoClose(t, RunLength(t, IsDomainChar));
    ParenTail(b);
    EmptyBody(b, t);
    EmptyLabel(s, ty, afterType);
  }

  /** A string with no '/tag', such as `package:busybox`, is refused. */
  lemma MissingTagRefused(ty: string, name: string)
    requires ValidPart(ty) && ValidPart(name)
    ensures FromString(ty + ":" + name).Err?
  {
    var s := ty + ":" + name;
    var afterType := ":" + name;
    assert s == ty + afterType;
    MatchPartOf(ty, afterType);
    assert afterType[1..] == name;
    NameOnlyBody(name);
    EmptyLabel(s, ty, afterType);
  }

  /** A bare part has no '/' after it, so it is no body. */
  lemma NameOnlyBody(name: string)
    requires ValidPart(name)
    ensures MatchBody(name).None?
  {
    MatchPartOf(name, "");
    assert name + "" == name;
    assert MatchTail(name).None?;
  }

  lemma EmptySlices(ty: string, body: string, s: string, afterType: string, b: string, t: string)
    requires ')' !in body
    requires s == ty + ":()" + body && afterType == ":" + ("()" + body) && b == "()" + body && t == ")" + body
    ensures s == ty + afterType && afterType[0] == ':' && afterType[1..] == b
    ensures |b| > 0 && b[0] == '(' && b[1..] == t && b[0] != '*'
    ensures |t| > 0 && t[0] != '*' && forall j | 0 < j < |t| :: t[j] != ')'
  {
    forall j | 0 < j < |t| ensures t[j] != ')' {
      assert t[j] == body[j - 1];
    }
  }

  lemma NoClose(t: string, len: nat)
    requires len <= |t| && |t| > 0 && t[0] != '*'
    requires forall j | 0 < j <= len && j < |t| :: t[j] != ')'
    ensures DomainSearch(t, len).None?
  {
    LastCloseSkip(t, 0, len);
  }

  /** With no domain found, "()..." fails as a tail too: '(' starts no part. */
  lemma EmptyBody(b: string, t: string)
    requires |b| > 0 && b[0] == '(' && b[1..] == t
    requires DomainSearch(t, RunLength(t, IsDomainChar)).None? && MatchTail(b).None?
    ensures MatchBody(b).None?
  {
  }

  /** '(' starts no part, so no tail either. */
  lemma ParenTail(b: string)
    requires |b| > 0 && b[0] == '('
    ensures MatchTail(b).None?
  {
    assert MatchPart(b).None?;
  }

  lemma EmptyLabel(s: string, ty: string, afterType: string)
    requires MatchPart(s) == Some((ty, afterType)) && |afterType| > 0 && afterType[0] == ':'
    requires MatchBody(afterType[1..]).None?
    ensures FromString(s).Err?
  {
  }
}
