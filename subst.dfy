// muddled/subst.py: substituting ${...} in text with values from an XML
// document or from the environment. The text is read through a pushback
// input stream and parsed by recursive descent into a tree of nodes, which
// is then evaluated.

module Subst {
  import opened Wrappers
  import opened Text

  // ---------------------------------------------------------------------
  // XML documents and queries

  /** An XML node: an element with its child nodes, or a text node. A
      document is the element whose children are its top-level nodes. */
  datatype Xml = Element(name: string, children: seq<Xml>) | TextData(data: string)

  /** The text directly inside a node, as written: the last character is
      dropped only when everything before it is a single newline. */
  function NodeTextAsWritten(n: Xml): string {
    var result := DirectText(children(n));
    if |result| >= 1 && result[..|result| - 1] == "\n" then result[..|result| - 1] else result
  }

  /** The text directly inside a node, with one trailing newline stripped,
      as the code's comment says it means to. */
  function NodeText(n: Xml): (r: string)
    ensures r + (if EndsWith(DirectText(children(n)), "\n") then "\n" else "") == DirectText(children(n))
  {
    var result := DirectText(children(n));
    if |result| >= 1 && result[|result| - 1] == '\n' then result[..|result| - 1] else result
  }

  function children(n: Xml): seq<Xml> {
    if n.Element? then n.children else []
  }

  /** The text nodes among the children, concatenated in order. */
  function DirectText(ns: seq<Xml>): string {
    if ns == [] then ""
    else (if ns[0].TextData? then ns[0].data else "") + DirectText(ns[1..])
  }

  /** Text ending in a newline is not changed by the code as written,
      while a two-character text starting with a newline loses its second
      character. */
  lemma NodeTextAsWrittenMisses()
    ensures NodeTextAsWritten(Element("v", [TextData("abc\n")])) == "abc\n"
    ensures NodeTextAsWritten(Element("v", [TextData("\nx")])) == "\n"
    ensures NodeText(Element("v", [TextData("abc\n")])) == "abc"
    ensures NodeText(Element("v", [TextData("\nx")])) == "\nx"
  {
    assert DirectText([TextData("abc\n")]) == "abc\n" by {
      assert [TextData("abc\n")][1..] == [];
    }
    assert DirectText([TextData("\nx")]) == "\nx" by {
      assert [TextData("\nx")][1..] == [];
    }
    assert "abc\n"[..3] != "\n";
    assert "\nx"[..1] == "\n";
  }

  /** The corrected text keeps everything but one trailing newline. */
  lemma NodeTextStripsOneNewline(n: Xml, t: string)
    requires DirectText(children(n)) == t + "\n"
    ensures NodeText(n) == t
  {
    assert (t + "\n")[..|t|] == t;
  }

  /** split_query: the components of a query, without the empty one before
      a leading '/'. */
  function SplitQuery(q: string): (r: seq<string>)
    ensures forall i | 0 <= i < |r| :: '/' !in r[i]
  {
    var parts := Split(q, '/');
    if parts[0] == "" then parts[1..] else parts
  }

  /** An absolute query is rebuilt from its components. */
  lemma SplitQueryRoundTrip(q: string)
    requires StartsWith(q, "/")
    ensures "/" + Join(SplitQuery(q), "/") == q
  {
    var parts := Split(q, '/');
    JoinSplit(q, '/');
    assert Find(q, '/') == 0;
    assert parts == [q[..0]] + Split(q[1..], '/');
    assert parts[1..] == Split(q[1..], '/');
    JoinSplit(q[1..], '/');
    assert q == "/" + q[1..];
  }

  /** The first child element with the given name. */
  function FirstChild(ns: seq<Xml>, key: string): (r: Option<Xml>)
    ensures r.Some? ==> r.value in ns && r.value.Element? && r.value.name == key
    ensures r.None? <==> forall i | 0 <= i < |ns| :: !(ns[i].Element? && ns[i].name == key)
  {
    if ns == [] then None
    else if ns[0].Element? && ns[0].name == key then Some(ns[0])
    else FirstChild(ns[1..], key)
  }

  /** query_result: follow one child element per key; None as soon as a
      step finds none. */
  function QueryResult(keys: seq<string>, n: Xml): Option<Xml>
    decreases |keys|
  {
    if keys == [] then Some(n)
    else
      match FirstChild(children(n), keys[0])
      case None => None
      case Some(c) => QueryResult(keys[1..], c)
  }

  /** A query one key longer takes one more step from where the shorter
      one ended. */
  lemma {:induction false} QueryResultSnoc(keys: seq<string>, key: string, n: Xml)
    ensures QueryResult(keys + [key], n) ==
            match QueryResult(keys, n)
            case None => None
            case Some(m) => FirstChild(children(m), key)
    decreases |keys|
  {
    if keys == [] {
      assert [key][1..] == [];
    } else {
      assert (keys + [key])[1..] == keys[1..] + [key];
      match FirstChild(children(n), keys[0])
      case None =>
      case Some(c) => QueryResultSnoc(keys[1..], key, c);
    }
  }

  /** query_result's inner loop: the first child element named `key`. */
  method FirstMatch(cs: seq<Xml>, key: string) returns (next: Option<Xml>)
    ensures next == FirstChild(cs, key)
  {
    next := None;
    var j := 0;
    while j < |cs|
      invariant 0 <= j <= |cs|
      invariant FirstChild(cs, key) == FirstChild(cs[j..], key)
    {
      if cs[j].Element? && cs[j].name == key {
        return Some(cs[j]);
      }
      assert cs[j..][1..] == cs[j + 1..];
      j := j + 1;
    }
  }

  /** query_result's outer loop. */
  method FindNode(keys: seq<string>, doc: Xml) returns (r: Option<Xml>)
    ensures r == QueryResult(keys, doc)
  {
    var result := doc;
    var i := 0;
    while i < |keys|
      invariant 0 <= i <= |keys|
      invariant QueryResult(keys[..i], doc) == Some(result)
    {
      var next := FirstMatch(children(result), keys[i]);
      QueryResultSnoc(keys[..i], keys[i], doc);
      assert keys[..i + 1] == keys[..i] + [keys[i]];
      if next.None? {
        assert keys == keys[..i + 1] + keys[i + 1..];
        QueryNoneStays(keys[..i + 1], keys[i + 1..], doc);
        return None;
      }
      result := next.value;
      i := i + 1;
    }
    assert keys[..i] == keys;
    return Some(result);
  }

  /** A query that fails on a prefix fails. */
  lemma {:induction false} QueryNoneStays(keys: seq<string>, more: seq<string>, n: Xml)
    requires QueryResult(keys, n).None?
    ensures QueryResult(keys + more, n).None?
    decreases |keys|
  {
    assert keys != [];
    assert (keys + more)[0] == keys[0] && (keys + more)[1..] == keys[1..] + more;
    match FirstChild(children(n), keys[0])
    case None =>
    case Some(c) => QueryNoneStays(keys[1..], more, c);
  }

  /** query_string_value: an empty key is the empty text; a key starting
      with '/' is an XML query, None when there is no document or no such
      node; any other key must be set in the environment. */
  function QueryStringValue(xml: Option<Xml>, env: map<string, string>, k: string): (r: Result<Option<string>>)
    ensures k == "" ==> r == Ok(Some(""))
    ensures k != "" && k[0] == '/' ==>
      (r.Ok? && r.value == (if xml.None? || QueryResult(SplitQuery(k), xml.value).None? then None
                            else Some(NodeText(QueryResult(SplitQuery(k), xml.value).value))))
    ensures k != "" && k[0] != '/' ==> (r.Ok? <==> k in env) && (r.Ok? ==> r.value == Some(env[k]))
    ensures r.Err? ==> r.error.GiveUp?
  {
    if |k| == 0 then Ok(Some(""))
    else if k[0] == '/' then
      if xml.None? then Ok(None)
      else
        match QueryResult(SplitQuery(k), xml.value)
        case None => Ok(None)
        case Some(node) => Ok(Some(NodeText(node)))
    else if k in env then Ok(Some(env[k]))
    else Err(GiveUp("Environment variable '" + k + "' not defined."))
  }

  // ---------------------------------------------------------------------
  // The pushback input stream

  /** The state of a PushbackInputStream; a pushed-back -1 is no
      pushback at all. */
  datatype St = St(input: string, idx: nat, pushback: Option<char>, lineNo: int, charNo: int, newlineStarting: bool)

  predicate Good(st: St) { st.idx <= |st.input| }

  /** What is left to read: each character of input counts 2 and a
      pushed-back character 1. */
  function Measure(st: St): nat
    requires Good(st)
  {
    2 * (|st.input| - st.idx) + (if st.pushback.Some? then 1 else 0)
  }

  function Start(s: string): St { St(s, 0, None, 0, 0, true) }

  /** next(): a pushed-back character first, without touching the line
      and character numbers; then the input; None at the end. */
  function NextSt(st: St): (r: (Option<char>, St))
    requires Good(st)
    ensures Good(r.1) && r.1.pushback.None? && r.1.input == st.input
    ensures Measure(r.1) == Measure(st) - (if st.pushback.Some? then 1 else if st.idx < |st.input| then 2 else 0)
    ensures r.0.None? <==> st.pushback.None? && st.idx == |st.input|
  {
    if st.pushback.Some? then (st.pushback, st.(pushback := None))
    else
      var res := if st.idx >= |st.input| then None else Some(st.input[st.idx]);
      var idx := if res.Some? then st.idx + 1 else st.idx;
      var line := if st.newlineStarting then st.lineNo + 1 else st.lineNo;
      var ch := if st.newlineStarting then 0 else st.charNo;
      var ch' := if res.Some? then ch + 1 else ch;
      (res, St(st.input, idx, None, line, ch', res == Some('\n')))
  }

  function PushBackSt(st: St, c: Option<char>): St { st.(pushback := c) }

  /** peek(): what next() would return. */
  function PeekSt(st: St): (r: Option<char>)
    requires Good(st)
  {
    if st.pushback.Some? then st.pushback
    else if st.idx >= |st.input| then None
    else Some(st.input[st.idx])
  }

  /** peek() predicts next() and changes nothing; a character pushed
      back is the next one read, and reading it changes neither the line
      nor the character number. */
  lemma PeekAndPushBack(st: St, c: char)
    requires Good(st)
    ensures PeekSt(st) == NextSt(st).0
    ensures NextSt(PushBackSt(st, Some(c))).0 == Some(c)
    ensures NextSt(PushBackSt(st, Some(c))).1 == st.(pushback := None)
  {
  }

  /** A PushbackInputStream over a string. */
  class PushbackInputStream {
    var input: string
    var idx: nat
    var pushbackChar: Option<char>
    var lineNo: int
    var charNo: int
    var newlineStarting: bool

    function State(): St
      reads this
    {
      St(input, idx, pushbackChar, lineNo, charNo, newlineStarting)
    }

    constructor (s: string)
      ensures State() == Start(s)
    {
      input := s;
      idx := 0;
      pushbackChar := None;
      lineNo := 0;
      charNo := 0;
      newlineStarting := true;
    }

    /** next() */
    method Next() returns (c: Option<char>)
      requires Good(State())
      modifies this
      ensures (c, State()) == NextSt(old(State()))
    {
      if pushbackChar.Some? {
        c := pushbackChar;
        pushbackChar := None;
        return;
      }
      if idx >= |input| {
        c := None;
      } else {
        c := Some(input[idx]);
        idx := idx + 1;
      }
      if newlineStarting {
        charNo := 0;
        lineNo := lineNo + 1;
        newlineStarting := false;
      }
      if c.Some? {
        charNo := charNo + 1;
      }
      if c == Some('\n') {
        newlineStarting := true;
      }
    }

    /** push_back(c): only one character is held; a second push replaces
        the first. */
    method PushBack(c: Option<char>)
      modifies this
      ensures State() == PushBackSt(old(State()), c)
    {
      pushbackChar := c;
    }

    /** peek() */
    function Peek(): (c: Option<char>)
      requires Good(State())
      reads this
      ensures c == PeekSt(State())
    {
      if pushbackChar.Some? then pushbackChar
      else if idx >= |input| then None
      else Some(input[idx])
    }
  }

  // ---------------------------------------------------------------------
  // The parse tree

  /** A TreeNode: a string, a container of children, a value instruction
      whose expression gives the key, or a function instruction with its
      parameters and the rest of the instruction. */
  datatype Node =
    | Str(s: string)
    | Container(children: seq<Node>)
    | ValInstr(expr: Node)
    | FnInstr(name: string, params: seq<Node>, rest: Node)

  /** flatten_literal_node: only strings and containers of them. */
  function Flatten(n: Node): Result<string> {
    match n
    case Str(s) => Ok(s)
    case Container(cs) => FlattenAll(cs)
    case _ => Err(GiveUp("Non literal where literal expected."))
  }

  function FlattenAll(ns: seq<Node>): Result<string> {
    if ns == [] then Ok("")
    else
      var a :- Flatten(ns[0]);
      var b :- FlattenAll(ns[1..]);
      Ok(a + b)
  }

  // ---------------------------------------------------------------------
  // The parser

  type Parsed<T> = Result<(T, St)>

  predicate Within<T>(r: Parsed<T>, st: St)
    requires Good(st)
  {
    r.Ok? ==> Good(r.value.1) && r.value.1.input == st.input && Measure(r.value.1) <= Measure(st)
  }

  predicate IsWhitespace(c: char) { c == ' ' || c == '\r' || c == '\t' || c == '\n' }

  /** skip_whitespace */
  function SkipWs(st: St): (r: St)
    requires Good(st)
    ensures Good(r) && r.input == st.input && Measure(r) <= Measure(st)
    ensures PeekSt(r).None? || !IsWhitespace(PeekSt(r).value)
    decreases Measure(st)
  {
    var c := PeekSt(st);
    if c.Some? && IsWhitespace(c.value) then SkipWs(NextSt(st).1) else st
  }

  /** parse_document: read text up to one of the end characters (or the
      end of the input when there are none), leaving that character pushed
      back; the nodes it appends are returned. */
  function Doc(st: St, end: Option<set<char>>, esc: bool): (r: Parsed<seq<Node>>)
    requires Good(st)
    ensures Within(r, st)
    decreases Measure(st), 1
  {
    DocLoop(st, end, esc, 0, "")
  }

  /** One turn of parse_document's loop in the given state: 0 in text, 1
      after '$', 2 after '$$', 3 after a backslash. */
  function DocLoop(st: St, end: Option<set<char>>, esc: bool, state: nat, cur: string): (r: Parsed<seq<Node>>)
    requires Good(st)
    ensures Within(r, st)
    decreases Measure(st), 0
  {
    var (c, st1) := NextSt(st);
    if end.Some? && c.None? then Err(GiveUp("Syntax Error: Input text ends whilst waiting for end char"))
    else if c.None? || (state == 0 && end.Some? && c.value in end.value) then
      Ok(([Str(cur)], PushBackSt(st1, c)))
    else
      var ch := c.value;
      if state == 0 then
        if ch == '$' then DocLoop(st1, end, esc, 1, cur)
        else if ch == '\\' && esc then DocLoop(st1, end, esc, 3, cur)
        else DocLoop(st1, end, esc, 0, cur + [ch])
      else if state == 1 then
        if ch == '$' then DocLoop(st1, end, esc, 2, cur)
        else if ch == '{' then
          var p :- Instr(st1);
          var (x, st3) := NextSt(p.1);
          if x != Some('}') then Err(GiveUp("Instruction did not end with '}'"))
          else
            var more :- DocLoop(st3, end, esc, 0, "");
            Ok(([Str(cur), p.0] + more.0, more.1))
        else DocLoop(st1, end, esc, 0, cur + ['$', ch])
      else if state == 2 then
        if ch == '{' then DocLoop(st1, end, esc, 0, cur + "${")
        else DocLoop(st1, end, esc, 0, cur + ['$', '$', ch])
      else DocLoop(st1, end, esc, 0, cur + [ch])
  }

  /** parse_literal */
  function Literal(st: St, echars: set<char>): (r: Parsed<string>)
    requires Good(st)
    ensures Within(r, st)
    decreases Measure(st), 2
  {
    var p :- Doc(st, Some(echars), true);
    var s :- FlattenAll(p.0);
    Ok((s, p.1))
  }

  /** parse_param: a quoted parameter must be followed by one of the end
      characters (left unread); an unquoted one ends at them. */
  function Param(st: St, echars: set<char>): (r: Parsed<seq<Node>>)
    requires Good(st)
    ensures Within(r, st)
    decreases Measure(st), 2
  {
    var st0 := SkipWs(st);
    if PeekSt(st0) == Some('"') then
      var p :- Doc(NextSt(st0).1, Some({'"'}), true);
      if PeekSt(p.1) != Some('"') then Err(GiveUp("Quoted parameter did not end with '\"'"))
      else
        var st4 := SkipWs(NextSt(p.1).1);
        var c := PeekSt(st4);
        if c.Some? && c.value in echars then Ok((p.0, st4))
        else Err(GiveUp("Quoted parameter ends with invalid character"))
    else Doc(st0, Some(echars), true)
  }

  /** The parameter loop of parse_instruction: parameters separated by
      ','; whatever character follows the last one is consumed. */
  function Params(st: St, acc: seq<Node>): (r: Parsed<seq<Node>>)
    requires Good(st)
    ensures Within(r, st)
    decreases Measure(st), 3
  {
    var p :- Param(st, {',', ')'});
    var (c, st2) := NextSt(p.1);
    var acc' := acc + [Container(p.0)];
    if c != Some(',') then Ok((acc', st2)) else Params(st2, acc')
  }

  /** parse_instruction: "${" has been read. Either a quoted literal key,
      or "fn:name(params) rest", or a key; the closing '}' is left for the
      caller. */
  function Instr(st: St): (r: Parsed<Node>)
    requires Good(st)
    ensures Within(r, st)
    decreases Measure(st), 3
  {
    var st0 := SkipWs(st);
    if PeekSt(st0) == Some('"') then QuotedInstr(st0)
    else
      var d :- Doc(st0, Some({':', '}'}), true);
      var (c, st2) := NextSt(d.1);
      if c == Some(':') then
        var str :- FlattenAll(d.0);
        if str == "fn" then FnInstrTail(st2) else Err(GiveUp("Invalid designator in value"))
      else Ok((ValInstr(Container(d.0)), PushBackSt(st2, c)))
  }

  /** A quoted literal key: "${ "key" }". */
  function QuotedInstr(st0: St): (r: Parsed<Node>)
    requires Good(st0) && PeekSt(st0) == Some('"')
    ensures Within(r, st0)
    decreases Measure(st0), 2
  {
    var st2 := SkipWs(NextSt(st0).1);
    var p :- Doc(st2, Some({'"'}), true);
    var (q, st4) := NextSt(p.1);
    if q != Some('"') then Err(GiveUp("Literal instruction never ends"))
    else
      var (c, st6) := NextSt(SkipWs(st4));
      if c != Some('}') then Err(GiveUp("Syntax Error - no end to literal instruction"))
      else Ok((ValInstr(Container(p.0)), PushBackSt(st6, c)))
  }

  /** After "fn:": the function name, its parameters if a '(' follows,
      and the rest up to the closing '}'. */
  function FnInstrTail(st2: St): (r: Parsed<Node>)
    requires Good(st2)
    ensures Within(r, st2)
    decreases Measure(st2), 3
  {
    var f :- Literal(st2, {'(', '}'});
    var (c2, st4) := NextSt(f.1);
    var ps :- if c2 == Some('(') then Params(st4, []) else Ok(([], st4));
    var rest :- Doc(ps.1, Some({'}'}), true);
    Ok((FnInstr(f.0, ps.0, Container(rest.0)), rest.1))
  }

  // ---------------------------------------------------------------------
  // Evaluation

  /** The value of a key for val and fn:val: a missing XML node is an
      error. */
  function Lookup(xml: Option<Xml>, env: map<string, string>, key: string): (r: Result<string>)
    ensures r.Err? ==> r.error.GiveUp?
    ensures r.Ok? <==> QueryStringValue(xml, env, key).Ok? && QueryStringValue(xml, env, key).value.Some?
    ensures r.Ok? ==> r.value == QueryStringValue(xml, env, key).value.value
  {
    var v :- QueryStringValue(xml, env, key);
    if v.None? then Err(GiveUp("Attempt to substitute key '" + key + "' which does not exist."))
    else Ok(v.value)
  }

  /** TreeNode.eval, the output list given back as its concatenation. */
  function Eval(n: Node, xml: Option<Xml>, env: map<string, string>): Result<string>
    decreases n
  {
    match n
    case Str(s) => Ok(s)
    case Container(cs) => EvalAll(cs, xml, env)
    case ValInstr(e) =>
      var key :- Eval(e, xml, env);
      Lookup(xml, env, Strip(key))
    case FnInstr(name, params, rest) =>
      if name == "val" then
        if |params| != 1 then Err(GiveUp("val() must have exactly one parameter"))
        else
          var key :- Eval(params[0], xml, env);
          Lookup(xml, env, Strip(key))
      else if name == "ifeq" || name == "ifneq" then
        if |params| != 2 then Err(GiveUp("ifeq() must have two parameters"))
        else
          var key :- Eval(params[0], xml, env);
          var value :- Eval(params[1], xml, env);
          var kv :- QueryStringValue(xml, env, Strip(key));
          if (StrippedIs(kv, value)) == (name == "ifeq") then Eval(rest, xml, env) else Ok("")
      else if name == "echo" then EvalAll(params, xml, env)
      else Ok("")
  }

  /** The key's value, stripped, equals the text (None equals nothing). */
  predicate StrippedIs(kv: Option<string>, value: string) {
    kv.Some? && Strip(kv.value) == value
  }

  function EvalAll(ns: seq<Node>, xml: Option<Xml>, env: map<string, string>): Result<string>
    decreases ns
  {
    if ns == [] then Ok("")
    else
      var a :- Eval(ns[0], xml, env);
      var b :- EvalAll(ns[1..], xml, env);
      Ok(a + b)
  }

  /** Nodes that all evaluate give the concatenation of their values. */
  lemma {:induction false} EvalAllConcat(ns: seq<Node>, xml: Option<Xml>, env: map<string, string>, outs: seq<string>)
    requires |outs| == |ns|
    requires forall i | 0 <= i < |ns| :: Eval(ns[i], xml, env) == Ok(outs[i])
    ensures EvalAll(ns, xml, env) == Ok(Concat(outs))
    decreases |ns|
  {
    if ns != [] {
      EvalAllConcat(ns[1..], xml, env, outs[1..]);
    }
  }

  /** fn:echo emits its parameters' values concatenated in order, and
      nothing of the rest of the instruction. */
  lemma EchoConcatenates(params: seq<Node>, rest: Node, xml: Option<Xml>, env: map<string, string>, outs: seq<string>)
    requires |outs| == |params|
    requires forall i | 0 <= i < |params| :: Eval(params[i], xml, env) == Ok(outs[i])
    ensures Eval(FnInstr("echo", params, rest), xml, env) == Ok(Concat(outs))
  {
    EvalAllConcat(params, xml, env, outs);
  }

  /** fn:ifeq emits the rest of the instruction exactly when the stripped
      value of the query equals the second parameter, and fn:ifneq exactly
      when it does not; a missing XML node equals nothing. */
  lemma IfeqIfneq(q: Node, v: Node, rest: Node, xml: Option<Xml>, env: map<string, string>,
                  key: string, value: string, r: string)
    requires Eval(q, xml, env) == Ok(key) && Eval(v, xml, env) == Ok(value) && Eval(rest, xml, env) == Ok(r)
    requires QueryStringValue(xml, env, Strip(key)).Ok?
    ensures var kv := QueryStringValue(xml, env, Strip(key)).value;
      && Eval(FnInstr("ifeq", [q, v], rest), xml, env) == Ok(if StrippedIs(kv, value) then r else "")
      && Eval(FnInstr("ifneq", [q, v], rest), xml, env) == Ok(if StrippedIs(kv, value) then "" else r)
  {
    Ifeq(q, v, rest, xml, env, key, value, r);
    Ifneq(q, v, rest, xml, env, key, value, r);
  }

  /** fn:val with one parameter looks up its stripped value, as "${key}"
      does. */
  lemma FnVal(p: Node, rest: Node, xml: Option<Xml>, env: map<string, string>, key: string)
    requires Eval(p, xml, env) == Ok(key)
    ensures Eval(FnInstr("val", [p], rest), xml, env) == Lookup(xml, env, Strip(key))
  {
    assert [p][0] == p;
  }

  lemma Ifeq(q: Node, v: Node, rest: Node, xml: Option<Xml>, env: map<string, string>,
             key: string, value: string, r: string)
    requires Eval(q, xml, env) == Ok(key) && Eval(v, xml, env) == Ok(value) && Eval(rest, xml, env) == Ok(r)
    requires QueryStringValue(xml, env, Strip(key)).Ok?
    ensures var kv := QueryStringValue(xml, env, Strip(key)).value;
      Eval(FnInstr("ifeq", [q, v], rest), xml, env) == Ok(if StrippedIs(kv, value) then r else "")
  {
    FnIf("ifeq", q, v, rest, xml, env, key, value, r);
  }

  lemma Ifneq(q: Node, v: Node, rest: Node, xml: Option<Xml>, env: map<string, string>,
              key: string, value: string, r: string)
    requires Eval(q, xml, env) == Ok(key) && Eval(v, xml, env) == Ok(value) && Eval(rest, xml, env) == Ok(r)
    requires QueryStringValue(xml, env, Strip(key)).Ok?
    ensures var kv := QueryStringValue(xml, env, Strip(key)).value;
      Eval(FnInstr("ifneq", [q, v], rest), xml, env) == Ok(if StrippedIs(kv, value) then "" else r)
  {
    FnIf("ifneq", q, v, rest, xml, env, key, value, r);
    assert ("ifneq" == "ifeq") == false;
  }

  /** One step of the evaluation of fn:ifeq and fn:ifneq with two
      parameters: the rest when the comparison comes out as the name asks. */
  lemma FnIf(name: string, q: Node, v: Node, rest: Node, xml: Option<Xml>, env: map<string, string>,
             key: string, value: string, r: string)
    requires name == "ifeq" || name == "ifneq"
    requires Eval(q, xml, env) == Ok(key) && Eval(v, xml, env) == Ok(value) && Eval(rest, xml, env) == Ok(r)
    requires QueryStringValue(xml, env, Strip(key)).Ok?
    ensures var kv := QueryStringValue(xml, env, Strip(key)).value;
      Eval(FnInstr(name, [q, v], rest), xml, env) == Ok(if StrippedIs(kv, value) == (name == "ifeq") then r else "")
  {
    assert name != "val";
    assert [q, v][0] == q && [q, v][1] == v;
  }

  /** A key starting with '/' whose node is missing cannot be
      substituted; any other key must be in the environment. */
  lemma KeyRouting(xml: Option<Xml>, env: map<string, string>, key: string)
    requires key == Strip(key) && key != ""
    ensures key[0] == '/' && (xml.None? || QueryResult(SplitQuery(key), xml.value).None?) ==>
      Eval(ValInstr(Str(key)), xml, env).Err?
    ensures key[0] != '/' ==> (Eval(ValInstr(Str(key)), xml, env).Ok? <==> key in env)
    ensures key[0] != '/' && key in env ==> Eval(ValInstr(Str(key)), xml, env) == Ok(env[key])
  {
  }

  /** subst_str: parse the whole text, then evaluate it. */
  function Subst(s: string, xml: Option<Xml>, env: map<string, string>): Result<string> {
    var p :- Doc(Start(s), None, false);
    EvalAll(p.0, xml, env)
  }

  /** subst_str's evaluation into an output list, which is then joined. */
  method SubstStr(s: string, xml: Option<Xml>, env: map<string, string>) returns (r: Result<string>)
    ensures r == Subst(s, xml, env)
  {
    var p := Doc(Start(s), None, false);
    if p.Err? {
      return Err(p.error);
    }
    var nodes := p.value.0;
    var output: seq<string> := [];
    var i := 0;
    assert nodes[0..] == nodes;
    PrependNothing(EvalAll(nodes, xml, env));
    while i < |nodes|
      invariant 0 <= i <= |nodes|
      invariant EvalAll(nodes, xml, env) == Prepend(Concat(output), EvalAll(nodes[i..], xml, env))
    {
      var piece := Eval(nodes[i], xml, env);
      if piece.Err? {
        return Err(piece.error);
      }
      EvalAllStep(nodes, i, xml, env);
      PrependTwice(Concat(output), piece.value, EvalAll(nodes[i + 1..], xml, env));
      ConcatSnoc(output, piece.value);
      output := output + [piece.value];
      i := i + 1;
    }
    assert nodes[i..] == [];
    assert Concat(output) + "" == Concat(output);
    return Ok(Concat(output));
  }

  /** A result with a text put in front of it. */
  function Prepend(t: string, r: Result<string>): Result<string> {
    if r.Ok? then Ok(t + r.value) else r
  }

  lemma PrependNothing(r: Result<string>)
    ensures Prepend(Concat([]), r) == r
  {
    if r.Ok? {
      assert "" + r.value == r.value;
    }
  }

  lemma PrependTwice(a: string, b: string, r: Result<string>)
    ensures Prepend(a, Prepend(b, r)) == Prepend(a + b, r)
  {
    if r.Ok? {
      assert a + (b + r.value) == a + b + r.value;
    }
  }

  /** Evaluating from node i on is evaluating node i, then the rest. */
  lemma EvalAllStep(ns: seq<Node>, i: nat, xml: Option<Xml>, env: map<string, string>)
    requires i < |ns| && Eval(ns[i], xml, env).Ok?
    ensures EvalAll(ns[i..], xml, env) == Prepend(Eval(ns[i], xml, env).value, EvalAll(ns[i + 1..], xml, env))
  {
    assert ns[i..][0] == ns[i] && ns[i..][1..] == ns[i + 1..];
  }

  lemma {:induction false} ConcatSnoc(ss: seq<string>, t: string)
    ensures Concat(ss + [t]) == Concat(ss) + t
    decreases |ss|
  {
    if ss == [] {
      assert [t][1..] == [];
    } else {
      assert (ss + [t])[1..] == ss[1..] + [t];
      ConcatSnoc(ss[1..], t);
    }
  }

  // ---------------------------------------------------------------------
  // Text without instructions

  /** The top-level scan of text that starts no instruction: "$${" gives
      "${", "$$c" stays "$$c", "$c" stays "$c", and a '$' or "$$" left
      pending at the end of the text is dropped. None when an instruction
      starts. */
  function Plain(rest: string, state: nat, cur: string): Option<string>
    requires state <= 2
    decreases |rest|
  {
    if rest == [] then Some(cur)
    else
      var ch := rest[0];
      if state == 0 then
        if ch == '$' then Plain(rest[1..], 1, cur) else Plain(rest[1..], 0, cur + [ch])
      else if state == 1 then
        if ch == '$' then Plain(rest[1..], 2, cur)
        else if ch == '{' then None
        else Plain(rest[1..], 0, cur + ['$', ch])
      else
        if ch == '{' then Plain(rest[1..], 0, cur + "${")
        else Plain(rest[1..], 0, cur + ['$', '$', ch])
  }

  /** The stream is at position i of s with nothing pushed back. */
  predicate At(st: St, s: string, i: nat) {
    st.input == s && st.idx == i && i <= |s| && st.pushback.None?
  }

  /** The top-level loop over text that starts no instruction produces one
      string node holding the scanned text. */
  lemma {:induction false} DocLoopPlain(st: St, s: string, i: nat, state: nat, cur: string)
    requires At(st, s, i) && state <= 2 && Plain(s[i..], state, cur).Some?
    ensures DocLoop(st, None, false, state, cur).Ok?
    ensures DocLoop(st, None, false, state, cur).value.0 == [Str(Plain(s[i..], state, cur).value)]
    decreases |s| - i
  {
    var (c, st1) := NextSt(st);
    if i < |s| {
      assert s[i..][1..] == s[i + 1..];
      DocLoopPlain(st1, s, i + 1, if state == 0 && s[i] == '$' then 1 else if state == 1 && s[i] == '$' then 2 else 0,
                   if state == 0 then (if s[i] == '$' then cur else cur + [s[i]])
                   else if state == 1 then (if s[i] == '$' then cur else cur + ['$', s[i]])
                   else if s[i] == '{' then cur + "${" else cur + ['$', '$', s[i]]);
    }
  }

  /** Text that starts no instruction is substituted by its scan. */
  lemma SubstPlain(s: string, xml: Option<Xml>, env: map<string, string>)
    requires Plain(s, 0, "").Some?
    ensures Subst(s, xml, env) == Ok(Plain(s, 0, "").value)
  {
    assert s[0..] == s;
    DocLoopPlain(Start(s), s, 0, 0, "");
    var t := Plain(s, 0, "").value;
    assert [Str(t)][1..] == [];
    assert t + "" == t;
  }

  lemma {:induction false} PlainNoDollar(rest: string, cur: string)
    requires '$' !in rest
    ensures Plain(rest, 0, cur) == Some(cur + rest)
    decreases |rest|
  {
    if rest != [] {
      assert rest[0] in rest;
      assert forall c | c in rest[1..] :: c in rest;
      PlainNoDollar(rest[1..], cur + [rest[0]]);
      assert cur + [rest[0]] + rest[1..] == cur + rest;
    } else {
      assert cur + rest == cur;
    }
  }

  /** Text without '$' is copied unchanged. */
  lemma NoDollarUnchanged(s: string, xml: Option<Xml>, env: map<string, string>)
    requires '$' !in s
    ensures Subst(s, xml, env) == Ok(s)
  {
    PlainNoDollar(s, "");
    assert "" + s == s;
    SubstPlain(s, xml, env);
  }

  /** The escapes at the top level. */
  lemma Escapes(t: string, cur: string, c: char)
    ensures Plain("$${" + t, 0, cur) == Plain(t, 0, cur + "${")
    ensures c != '{' ==> Plain("$$" + [c] + t, 0, cur) == Plain(t, 0, cur + ['$', '$', c])
    ensures c != '{' && c != '$' ==> Plain("$" + [c] + t, 0, cur) == Plain(t, 0, cur + ['$', c])
    ensures Plain("$", 0, cur) == Some(cur) && Plain("$$", 0, cur) == Some(cur)
  {
    assert ("$${" + t)[0] == '$' && ("$${" + t)[1..] == "${" + t;
    assert ("${" + t)[0] == '$' && ("${" + t)[1..] == "{" + t;
    assert ("{" + t)[0] == '{' && ("{" + t)[1..] == t;
    assert Plain("{" + t, 2, cur) == Plain(t, 0, cur + "${");
    assert Plain("${" + t, 1, cur) == Plain(t, 0, cur + "${");
    if c != '{' {
      assert ("$$" + [c] + t)[0] == '$' && ("$$" + [c] + t)[1..] == "$" + [c] + t;
      assert ("$" + [c] + t)[0] == '$' && ("$" + [c] + t)[1..] == [c] + t;
      assert ([c] + t)[0] == c && ([c] + t)[1..] == t;
      assert Plain([c] + t, 2, cur) == Plain(t, 0, cur + ['$', '$', c]);
      assert Plain("$" + [c] + t, 1, cur) == Plain(t, 0, cur + ['$', '$', c]);
    }
    if c != '{' && c != '$' {
      assert ("$" + [c] + t)[0] == '$' && ("$" + [c] + t)[1..] == [c] + t;
      assert ([c] + t)[0] == c && ([c] + t)[1..] == t;
      assert Plain([c] + t, 1, cur) == Plain(t, 0, cur + ['$', c]);
    }
    assert "$"[1..] == [];
    assert "$$"[1..] == "$";
    assert Plain("$", 1, cur) == Some(cur);
  }

  /** Scanning '$'-free text only accumulates it. */
  lemma {:induction false} PlainPrefix(a: string, rest: string, cur: string)
    requires '$' !in a
    ensures Plain(a + rest, 0, cur) == Plain(rest, 0, cur + a)
    decreases |a|
  {
    if a != [] {
      assert a[0] in a;
      assert forall c | c in a[1..] :: c in a;
      assert (a + rest)[0] == a[0] && (a + rest)[1..] == a[1..] + rest;
      PlainPrefix(a[1..], rest, cur + [a[0]]);
      assert cur + [a[0]] + a[1..] == cur + a;
    } else {
      assert a + rest == rest && cur + a == cur;
    }
  }

  /** "$${" between '$'-free texts comes out as "${": a literal, not an
      instruction. */
  lemma EscapedInstructionIsLiteral(a: string, t: string, xml: Option<Xml>, env: map<string, string>)
    requires '$' !in a && '$' !in t
    ensures Subst(a + "$${" + t, xml, env) == Ok(a + "${" + t)
  {
    var s := a + "$${" + t;
    assert s == a + ("$${" + t);
    PlainPrefix(a, "$${" + t, "");
    Escapes(t, "" + a, '{');
    PlainNoDollar(t, "" + a + "${");
    assert "" + a + "${" + t == a + "${" + t;
    SubstPlain(s, xml, env);
  }

  // ---------------------------------------------------------------------
  // Unterminated instructions

  /** Reading name characters while waiting for an end character that is
      not one of them runs into the end of the input. */
  lemma {:induction false} DocLoopRunsOut(st: St, s: string, i: nat, end: set<char>, cur: string)
    requires At(st, s, i) && AllChars(s[i..], IsNameChar)
    requires '$' !in end && ':' in end && forall c | c in end :: !IsNameChar(c)
    ensures DocLoop(st, Some(end), true, 0, cur).Err?
    decreases |s| - i
  {
    if i < |s| {
      assert s[i..][0] == s[i];
      assert s[i + 1..] == s[i..][1..];
      assert IsNameChar(s[i]);
      DocLoopRunsOut(NextSt(st).1, s, i + 1, end, cur + [s[i]]);
    }
  }

  /** An instruction made of a name that the input ends inside fails. */
  lemma InstrRunsOut(st: St, s: string, i: nat)
    requires At(st, s, i) && AllChars(s[i..], IsNameChar)
    ensures Instr(st).Err?
  {
    if i < |s| {
      assert s[i..][0] == s[i];
      assert IsNameChar(s[i]);
    }
    assert SkipWs(st) == st;
    DocLoopRunsOut(st, s, i, {':', '}'}, "");
  }

  /** Text without '$' followed by "${" and a name that the input ends
      inside: "Input text ends whilst waiting for end char". */
  lemma UnterminatedInstruction(a: string, k: string, xml: Option<Xml>, env: map<string, string>)
    requires '$' !in a && AllChars(k, IsNameChar)
    ensures Subst(a + "${" + k, xml, env).Err?
  {
    var s := a + "${" + k;
    assert s[..|a|] == a && s[|a|] == '$' && s[|a| + 1] == '{' && s[|a| + 2..] == k;
    DocLoopPlainPrefix(Start(s), s, 0, |a|, "");
    var st := PlainSt(Start(s), s, 0, |a|);
    var st1 := NextSt(st).1;
    var st2 := NextSt(st1).1;
    InstrRunsOut(st2, s, |a| + 2);
  }

  /** The stream after reading s[i..j] from position i. */
  function PlainSt(st: St, s: string, i: nat, j: nat): (r: St)
    requires At(st, s, i) && i <= j <= |s|
    ensures At(r, s, j)
    decreases j - i
  {
    if i == j then st else PlainSt(NextSt(st).1, s, i + 1, j)
  }

  /** Reading '$'-free text at the top level only accumulates it. */
  lemma {:induction false} DocLoopPlainPrefix(st: St, s: string, i: nat, j: nat, cur: string)
    requires At(st, s, i) && i <= j <= |s| && '$' !in s[i..j]
    ensures DocLoop(st, None, false, 0, cur) == DocLoop(PlainSt(st, s, i, j), None, false, 0, cur + s[i..j])
    decreases j - i
  {
    if i < j {
      assert s[i] in s[i..j];
      assert s[i + 1..j] == s[i..j][1..];
      DocLoopPlainPrefix(NextSt(st).1, s, i + 1, j, cur + [s[i]]);
      assert cur + [s[i]] + s[i + 1..j] == cur + s[i..j];
    } else {
      assert s[i..j] == [];
      assert cur + s[i..j] == cur;
    }
  }

  // ---------------------------------------------------------------------
  // Well-formed instructions

  /** Text that holds no '$', no backslash and none of the end characters:
      read inside an instruction it is collected as it is. */
  predicate Bare(t: string, end: set<char>) {
    forall i | 0 <= i < |t| :: t[i] != '$' && t[i] != '\\' && t[i] !in end
  }

  /** The stream reads s[i..] next: at position i, or just after it with
      s[i] pushed back. */
  predicate Pos(st: St, s: string, i: nat) {
    st.input == s && i <= |s| &&
    ((st.pushback.None? && st.idx == i) || (i < |s| && st.pushback == Some(s[i]) && st.idx == i + 1))
  }

  lemma NextPos(st: St, s: string, i: nat)
    requires Pos(st, s, i) && i < |s|
    ensures Good(st) && NextSt(st).0 == Some(s[i]) && PeekSt(st) == Some(s[i])
    ensures At(NextSt(st).1, s, i + 1)
  {
  }

  /** Reading bare text up to an end character collects it as one string
      and leaves the end character to be read next. */
  lemma {:induction false} DocLoopTo(st: St, s: string, i: nat, j: nat, end: set<char>, esc: bool, cur: string)
    requires Pos(st, s, i) && i <= j < |s| && Bare(s[i..j], end) && s[j] in end
    ensures Good(st)
    ensures DocLoop(st, Some(end), esc, 0, cur).Ok?
    ensures DocLoop(st, Some(end), esc, 0, cur).value.0 == [Str(cur + s[i..j])]
    ensures Pos(DocLoop(st, Some(end), esc, 0, cur).value.1, s, j)
    decreases j - i
  {
    NextPos(st, s, i);
    if i < j {
      assert s[i..j][0] == s[i] && s[i + 1..j] == s[i..j][1..];
      DocLoopTo(NextSt(st).1, s, i + 1, j, end, esc, cur + [s[i]]);
      assert cur + [s[i]] + s[i + 1..j] == cur + s[i..j];
    } else {
      assert cur + s[i..j] == cur;
    }
  }

  /** The text of a key the parser reads as a value instruction: no '$',
      backslash, ':' or '}', and no space at either end. */
  predicate KeyText(k: string) {
    k != "" && Bare(k, {':', '}'}) && !IsSpace(k[0]) && !IsSpace(k[|k| - 1]) && k[0] != '"'
  }

  /** After "${", a key followed by '}' parses to the value instruction of
      that key, with the '}' left to be read. */
  lemma InstrKey(st: St, s: string, i: nat, j: nat) returns (p1: St)
    requires At(st, s, i) && i < j < |s| && s[j] == '}' && KeyText(s[i..j])
    ensures Instr(st) == Ok((ValInstr(Container([Str(s[i..j])])), p1)) && Pos(p1, s, j)
  {
    assert s[i..j][0] == s[i];
    NextPos(st, s, i);
    assert SkipWs(st) == st;
    DocLoopTo(st, s, i, j, {':', '}'}, true, "");
    assert "" + s[i..j] == s[i..j];
    NextPos(Doc(st, Some({':', '}'}), true).value.1, s, j);
    p1 := Instr(st).value.1;
  }

  /** Text after '$' and '{' at the top level: an instruction InstrKey
      reads, then '$'-free text. */
  lemma DocLoopKey(st: St, s: string, i: nat, j: nat, cur: string)
    requires At(st, s, i) && i + 2 < j < |s| && s[i] == '$' && s[i + 1] == '{' && s[j] == '}'
    requires KeyText(s[i + 2..j]) && '$' !in s[j + 1..]
    ensures DocLoop(st, None, false, 0, cur).Ok?
    ensures DocLoop(st, None, false, 0, cur).value.0 ==
      [Str(cur), ValInstr(Container([Str(s[i + 2..j])])), Str(s[j + 1..])]
  {
    var st1, st2 := Opening(st, s, i);
    var p1 := InstrKey(st2, s, i + 2, j);
    var st3 := Closing(p1, s, j);
    DocLoopSteps(st, st1, st2, ValInstr(Container([Str(s[i + 2..j])])), p1, st3, s[j + 1..], cur);
  }

  /** "${" at the top level: the characters read and the states after
      them. */
  lemma Opening(st: St, s: string, i: nat) returns (st1: St, st2: St)
    requires At(st, s, i) && i + 1 < |s| && s[i] == '$' && s[i + 1] == '{'
    ensures Good(st) && NextSt(st) == (Some('$'), st1) && Good(st1) && NextSt(st1) == (Some('{'), st2)
    ensures At(st2, s, i + 2)
  {
    NextPos(st, s, i);
    st1 := NextSt(st).1;
    NextPos(st1, s, i + 1);
    st2 := NextSt(st1).1;
  }

  /** The '}' after an instruction and the '$'-free text after it. */
  lemma Closing(p1: St, s: string, j: nat) returns (st3: St)
    requires Pos(p1, s, j) && j < |s| && s[j] == '}' && '$' !in s[j + 1..]
    ensures Good(p1) && NextSt(p1) == (Some('}'), st3) && Good(st3)
    ensures DocLoop(st3, None, false, 0, "").Ok? && DocLoop(st3, None, false, 0, "").value.0 == [Str(s[j + 1..])]
  {
    NextPos(p1, s, j);
    st3 := NextSt(p1).1;
    PlainTail(st3, s, j + 1);
  }

  /** parse_document's loop at the top level on "${", an instruction, '}'
      and text: the text so far, the instruction and the text after. */
  lemma DocLoopSteps(st: St, st1: St, st2: St, node: Node, p1: St, st3: St, b: string, cur: string)
    requires Good(st) && Good(st1) && Good(st2) && Good(p1) && Good(st3)
    requires NextSt(st) == (Some('$'), st1) && NextSt(st1) == (Some('{'), st2)
    requires Instr(st2) == Ok((node, p1)) && NextSt(p1) == (Some('}'), st3)
    requires DocLoop(st3, None, false, 0, "").Ok? && DocLoop(st3, None, false, 0, "").value.0 == [Str(b)]
    ensures DocLoop(st, None, false, 0, cur).Ok?
    ensures DocLoop(st, None, false, 0, cur).value.0 == [Str(cur), node, Str(b)]
  {
    assert DocLoop(st, None, false, 0, cur) == DocLoop(st1, None, false, 1, cur);
  }

  /** '$'-free text at the top level is read as one string. */
  lemma PlainTail(st: St, s: string, j: nat)
    requires At(st, s, j) && '$' !in s[j..]
    ensures DocLoop(st, None, false, 0, "").Ok? && DocLoop(st, None, false, 0, "").value.0 == [Str(s[j..])]
  {
    PlainNoDollar(s[j..], "");
    assert "" + s[j..] == s[j..];
    DocLoopPlain(st, s, j, 0, "");
  }

  /** "${key}" between '$'-free texts parses to the text before, the
      value instruction of the key and the text after. */
  lemma KeyParsed(a: string, k: string, b: string)
    requires '$' !in a && '$' !in b && KeyText(k)
    ensures Doc(Start(a + "${" + k + "}" + b), None, false).Ok?
    ensures Doc(Start(a + "${" + k + "}" + b), None, false).value.0 == [Str(a), ValInstr(Container([Str(k)])), Str(b)]
  {
    var s := a + "${" + k + "}" + b;
    var i := |a|;
    var j := |a| + 2 + |k|;
    assert s[..i] == a && s[i] == '$' && s[i + 1] == '{' && s[i + 2..j] == k && s[j] == '}' && s[j + 1..] == b;
    assert s[0..i] == a;
    DocLoopPlainPrefix(Start(s), s, 0, i, "");
    assert "" + a == a;
    DocLoopKey(PlainSt(Start(s), s, 0, i), s, i, j, a);
  }

  /** A node between two strings: its value between them, or its error. */
  lemma EvalBetween(a: string, n: Node, b: string, xml: Option<Xml>, env: map<string, string>)
    ensures Eval(n, xml, env).Ok? ==> EvalAll([Str(a), n, Str(b)], xml, env) == Ok(a + Eval(n, xml, env).value + b)
    ensures Eval(n, xml, env).Err? ==> EvalAll([Str(a), n, Str(b)], xml, env) == Err(Eval(n, xml, env).error)
  {
    var nodes := [Str(a), n, Str(b)];
    assert nodes[1..] == [n, Str(b)] && [n, Str(b)][1..] == [Str(b)] && [Str(b)][1..] == [];
    assert EvalAll([Str(b)], xml, env) == Ok(b) by { assert b + "" == b; }
    var r := Eval(n, xml, env);
    if r.Ok? {
      assert EvalAll([n, Str(b)], xml, env) == Ok(r.value + b);
      assert a + (r.value + b) == a + r.value + b;
    }
  }

  /** A text parsed to a node between two strings substitutes to the
      node's value between them, or fails with the node's error. */
  lemma ParsedSubst(s: string, a: string, n: Node, b: string, xml: Option<Xml>, env: map<string, string>)
    requires Doc(Start(s), None, false).Ok? && Doc(Start(s), None, false).value.0 == [Str(a), n, Str(b)]
    ensures Eval(n, xml, env).Ok? ==> Subst(s, xml, env) == Ok(a + Eval(n, xml, env).value + b)
    ensures Eval(n, xml, env).Err? ==> Subst(s, xml, env) == Err(Eval(n, xml, env).error)
  {
    EvalBetween(a, n, b, xml, env);
  }

  /** The value instruction of a parsed key looks the key up. */
  lemma EvalKey(k: string, xml: Option<Xml>, env: map<string, string>)
    requires KeyText(k)
    ensures Eval(ValInstr(Container([Str(k)])), xml, env) == Lookup(xml, env, k)
  {
    assert Strip(k) == k;
    ValNodeText(k, xml, env);
  }

  /** The value instruction of a text looks up the stripped text. */
  lemma ValNodeText(k: string, xml: Option<Xml>, env: map<string, string>)
    ensures Eval(ValInstr(Container([Str(k)])), xml, env) == Lookup(xml, env, Strip(k))
  {
    EvalText(k, xml, env);
  }

  /** "${key}" between '$'-free texts is replaced by the key's value; a
      key that cannot be looked up fails the substitution with its error. */
  lemma KeySubstituted(a: string, k: string, b: string, xml: Option<Xml>, env: map<string, string>)
    requires '$' !in a && '$' !in b && KeyText(k)
    ensures Lookup(xml, env, k).Ok? ==> Subst(a + "${" + k + "}" + b, xml, env) == Ok(a + Lookup(xml, env, k).value + b)
    ensures Lookup(xml, env, k).Err? ==> Subst(a + "${" + k + "}" + b, xml, env) == Err(Lookup(xml, env, k).error)
  {
    KeyParsed(a, k, b);
    EvalKey(k, xml, env);
    ParsedSubst(a + "${" + k + "}" + b, a, ValInstr(Container([Str(k)])), b, xml, env);
  }

  /** The text of a quoted key: no '$', backslash or '"', and not starting
      with whitespace. */
  predicate QuotedText(k: string) {
    Bare(k, {'"'}) && (k != "" ==> !IsWhitespace(k[0]))
  }

  /** After "${", a quoted key followed by '}' parses to the value
      instruction of that key, with the '}' left to be read. */
  lemma InstrQuoted(st: St, s: string, i: nat, k: nat, j: nat) returns (p1: St)
    requires At(st, s, i) && k == i + 1 && k <= j && j + 1 < |s| && s[i] == '"' && s[j] == '"' && s[j + 1] == '}'
    requires QuotedText(s[k..j])
    ensures Instr(st) == Ok((ValInstr(Container([Str(s[k..j])])), p1)) && Pos(p1, s, j + 1)
  {
    NextPos(st, s, i);
    assert SkipWs(st) == st;
    var st1 := NextSt(st).1;
    if k < j {
      assert s[k..j][0] == s[k];
    }
    NextPos(st1, s, k);
    assert SkipWs(st1) == st1;
    DocLoopTo(st1, s, k, j, {'"'}, true, "");
    assert "" + s[k..j] == s[k..j];
    var p := Doc(st1, Some({'"'}), true).value;
    NextPos(p.1, s, j);
    var st4 := NextSt(p.1).1;
    NextPos(st4, s, j + 1);
    assert SkipWs(st4) == st4;
    p1 := PushBackSt(NextSt(st4).1, Some('}'));
  }

  /** Text after '$' and '{' at the top level: a quoted key InstrQuoted
      reads, then '$'-free text. */
  lemma DocLoopQuoted(st: St, s: string, i: nat, j: nat, cur: string)
    requires At(st, s, i) && i + 2 < j && j + 1 < |s| && s[i] == '$' && s[i + 1] == '{' && s[i + 2] == '"'
    requires s[j] == '"' && s[j + 1] == '}' && QuotedText(s[i + 3..j]) && '$' !in s[j + 2..]
    ensures DocLoop(st, None, false, 0, cur).Ok?
    ensures DocLoop(st, None, false, 0, cur).value.0 ==
      [Str(cur), ValInstr(Container([Str(s[i + 3..j])])), Str(s[j + 2..])]
  {
    var st1, st2 := Opening(st, s, i);
    var p1 := InstrQuoted(st2, s, i + 2, i + 3, j);
    var st3 := Closing(p1, s, j + 1);
    DocLoopSteps(st, st1, st2, ValInstr(Container([Str(s[i + 3..j])])), p1, st3, s[j + 2..], cur);
  }

  /** "${"key"}" between '$'-free texts parses to the text before, the
      value instruction of the key and the text after. */
  lemma QuotedParsed(a: string, k: string, b: string)
    requires '$' !in a && '$' !in b && QuotedText(k)
    ensures Doc(Start(a + "${\"" + k + "\"}" + b), None, false).Ok?
    ensures Doc(Start(a + "${\"" + k + "\"}" + b), None, false).value.0 == [Str(a), ValInstr(Container([Str(k)])), Str(b)]
  {
    var s := a + "${\"" + k + "\"}" + b;
    var i := |a|;
    var j := |a| + 3 + |k|;
    assert s[..i] == a && s[i] == '$' && s[i + 1] == '{' && s[i + 2] == '"' && s[i + 3..j] == k;
    assert s[j] == '"' && s[j + 1] == '}' && s[j + 2..] == b;
    assert s[0..i] == a;
    DocLoopPlainPrefix(Start(s), s, 0, i, "");
    assert "" + a == a;
    DocLoopQuoted(PlainSt(Start(s), s, 0, i), s, i, j, a);
  }

  /** "${"key"}" between '$'-free texts is replaced by the value of the
      stripped key, which may hold ':' and '}'; a key that cannot be looked
      up fails the substitution with its error. */
  lemma QuotedSubstituted(a: string, k: string, b: string, xml: Option<Xml>, env: map<string, string>)
    requires '$' !in a && '$' !in b && QuotedText(k)
    ensures Lookup(xml, env, Strip(k)).Ok? ==>
      Subst(a + "${\"" + k + "\"}" + b, xml, env) == Ok(a + Lookup(xml, env, Strip(k)).value + b)
    ensures Lookup(xml, env, Strip(k)).Err? ==>
      Subst(a + "${\"" + k + "\"}" + b, xml, env) == Err(Lookup(xml, env, Strip(k)).error)
  {
    QuotedParsed(a, k, b);
    var node := ValInstr(Container([Str(k)]));
    ValNodeText(k, xml, env);
    ParsedSubst(a + "${\"" + k + "\"}" + b, a, node, b, xml, env);
  }

  /** The text of one parameter of a function instruction: no '$',
      backslash, ',' or ')', and not starting with whitespace or a quote. */
  predicate ParamText(p: string) {
    Bare(p, {',', ')'}) && (p != "" ==> !IsWhitespace(p[0]) && p[0] != '"')
  }

  /** Every parameter is ParamText. */
  predicate ParamTexts(ps: seq<string>) {
    forall k | 0 <= k < |ps| :: ParamText(ps[k])
  }

  /** The nodes parse_instruction makes of unquoted parameters. */
  function ParamNodes(ps: seq<string>): (r: seq<Node>)
    ensures |r| == |ps| && forall k | 0 <= k < |ps| :: r[k] == Container([Str(ps[k])])
  {
    seq(|ps|, k requires 0 <= k < |ps| => Container([Str(ps[k])]))
  }

  /** One unquoted parameter is read up to the ',' or ')' after it. */
  lemma ParamTo(st: St, s: string, i: nat, j: nat)
    requires At(st, s, i) && i <= j < |s| && ParamText(s[i..j]) && s[j] in {',', ')'}
    ensures Param(st, {',', ')'}).Ok? && Param(st, {',', ')'}).value.0 == [Str(s[i..j])]
    ensures Pos(Param(st, {',', ')'}).value.1, s, j)
  {
    if i < j {
      assert s[i..j][0] == s[i];
    }
    NextPos(st, s, i);
    assert SkipWs(st) == st;
    DocLoopTo(st, s, i, j, {',', ')'}, true, "");
    assert "" + s[i..j] == s[i..j];
  }

  /** A prefix of s made of two texts: each lies where it should. */
  lemma Peel(s: string, p: string, x: string)
    requires |p| + |x| <= |s| && s[..|p| + |x|] == p + x
    ensures s[..|p|] == p && s[|p|..|p| + |x|] == x
  {
    assert s[..|p|] == s[..|p| + |x|][..|p|];
    assert s[|p|..|p| + |x|] == s[..|p| + |x|][|p|..];
  }

  /** A slice of s holding x, a separator and y. */
  lemma Split3(s: string, i: nat, x: string, c: char, y: string)
    requires i + |x| + 1 + |y| <= |s| && s[i..i + |x| + 1 + |y|] == x + [c] + y
    ensures s[i..i + |x|] == x && s[i + |x|] == c && s[i + |x| + 1..i + |x| + 1 + |y|] == y
  {
    var w := s[i..i + |x| + 1 + |y|];
    assert s[i..i + |x|] == w[..|x|];
    assert s[i + |x|] == w[|x|];
    assert s[i + |x| + 1..i + |x| + 1 + |y|] == w[|x| + 1..];
  }

  /** Unquoted parameters from i on, each followed by ',' and the last by
      ')'. */
  predicate ParamsAt(s: string, i: nat, ps: seq<string>)
    decreases |ps|
  {
    && |ps| >= 1 && i + |ps[0]| < |s| && s[i..i + |ps[0]|] == ps[0] && ParamText(ps[0])
    && (if |ps| == 1 then s[i + |ps[0]|] == ')'
        else s[i + |ps[0]|] == ',' && ParamsAt(s, i + |ps[0]| + 1, ps[1..]))
  }

  /** Where the ')' after the parameters lies. */
  function ParamsEnd(i: nat, ps: seq<string>): nat
    requires |ps| >= 1
    decreases |ps|
  {
    if |ps| == 1 then i + |ps[0]| else ParamsEnd(i + |ps[0]| + 1, ps[1..])
  }

  /** Parameters joined by ',' and followed by ')' lie as ParamsAt says,
      and the ')' comes right after the joined text. */
  lemma {:induction false} JoinedAt(s: string, i: nat, ps: seq<string>, e: nat)
    requires |ps| >= 1 && ParamTexts(ps) && e == i + |Join(ps, ",")| && e < |s|
    requires s[i..e] == Join(ps, ",") && s[e] == ')'
    ensures ParamsAt(s, i, ps) && ParamsEnd(i, ps) == e
    decreases |ps|
  {
    if |ps| == 1 {
      assert Join(ps, ",") == ps[0];
    } else {
      var r := Join(ps[1..], ",");
      assert Join(ps, ",") == ps[0] + "," + r;
      Split3(s, i, ps[0], ',', r);
      assert ParamTexts(ps[1..]) by {
        forall k | 0 <= k < |ps[1..]| ensures ParamText(ps[1..][k]) {
          assert ps[1..][k] == ps[k + 1];
        }
      }
      JoinedAt(s, i + |ps[0]| + 1, ps[1..], e);
    }
  }

  /** What ParamsAt says about the first parameter and the rest. */
  lemma ParamsAtParts(s: string, i: nat, ps: seq<string>) returns (e: nat)
    requires ParamsAt(s, i, ps)
    ensures e == i + |ps[0]| && e < |s| && s[i..e] == ps[0] && ParamText(ps[0])
    ensures |ps| == 1 ==> s[e] == ')' && ParamsEnd(i, ps) == e
    ensures |ps| > 1 ==> s[e] == ',' && ParamsAt(s, e + 1, ps[1..]) && ParamsEnd(i, ps) == ParamsEnd(e + 1, ps[1..])
  {
    e := i + |ps[0]|;
  }

  /** Each parameter in turn is read as unquoted text followed by ',', and
      the last by ')'; st' is the state after the ')'. */
  predicate ParamsRun(st: St, ps: seq<string>, st': St)
    decreases |ps|
  {
    && |ps| >= 1 && Good(st) && Param(st, {',', ')'}).Ok? && Param(st, {',', ')'}).value.0 == [Str(ps[0])]
    && var (c, st2) := NextSt(Param(st, {',', ')'}).value.1);
      if |ps| == 1 then c == Some(')') && st2 == st' else c == Some(',') && ParamsRun(st2, ps[1..], st')
  }

  /** The parameter loop on such a run collects one node per parameter. */
  lemma {:induction false} RunParams(st: St, ps: seq<string>, st': St, acc: seq<Node>)
    requires ParamsRun(st, ps, st')
    ensures Params(st, acc) == Ok((acc + ParamNodes(ps), st'))
    decreases |ps|
  {
    ParamNodesAppend(acc, ps);
    if |ps| > 1 {
      RunParams(NextSt(Param(st, {',', ')'}).value.1).1, ps[1..], st', acc + [Container([Str(ps[0])])]);
    }
  }

  /** Parameters laid out as ParamsAt says make such a run. */
  lemma {:induction false} ParamsRunAt(st: St, s: string, i: nat, ps: seq<string>) returns (st': St)
    requires At(st, s, i) && ParamsAt(s, i, ps)
    ensures ParamsRun(st, ps, st') && At(st', s, ParamsEnd(i, ps) + 1)
    decreases |ps|
  {
    var e := ParamsAtParts(s, i, ps);
    var st2 := ParamStep(st, s, i, e);
    if |ps| == 1 {
      st' := st2;
    } else {
      st' := ParamsRunAt(st2, s, e + 1, ps[1..]);
    }
  }

  /** One parameter and the ',' or ')' after it. */
  lemma ParamStep(st: St, s: string, i: nat, j: nat) returns (st2: St)
    requires At(st, s, i) && i <= j < |s| && ParamText(s[i..j]) && s[j] in {',', ')'}
    ensures Good(st) && Param(st, {',', ')'}).Ok? && Param(st, {',', ')'}).value.0 == [Str(s[i..j])]
    ensures NextSt(Param(st, {',', ')'}).value.1) == (Some(s[j]), st2) && At(st2, s, j + 1)
  {
    ParamTo(st, s, i, j);
    NextPos(Param(st, {',', ')'}).value.1, s, j);
    st2 := NextSt(Param(st, {',', ')'}).value.1).1;
  }

  /** The parameter loop reads the parameters and the ')' after them. */
  lemma ParamsTo(st: St, s: string, i: nat, ps: seq<string>, acc: seq<Node>) returns (st': St)
    requires At(st, s, i) && ParamsAt(s, i, ps)
    ensures Params(st, acc) == Ok((acc + ParamNodes(ps), st')) && At(st', s, ParamsEnd(i, ps) + 1)
  {
    st' := ParamsRunAt(st, s, i, ps);
    RunParams(st, ps, st', acc);
  }

  /** The nodes of the parameters after those already read. */
  lemma ParamNodesAppend(acc: seq<Node>, ps: seq<string>)
    requires |ps| >= 1
    ensures acc + [Container([Str(ps[0])])] + ParamNodes(ps[1..]) == acc + ParamNodes(ps)
    ensures |ps| == 1 ==> acc + [Container([Str(ps[0])])] == acc + ParamNodes(ps)
  {
    ParamNodesCons(ps);
    assert acc + [Container([Str(ps[0])])] + ParamNodes(ps[1..]) == acc + ([Container([Str(ps[0])])] + ParamNodes(ps[1..]));
  }

  lemma ParamNodesCons(ps: seq<string>)
    requires |ps| >= 1
    ensures ParamNodes(ps) == [Container([Str(ps[0])])] + ParamNodes(ps[1..])
  {
    assert ParamNodes(ps)[1..] == ParamNodes(ps[1..]);
  }

  /** parse_literal on bare text up to an end character. */
  lemma LiteralTo(st: St, s: string, i: nat, j: nat, echars: set<char>)
    requires Pos(st, s, i) && i <= j < |s| && Bare(s[i..j], echars) && s[j] in echars
    ensures Literal(st, echars).Ok? && Literal(st, echars).value.0 == s[i..j]
    ensures Pos(Literal(st, echars).value.1, s, j)
  {
    DocLoopTo(st, s, i, j, echars, true, "");
    assert "" + s[i..j] == s[i..j];
    assert FlattenAll([Str(s[i..j])]) == Ok(s[i..j]) by {
      assert [Str(s[i..j])][1..] == [];
      assert s[i..j] + "" == s[i..j];
    }
  }

  /** A function's text from i on: its name, its parameters in
      parentheses, the rest and the closing '}'. */
  predicate FnAt(s: string, i: nat, f: string, ps: seq<string>, t: string) {
    var j := i + |f|;
    && j < |s| && s[i..j] == f && s[j] == '(' && ParamsAt(s, j + 1, ps)
    && ParamsEnd(j + 1, ps) + 1 + |t| < |s|
    && s[ParamsEnd(j + 1, ps) + 1..ParamsEnd(j + 1, ps) + 1 + |t|] == t
    && s[ParamsEnd(j + 1, ps) + 1 + |t|] == '}'
  }

  /** Where the '}' of a function's text starting at i lies. */
  function FnEnd(i: nat, f: string, ps: seq<string>, t: string): nat
    requires |ps| >= 1
  {
    ParamsEnd(i + |f| + 1, ps) + 1 + |t|
  }

  /** The name of a function and the '(' after it. */
  lemma FnHead(st: St, s: string, i: nat, f: string) returns (st3: St, st4: St)
    requires At(st, s, i) && i + |f| < |s| && s[i..i + |f|] == f && s[i + |f|] == '(' && Bare(f, {'(', '}'})
    ensures Literal(st, {'(', '}'}) == Ok((f, st3)) && Good(st3)
    ensures NextSt(st3) == (Some('('), st4) && At(st4, s, i + |f| + 1)
  {
    LiteralTo(st, s, i, i + |f|, {'(', '}'});
    st3 := Literal(st, {'(', '}'}).value.1;
    NextPos(st3, s, i + |f|);
    st4 := NextSt(st3).1;
  }

  /** The parameters of a function and the rest of the instruction. */
  lemma FnBody(st4: St, s: string, j: nat, ps: seq<string>, t: string, e: nat) returns (st5: St, st6: St)
    requires At(st4, s, j) && ParamsAt(s, j, ps) && e == ParamsEnd(j, ps) + 1 + |t| && e < |s|
    requires s[ParamsEnd(j, ps) + 1..e] == t && s[e] == '}' && Bare(t, {'}'})
    ensures Params(st4, []) == Ok((ParamNodes(ps), st5)) && Good(st5)
    ensures Doc(st5, Some({'}'}), true) == Ok(([Str(t)], st6)) && Pos(st6, s, e)
  {
    st5 := ParamsFrom(st4, s, j, ps);
    st6 := RestTo(st5, s, ParamsEnd(j, ps) + 1, e, t);
  }

  /** The parameter loop from its start. */
  lemma ParamsFrom(st: St, s: string, i: nat, ps: seq<string>) returns (st': St)
    requires At(st, s, i) && ParamsAt(s, i, ps)
    ensures Params(st, []) == Ok((ParamNodes(ps), st')) && Good(st') && At(st', s, ParamsEnd(i, ps) + 1)
  {
    var none: seq<Node> := [];
    st' := ParamsTo(st, s, i, ps, none);
    assert none + ParamNodes(ps) == ParamNodes(ps);
  }

  /** The rest of a function instruction, up to its '}'. */
  lemma RestTo(st: St, s: string, k: nat, e: nat, t: string) returns (st': St)
    requires At(st, s, k) && k <= e < |s| && s[k..e] == t && s[e] == '}' && Bare(t, {'}'})
    ensures Doc(st, Some({'}'}), true) == Ok(([Str(t)], st')) && Pos(st', s, e)
  {
    DocLoopTo(st, s, k, e, {'}'}, true, "");
    assert "" + t == t;
    st' := Doc(st, Some({'}'}), true).value.1;
  }

  /** How parse_instruction's tail puts a function instruction together
      from the name, the parameters and the rest. */
  lemma TailStep(st: St, f: string, st3: St, st4: St, pn: seq<Node>, st5: St, t: string, st6: St)
    requires Good(st) && Good(st3) && Good(st4) && Good(st5)
    requires Literal(st, {'(', '}'}) == Ok((f, st3)) && NextSt(st3) == (Some('('), st4)
    requires Params(st4, []) == Ok((pn, st5)) && Doc(st5, Some({'}'}), true) == Ok(([Str(t)], st6))
    ensures FnInstrTail(st) == Ok((FnInstr(f, pn, Container([Str(t)])), st6))
  {
  }

  /** After "fn:": the function name, its parameters and the rest of the
      instruction make the function instruction, with the '}' left to be
      read. */
  lemma FnInstrTailTo(st: St, s: string, i: nat, f: string, ps: seq<string>, t: string) returns (st6: St)
    requires Bare(f, {'(', '}'}) && Bare(t, {'}'}) && At(st, s, i) && FnAt(s, i, f, ps, t)
    ensures FnInstrTail(st) == Ok((FnInstr(f, ParamNodes(ps), Container([Str(t)])), st6))
    ensures Pos(st6, s, FnEnd(i, f, ps, t))
  {
    var st3, st4 := FnHead(st, s, i, f);
    var st5;
    st5, st6 := FnBody(st4, s, i + |f| + 1, ps, t, FnEnd(i, f, ps, t));
    TailStep(st, f, st3, st4, ParamNodes(ps), st5, t, st6);
  }

  /** After "${", "fn:" and a function's text parse to the function
      instruction, with the '}' left to be read. */
  lemma InstrFn(st: St, s: string, i: nat, h: nat, f: string, ps: seq<string>, t: string) returns (st6: St)
    requires Bare(f, {'(', '}'}) && Bare(t, {'}'}) && At(st, s, i) && h == i + 3 && h <= |s|
    requires s[i] == 'f' && s[i + 1] == 'n' && s[i + 2] == ':' && FnAt(s, h, f, ps, t)
    ensures Instr(st) == Ok((FnInstr(f, ParamNodes(ps), Container([Str(t)])), st6))
    ensures Pos(st6, s, FnEnd(h, f, ps, t))
  {
    var st3 := FnDesignator(st, s, i, h);
    st6 := FnInstrTailTo(st3, s, h, f, ps, t);
  }

  /** "fn" and the ':' after it, at the start of an instruction. */
  lemma FnDesignator(st: St, s: string, i: nat, h: nat) returns (st3: St)
    requires At(st, s, i) && h == i + 3 && h <= |s| && s[i] == 'f' && s[i + 1] == 'n' && s[i + 2] == ':'
    ensures Good(st) && SkipWs(st) == st && PeekSt(st) != Some('"')
    ensures Doc(st, Some({':', '}'}), true).Ok? && Doc(st, Some({':', '}'}), true).value.0 == [Str("fn")]
    ensures NextSt(Doc(st, Some({':', '}'}), true).value.1) == (Some(':'), st3) && At(st3, s, h)
    ensures FlattenAll([Str("fn")]) == Ok("fn")
  {
    assert s[i..i + 2] == "fn";
    NextPos(st, s, i);
    DocLoopTo(st, s, i, i + 2, {':', '}'}, true, "");
    assert "" + s[i..i + 2] == "fn";
    NextPos(Doc(st, Some({':', '}'}), true).value.1, s, i + 2);
    st3 := NextSt(Doc(st, Some({':', '}'}), true).value.1).1;
    assert [Str("fn")][1..] == [];
    assert "fn" + "" == "fn";
  }

  /** Text after '$' at the top level: "{fn:", a function's text, and
      '$'-free text after its '}'. */
  lemma DocLoopFn(st: St, s: string, i: nat, f: string, ps: seq<string>, t: string, b: string, cur: string)
    requires Bare(f, {'(', '}'}) && Bare(t, {'}'}) && At(st, s, i) && i + 5 <= |s| && s[i] == '$' && s[i + 1] == '{'
    requires s[i + 2] == 'f' && s[i + 3] == 'n' && s[i + 4] == ':' && FnAt(s, i + 5, f, ps, t)
    requires s[FnEnd(i + 5, f, ps, t) + 1..] == b && '$' !in b
    ensures DocLoop(st, None, false, 0, cur).Ok?
    ensures DocLoop(st, None, false, 0, cur).value.0 == [Str(cur), FnInstr(f, ParamNodes(ps), Container([Str(t)])), Str(b)]
  {
    var st1, st2 := Opening(st, s, i);
    var st6 := InstrFn(st2, s, i + 2, i + 5, f, ps, t);
    ClosedAfter(st, st1, st2, FnInstr(f, ParamNodes(ps), Container([Str(t)])), st6, s, FnEnd(i + 5, f, ps, t), b, cur);
  }

  /** DocLoopSteps, with the closing '}' and the text after it read from
      where they lie. */
  lemma ClosedAfter(st: St, st1: St, st2: St, node: Node, p1: St, s: string, j: nat, b: string, cur: string)
    requires Good(st) && Good(st1) && Good(st2)
    requires NextSt(st) == (Some('$'), st1) && NextSt(st1) == (Some('{'), st2) && Instr(st2) == Ok((node, p1))
    requires Pos(p1, s, j) && j < |s| && s[j] == '}' && s[j + 1..] == b && '$' !in b
    ensures DocLoop(st, None, false, 0, cur).Ok?
    ensures DocLoop(st, None, false, 0, cur).value.0 == [Str(cur), node, Str(b)]
  {
    var st3 := Closing(p1, s, j);
    DocLoopSteps(st, st1, st2, node, p1, st3, b, cur);
  }

  /** Where the pieces of "${fn:name(params)rest}" lie in the text, with
      the parameters already joined. */
  lemma FnSlices(s: string, a: string, f: string, j: string, t: string, b: string) returns (i: nat, k: nat, m: nat)
    requires s == a + "${fn:" + f + "(" + j + ")" + t + "}" + b
    ensures i == |a| + 5 && k == i + |f| + 1 + |j| && m == k + 1 + |t|
    ensures m < |s| && s[..|a|] == a && s[|a|..i] == "${fn:" && s[i..i + |f|] == f
      && s[i + |f|..i + |f| + 1] == "(" && s[i + |f| + 1..k] == j && s[k..k + 1] == ")"
      && s[k + 1..m] == t && s[m..m + 1] == "}" && s[m + 1..] == b
  {
    var p1 := a + "${fn:";
    var p2 := p1 + f;
    var p3 := p2 + "(";
    var p4 := p3 + j;
    var p5 := p4 + ")";
    var p6 := p5 + t;
    var p7 := p6 + "}";
    assert s[..|p7| + |b|] == p7 + b;
    assert s[|p7|..] == b;
    Peel(s, p7, b);
    Peel(s, p6, "}");
    Peel(s, p5, t);
    Peel(s, p4, ")");
    Peel(s, p3, j);
    Peel(s, p2, "(");
    Peel(s, p1, f);
    Peel(s, a, "${fn:");
    i, k, m := |p1|, |p4|, |p6|;
  }

  /** A one-character slice holds that character. */
  lemma CharAt(s: string, k: nat, c: char)
    requires k < |s| && s[k..k + 1] == [c]
    ensures s[k] == c
  {
    assert s[k..k + 1][0] == s[k];
  }

  /** The five characters "${fn:" from h on. */
  lemma FnOpening(s: string, h: nat)
    requires h + 5 <= |s| && s[h..h + 5] == "${fn:"
    ensures s[h] == '$' && s[h + 1] == '{' && s[h + 2] == 'f' && s[h + 3] == 'n' && s[h + 4] == ':'
  {
    var w := s[h..h + 5];
    assert w[0] == s[h] && w[1] == s[h + 1] && w[2] == s[h + 2] && w[3] == s[h + 3] && w[4] == s[h + 4];
  }

  /** A function's text assembled from its name, '(' , the parameters as
      ParamsAt lays them out, the rest and '}'. */
  lemma FnAtFrom(s: string, i: nat, f: string, ps: seq<string>, t: string, x: nat, k: nat, m: nat)
    requires x == i + |f| + 1 && x <= |s| && s[i..i + |f|] == f && s[i + |f|] == '('
    requires ParamsAt(s, x, ps) && ParamsEnd(x, ps) == k && m == k + 1 + |t| && m < |s|
    requires s[k + 1..m] == t && s[m] == '}'
    ensures FnAt(s, i, f, ps, t) && FnEnd(i, f, ps, t) == m
  {
  }

  /** Where the parts of "${fn:name(params)rest}" lie in the text, from
      where the pieces lie. */
  lemma FnLayout(s: string, a: string, f: string, ps: seq<string>, t: string, b: string, i: nat, k: nat, m: nat)
    requires |ps| >= 1 && ParamTexts(ps)
    requires i == |a| + 5 && k == i + |f| + 1 + |Join(ps, ",")| && m == k + 1 + |t|
    requires m < |s| && s[..|a|] == a && s[|a|..i] == "${fn:" && s[i..i + |f|] == f
    requires s[i + |f|..i + |f| + 1] == "(" && s[i + |f| + 1..k] == Join(ps, ",") && s[k..k + 1] == ")"
    requires s[k + 1..m] == t && s[m..m + 1] == "}" && s[m + 1..] == b
    ensures |a| + 5 <= |s| && s[0..|a|] == a && s[|a|] == '$' && s[|a| + 1] == '{'
    ensures s[|a| + 2] == 'f' && s[|a| + 3] == 'n' && s[|a| + 4] == ':'
    ensures FnAt(s, i, f, ps, t) && s[FnEnd(i, f, ps, t) + 1..] == b
  {
    FnOpening(s, |a|);
    CharAt(s, i + |f|, '(');
    CharAt(s, k, ')');
    CharAt(s, m, '}');
    assert s[0..|a|] == s[..|a|];
    JoinedAt(s, i + |f| + 1, ps, k);
    FnAtFrom(s, i, f, ps, t, i + |f| + 1, k, m);
  }

  /** "${fn:name(params)rest}" between '$'-free texts parses to the text
      before, the function instruction with one node per parameter and the
      rest, and the text after. */
  lemma FnParsed(s: string, a: string, f: string, ps: seq<string>, t: string, b: string)
    requires s == a + "${fn:" + f + "(" + Join(ps, ",") + ")" + t + "}" + b
    requires '$' !in a && '$' !in b
    requires Bare(f, {'(', '}'}) && |ps| >= 1 && ParamTexts(ps) && Bare(t, {'}'})
    ensures Doc(Start(s), None, false).Ok?
    ensures Doc(Start(s), None, false).value.0 == [Str(a), FnInstr(f, ParamNodes(ps), Container([Str(t)])), Str(b)]
  {
    var i, k, m := FnSlices(s, a, f, Join(ps, ","), t, b);
    FnParsedAt(s, a, f, ps, t, b, i, k, m);
  }

  /** FnParsed, from where the pieces lie in the text. */
  lemma FnParsedAt(s: string, a: string, f: string, ps: seq<string>, t: string, b: string, i: nat, k: nat, m: nat)
    requires '$' !in a && '$' !in b
    requires Bare(f, {'(', '}'}) && |ps| >= 1 && ParamTexts(ps) && Bare(t, {'}'})
    requires i == |a| + 5 && k == i + |f| + 1 + |Join(ps, ",")| && m == k + 1 + |t|
    requires m < |s| && s[..|a|] == a && s[|a|..i] == "${fn:" && s[i..i + |f|] == f
    requires s[i + |f|..i + |f| + 1] == "(" && s[i + |f| + 1..k] == Join(ps, ",") && s[k..k + 1] == ")"
    requires s[k + 1..m] == t && s[m..m + 1] == "}" && s[m + 1..] == b
    ensures Doc(Start(s), None, false).Ok?
    ensures Doc(Start(s), None, false).value.0 == [Str(a), FnInstr(f, ParamNodes(ps), Container([Str(t)])), Str(b)]
  {
    FnLayout(s, a, f, ps, t, b, i, k, m);
    var st := PrefixRead(s, a);
    DocLoopFn(st, s, |a|, f, ps, t, b, a);
  }

  /** '$'-free text at the start of the input is collected and the loop
      goes on after it. */
  lemma PrefixRead(s: string, a: string) returns (st: St)
    requires |a| <= |s| && s[0..|a|] == a && '$' !in a
    ensures Good(Start(s)) && At(st, s, |a|)
    ensures Doc(Start(s), None, false) == DocLoop(st, None, false, 0, a)
  {
    DocLoopPlainPrefix(Start(s), s, 0, |a|, "");
    assert "" + a == a;
    st := PlainSt(Start(s), s, 0, |a|);
  }

  /** A parsed piece of bare text evaluates to itself. */
  lemma EvalText(x: string, xml: Option<Xml>, env: map<string, string>)
    ensures Eval(Container([Str(x)]), xml, env) == Ok(x)
  {
    assert [Str(x)][1..] == [];
    assert EvalAll([Str(x)], xml, env) == Ok(x + "");
    assert x + "" == x;
  }

  /** At the text level, "${fn:ifeq(q,v)rest}" gives the rest exactly when
      the stripped value of q equals v, and "${fn:ifneq(q,v)rest}" exactly
      when it does not. */
  lemma IfeqSubstituted(a: string, q: string, v: string, t: string, b: string, xml: Option<Xml>, env: map<string, string>)
    requires '$' !in a && '$' !in b && ParamText(q) && ParamText(v) && Bare(t, {'}'})
    requires QueryStringValue(xml, env, Strip(q)).Ok?
    ensures var kv := QueryStringValue(xml, env, Strip(q)).value;
      && Subst(a + "${fn:ifeq(" + q + "," + v + ")" + t + "}" + b, xml, env) == Ok(a + (if StrippedIs(kv, v) then t else "") + b)
      && Subst(a + "${fn:ifneq(" + q + "," + v + ")" + t + "}" + b, xml, env) == Ok(a + (if StrippedIs(kv, v) then "" else t) + b)
  {
    var s1 := a + "${fn:ifeq(" + q + "," + v + ")" + t + "}" + b;
    var s2 := a + "${fn:ifneq(" + q + "," + v + ")" + t + "}" + b;
    IfeqSpelled(a, q, v, t, b);
    IfeqText(s1, a, "ifeq", q, v, t, b, xml, env);
    IfeqText(s2, a, "ifneq", q, v, t, b, xml, env);
  }

  lemma IfeqText(s: string, a: string, f: string, q: string, v: string, t: string, b: string,
                 xml: Option<Xml>, env: map<string, string>)
    requires f == "ifeq" || f == "ifneq"
    requires s == a + "${fn:" + f + "(" + Join([q, v], ",") + ")" + t + "}" + b
    requires '$' !in a && '$' !in b && ParamText(q) && ParamText(v) && Bare(t, {'}'})
    requires QueryStringValue(xml, env, Strip(q)).Ok?
    ensures var kv := QueryStringValue(xml, env, Strip(q)).value;
      Subst(s, xml, env) == Ok(a + (if StrippedIs(kv, v) == (f == "ifeq") then t else "") + b)
  {
    var ps := [q, v];
    assert ParamTexts(ps);
    NameBare(f);
    FnParsed(s, a, f, ps, t, b);
    assert ParamNodes(ps) == [Container([Str(q)]), Container([Str(v)])];
    IfeqNode(f, q, v, t, xml, env);
    ParsedSubst(s, a, FnInstr(f, ParamNodes(ps), Container([Str(t)])), b, xml, env);
  }

  /** The function instruction of a parsed ifeq or ifneq. */
  lemma IfeqNode(f: string, q: string, v: string, t: string, xml: Option<Xml>, env: map<string, string>)
    requires f == "ifeq" || f == "ifneq"
    requires QueryStringValue(xml, env, Strip(q)).Ok?
    ensures var kv := QueryStringValue(xml, env, Strip(q)).value;
      Eval(FnInstr(f, [Container([Str(q)]), Container([Str(v)])], Container([Str(t)])), xml, env) ==
      Ok(if StrippedIs(kv, v) == (f == "ifeq") then t else "")
  {
    EvalText(q, xml, env);
    EvalText(v, xml, env);
    EvalText(t, xml, env);
    var qn, vn, tn := Container([Str(q)]), Container([Str(v)]), Container([Str(t)]);
    if f == "ifeq" {
      Ifeq(qn, vn, tn, xml, env, q, v, t);
      assert FnInstr(f, [qn, vn], tn) == FnInstr("ifeq", [qn, vn], tn);
    } else {
      Ifneq(qn, vn, tn, xml, env, q, v, t);
      assert FnInstr(f, [qn, vn], tn) == FnInstr("ifneq", [qn, vn], tn);
    }
  }

  /** At the text level, "${fn:echo(p1,...,pn)rest}" gives the parameters
      one after another and nothing of the rest. */
  lemma EchoSubstituted(a: string, ps: seq<string>, t: string, b: string, xml: Option<Xml>, env: map<string, string>)
    requires '$' !in a && '$' !in b && |ps| >= 1 && ParamTexts(ps) && Bare(t, {'}'})
    ensures Subst(a + "${fn:echo(" + Join(ps, ",") + ")" + t + "}" + b, xml, env) == Ok(a + Concat(ps) + b)
  {
    var s := a + "${fn:echo(" + Join(ps, ",") + ")" + t + "}" + b;
    EchoSpelled(a, Join(ps, ","), t, b);
    NamedFnParsed(s, a, "echo", ps, t, b);
    EchoNode(ps, t, xml, env);
    ParsedSubst(s, a, FnInstr("echo", ParamNodes(ps), Container([Str(t)])), b, xml, env);
  }

  /** "${fn:echo(...)rest}" and "${fn:val(...)rest}" parse as FnParsed
      says. */
  lemma NamedFnParsed(s: string, a: string, f: string, ps: seq<string>, t: string, b: string)
    requires f == "echo" || f == "val"
    requires s == a + "${fn:" + f + "(" + Join(ps, ",") + ")" + t + "}" + b
    requires '$' !in a && '$' !in b && |ps| >= 1 && ParamTexts(ps) && Bare(t, {'}'})
    ensures Doc(Start(s), None, false).Ok?
    ensures Doc(Start(s), None, false).value.0 == [Str(a), FnInstr(f, ParamNodes(ps), Container([Str(t)])), Str(b)]
  {
    NameBare(f);
    FnParsed(s, a, f, ps, t, b);
  }

  /** The function instruction of a parsed echo. */
  lemma EchoNode(ps: seq<string>, t: string, xml: Option<Xml>, env: map<string, string>)
    ensures Eval(FnInstr("echo", ParamNodes(ps), Container([Str(t)])), xml, env) == Ok(Concat(ps))
  {
    forall k | 0 <= k < |ps| ensures Eval(ParamNodes(ps)[k], xml, env) == Ok(ps[k]) {
      EvalText(ps[k], xml, env);
    }
    EchoConcatenates(ParamNodes(ps), Container([Str(t)]), xml, env, ps);
  }

  /** At the text level, "${fn:val(k)rest}" gives the value of the
      stripped key, as "${k}" does. */
  lemma FnValSubstituted(a: string, k: string, t: string, b: string, xml: Option<Xml>, env: map<string, string>)
    requires '$' !in a && '$' !in b && ParamText(k) && Bare(t, {'}'})
    ensures Lookup(xml, env, Strip(k)).Ok? ==>
      Subst(a + "${fn:val(" + k + ")" + t + "}" + b, xml, env) == Ok(a + Lookup(xml, env, Strip(k)).value + b)
    ensures Lookup(xml, env, Strip(k)).Err? ==>
      Subst(a + "${fn:val(" + k + ")" + t + "}" + b, xml, env) == Err(Lookup(xml, env, Strip(k)).error)
  {
    ValSpelled(a, k, t, b);
    FnValText(a + "${fn:val(" + k + ")" + t + "}" + b, a, k, t, b, xml, env);
  }

  lemma FnValText(s: string, a: string, k: string, t: string, b: string, xml: Option<Xml>, env: map<string, string>)
    requires s == a + "${fn:" + "val" + "(" + Join([k], ",") + ")" + t + "}" + b
    requires '$' !in a && '$' !in b && ParamText(k) && Bare(t, {'}'})
    ensures Lookup(xml, env, Strip(k)).Ok? ==> Subst(s, xml, env) == Ok(a + Lookup(xml, env, Strip(k)).value + b)
    ensures Lookup(xml, env, Strip(k)).Err? ==> Subst(s, xml, env) == Err(Lookup(xml, env, Strip(k)).error)
  {
    assert ParamTexts([k]);
    NamedFnParsed(s, a, "val", [k], t, b);
    var node := FnInstr("val", ParamNodes([k]), Container([Str(t)]));
    ValNode(k, t, xml, env);
    ParsedSubst(s, a, node, b, xml, env);
  }

  /** The function instruction of a parsed val. */
  lemma ValNode(k: string, t: string, xml: Option<Xml>, env: map<string, string>)
    ensures Eval(FnInstr("val", ParamNodes([k]), Container([Str(t)])), xml, env) == Lookup(xml, env, Strip(k))
  {
    var p := Container([Str(k)]);
    assert ParamNodes([k]) == [p];
    EvalText(k, xml, env);
    FnVal(p, Container([Str(t)]), xml, env, k);
  }

  /** The instruction texts above, written with the function name apart. */
  lemma IfeqSpelled(a: string, q: string, v: string, t: string, b: string)
    ensures a + "${fn:ifeq(" + q + "," + v + ")" + t + "}" + b == a + "${fn:" + "ifeq" + "(" + Join([q, v], ",") + ")" + t + "}" + b
    ensures a + "${fn:ifneq(" + q + "," + v + ")" + t + "}" + b == a + "${fn:" + "ifneq" + "(" + Join([q, v], ",") + ")" + t + "}" + b
  {
    assert [q, v][1..] == [v];
    assert Join([q, v], ",") == q + "," + v;
    assert "${fn:" + "ifeq" + "(" == "${fn:ifeq(";
    assert "${fn:" + "ifneq" + "(" == "${fn:ifneq(";
  }

  lemma EchoSpelled(a: string, j: string, t: string, b: string)
    ensures a + "${fn:echo(" + j + ")" + t + "}" + b == a + "${fn:" + "echo" + "(" + j + ")" + t + "}" + b
  {
    assert "${fn:" + "echo" + "(" == "${fn:echo(";
  }

  lemma ValSpelled(a: string, k: string, t: string, b: string)
    ensures a + "${fn:val(" + k + ")" + t + "}" + b == a + "${fn:" + "val" + "(" + Join([k], ",") + ")" + t + "}" + b
  {
    assert "${fn:" + "val" + "(" == "${fn:val(";
  }

  /** A function name of lower-case letters is bare text. */
  lemma NameBare(f: string)
    requires f == "echo" || f == "val" || f == "ifeq" || f == "ifneq"
    ensures Bare(f, {'(', '}'})
  {
    LowerBare(f, {'(', '}'});
  }

  lemma LowerBare(f: string, end: set<char>)
    requires f in {"echo", "val", "ifeq", "ifneq"} && forall c | c in end :: !IsLower(c)
    ensures Bare(f, end)
  {
    forall i | 0 <= i < |f| ensures IsLower(f[i]) {
    }
  }
}
