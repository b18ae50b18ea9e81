/** Domain names of nested sub-builds, as muddled/utils.py handles them:
    'a(b(c))' names domain c inside b inside a. */
module DomainNames {
  import opened Wrappers
  import opened Text

  /** utils.split_domain: None gives [''], a name without '(' is one part,
      sibling sub-domains ')(' and unbalanced closing parentheses are refused. */
  function SplitDomain(d: Option<string>): (r: Result<seq<string>>)
    ensures r.Ok? ==> |r.value| >= 1
  {
    if d.None? then Ok([""])
    else if '(' !in d.value then Ok([d.value])
    else if HasSiblings(d.value) then Err(GiveUp("Domain name has 'sibling' sub-domains"))
    else Unnest(Split(d.value, '('))
  }

  /** The pieces between the '(' of a domain name: the last one must end in
      one ')' per '(' and loses them. */
  function Unnest(parts: seq<string>): (r: Result<seq<string>>)
    requires |parts| >= 1
    ensures r.Ok? ==> |r.value| == |parts|
  {
    var closing := |parts| - 1;
    var last := parts[closing];
    if !EndsWith(last, Repeat(')', closing)) then
      Err(GiveUp("Domain name has mis-matched parentheses"))
    else
      Ok(parts[..closing] + [last[..|last| - closing]])
  }

  /** The text contains ')(' */
  predicate HasSiblings(s: string) {
    exists i | 0 <= i < |s| - 1 :: SiblingsAt(s, i)
  }

  /** ')(' starts at index i. */
  predicate SiblingsAt(s: string, i: int)
    requires 0 <= i < |s| - 1
  {
    s[i] == ')' && s[i + 1] == '('
  }

  /** utils.join_domain: ['a', 'b', 'c'] becomes 'a(b(c))'. The source
      indexes the first part, so it needs at least one. */
  function JoinDomain(parts: seq<string>): string
    requires |parts| >= 1
  {
    if |parts| == 1 then parts[0] else parts[0] + "(" + JoinDomain(parts[1..]) + ")"
  }

  /** A part that a label could carry: no parentheses and no '~'. */
  predicate PlainPart(p: string) { '(' !in p && ')' !in p && '~' !in p }

  lemma {:induction false} JoinDomainFlat(parts: seq<string>)
    requires |parts| >= 1
    ensures JoinDomain(parts) == Join(parts, "(") + Repeat(')', |parts| - 1)
    decreases |parts|
  {
    if |parts| > 1 {
      JoinDomainFlat(parts[1..]);
      assert Repeat(')', |parts| - 1) == Repeat(')', |parts| - 2) + ")" by {
        RepeatSnoc(')', |parts| - 2);
      }
    }
  }

  lemma {:induction false} RepeatSnoc(c: char, n: nat)
    ensures Repeat(c, n + 1) == Repeat(c, n) + [c]
  {
  }

  /** Joining with the last part extended extends the joined text. */
  lemma {:induction false} JoinExtendLast(parts: seq<string>, sep: string, tail: string)
    requires |parts| >= 1
    ensures Join(parts[..|parts| - 1] + [parts[|parts| - 1] + tail], sep) == Join(parts, sep) + tail
    decreases |parts|
  {
    var q := parts[..|parts| - 1] + [parts[|parts| - 1] + tail];
    if |parts| > 1 {
      JoinExtendLast(parts[1..], sep, tail);
      assert q[1..] == parts[1..][..|parts| - 2] + [parts[1..][|parts| - 2] + tail];
    }
  }

  /** join_domain undoes split_domain on every name split_domain accepts. */
  lemma JoinSplitDomain(d: string)
    requires SplitDomain(Some(d)).Ok?
    ensures JoinDomain(SplitDomain(Some(d)).value) == d
  {
    if '(' in d {
      var parts := Split(d, '(');
      var n := |parts| - 1;
      var last := parts[n];
      var ps := SplitDomain(Some(d)).value;
      assert last == last[..|last| - n] + Repeat(')', n);
      assert ps == parts[..n] + [last[..|last| - n]];
      JoinDomainFlat(ps);
      assert parts == ps[..n] + [ps[n] + Repeat(')', n)];
      JoinExtendLast(ps, "(", Repeat(')', n));
      JoinSplit(d, '(');
    }
  }

  /** split_domain undoes join_domain on parts that carry no parentheses. */
  lemma SplitJoinDomain(ps: seq<string>)
    requires |ps| >= 1
    requires forall i | 0 <= i < |ps| :: PlainPart(ps[i])
    ensures SplitDomain(Some(JoinDomain(ps))) == Ok(ps)
  {
    JoinDomainFlat(ps);
    if |ps| == 1 {
      assert JoinDomain(ps) == ps[0] && ps == [ps[0]];
    } else {
      SplitFlat(ps);
    }
  }

  lemma SplitFlat(ps: seq<string>)
    requires |ps| >= 2
    requires forall i | 0 <= i < |ps| :: PlainPart(ps[i])
    ensures SplitDomain(Some(Join(ps, "(") + Repeat(')', |ps| - 1))) == Ok(ps)
  {
    var n := |ps| - 1;
    var d := Join(ps, "(") + Repeat(')', n);
    NoSiblingsInJoin(ps);
    SplitOfJoin(ps);
    var last := ps[n] + Repeat(')', n);
    assert '(' in d by { JoinFirst(ps); }
    assert EndsWith(last, Repeat(')', n)) by { assert last[|last| - n..] == Repeat(')', n); }
    assert last[..|last| - n] == ps[n];
    SplitDomainOfParts(d, ps[..n] + [last], ps);
  }

  lemma JoinFirst(ps: seq<string>)
    requires |ps| >= 2
    ensures |Join(ps, "(")| > |ps[0]| && Join(ps, "(")[|ps[0]|] == '('
  {
  }

  lemma SplitDomainOfParts(d: string, q: seq<string>, ps: seq<string>)
    requires '(' in d && !HasSiblings(d) && Split(d, '(') == q && |q| == |ps| >= 2
    requires EndsWith(q[|q| - 1], Repeat(')', |q| - 1))
    requires q[|q| - 1][..|q[|q| - 1]| - (|q| - 1)] == ps[|ps| - 1]
    requires q[..|q| - 1] == ps[..|ps| - 1]
    ensures SplitDomain(Some(d)) == Ok(ps)
  {
    UnnestOf(q, ps);
  }

  lemma UnnestOf(q: seq<string>, ps: seq<string>)
    requires |q| == |ps| >= 2
    requires EndsWith(q[|q| - 1], Repeat(')', |q| - 1))
    requires q[|q| - 1][..|q[|q| - 1]| - (|q| - 1)] == ps[|ps| - 1]
    requires q[..|q| - 1] == ps[..|ps| - 1]
    ensures Unnest(q) == Ok(ps)
  {
    assert ps == ps[..|ps| - 1] + [ps[|ps| - 1]];
  }

  lemma NoSiblingsInJoin(ps: seq<string>)
    requires |ps| >= 2
    requires forall i | 0 <= i < |ps| :: PlainPart(ps[i])
    ensures !HasSiblings(Join(ps, "(") + Repeat(')', |ps| - 1))
  {
    var j := Join(ps, "(");
    var tail := Repeat(')', |ps| - 1);
    var d := j + tail;
    JoinFree(ps, "(", ')');
    forall i | 0 <= i < |d| - 1 ensures !SiblingsAt(d, i) {
      if i >= |j| {
        assert d[i + 1] == tail[i + 1 - |j|];
      } else {
        assert d[i] == j[i];
      }
    }
  }

  lemma SplitOfJoin(ps: seq<string>)
    requires |ps| >= 2
    requires forall i | 0 <= i < |ps| :: PlainPart(ps[i])
    ensures Split(Join(ps, "(") + Repeat(')', |ps| - 1), '(') ==
            ps[..|ps| - 1] + [ps[|ps| - 1] + Repeat(')', |ps| - 1)]
  {
    var n := |ps| - 1;
    var tail := Repeat(')', n);
    var q := ps[..n] + [ps[n] + tail];
    RepeatFree(')', n, '(');
    JoinExtendLast(ps, "(", tail);
    OpenFree(ps, tail);
    SplitJoin(q, '(');
  }

  lemma RepeatFree(c: char, n: nat, d: char)
    requires c != d
    ensures d !in Repeat(c, n)
  {
  }

  lemma OpenFree(ps: seq<string>, tail: string)
    requires |ps| >= 1 && '(' !in tail
    requires forall i | 0 <= i < |ps| :: PlainPart(ps[i])
    ensures NoneContain(ps[..|ps| - 1] + [ps[|ps| - 1] + tail], '(')
  {
    var q := ps[..|ps| - 1] + [ps[|ps| - 1] + tail];
    forall i | 0 <= i < |q| ensures '(' !in q[i] {
      if i < |ps| - 1 {
        assert q[i] == ps[i];
      } else {
        assert q[i] == ps[i] + tail;
      }
    }
  }

  /** The key sort_domains sorts by: the parts joined with '~'. */
  function DomainKey(parts: seq<string>): string { Join(parts, "~") }

  /** utils.sort_domains: normalise each domain (None gives ''), sort the
      '~'-joined part lists as strings, and rebuild each name. */
  function SortDomains(ds: seq<Option<string>>): (r: Result<seq<string>>)
    ensures r.Ok? ==> |r.value| == |ds|
  {
    var keys :- SplitAll(ds);
    Ok(RebuildAll(SortStrings(keys)))
  }

  /** Each sorted key turned back into a domain name. */
  function RebuildAll(keys: seq<string>): (r: seq<string>)
    ensures |r| == |keys|
  {
    MapSeq(keys, (k: string) => JoinDomain(Split(k, '~')))
  }

  function MapSeq<T, U>(s: seq<T>, f: T -> U): (r: seq<U>)
    ensures |r| == |s|
  {
    if s == [] then [] else [f(s[0])] + MapSeq(s[1..], f)
  }

  /** The key of one domain name. */
  function Key(d: Option<string>): string
    requires SplitDomain(d).Ok?
  {
    DomainKey(SplitDomain(d).value)
  }

  /** sort_domains of two distinct names puts the one with the smaller key
      first: this is the comparison Label.__lt__ makes between domains. */
  lemma SortTwoDomains(a: Option<string>, b: Option<string>)
    requires Sortable(a) && Sortable(b) && Normalised(a) != Normalised(b)
    ensures SortDomains([a, b]).Ok?
    ensures SortDomains([a, b]).value[0] ==
      (if LexLess(Key(a), Key(b)) then Normalised(a) else Normalised(b))
  {
    var ka, kb := Key(a), Key(b);
    if ka == kb { KeyInjective(a, b); }
    SplitTwo(a, b);
    SortDomainsOf([a, b], [ka, kb]);
    RebuildFirstOfTwo(ka, kb);
    KeyRoundTrip(a);
    KeyRoundTrip(b);
  }

  lemma SplitTwo(a: Option<string>, b: Option<string>)
    requires SplitDomain(a).Ok? && SplitDomain(b).Ok?
    ensures SplitAll([a, b]) == Ok([Key(a), Key(b)])
  {
    assert [b][1..] == [];
    assert SplitAll([]) == Ok([]);
    assert [Key(b)] + [] == [Key(b)];
    assert SplitAll([b]) == Ok([Key(b)]);
    assert [a, b][1..] == [b] && [a, b][0] == a;
    assert [Key(a)] + [Key(b)] == [Key(a), Key(b)];
  }

  lemma SortDomainsOf(ds: seq<Option<string>>, keys: seq<string>)
    requires SplitAll(ds) == Ok(keys)
    ensures SortDomains(ds) == Ok(RebuildAll(SortStrings(keys)))
  {
  }

  lemma RebuildFirstOfTwo(ka: string, kb: string)
    requires ka != kb
    ensures |RebuildAll(SortStrings([ka, kb]))| == 2
    ensures RebuildAll(SortStrings([ka, kb]))[0] ==
      JoinDomain(Split(if LexLess(ka, kb) then ka else kb, '~'))
  {
    SortTwo(ka, kb);
    var first := if LexLess(ka, kb) then ka else kb;
    assert SortStrings([ka, kb])[0] == first;
  }

  /** The keys of every domain, or the first error. */
  function SplitAll(ds: seq<Option<string>>): (r: Result<seq<string>>)
    ensures r.Ok? ==> |r.value| == |ds|
    ensures r.Ok? ==> forall i | 0 <= i < |ds| ::
      SplitDomain(ds[i]).Ok? && r.value[i] == DomainKey(SplitDomain(ds[i]).value)
    ensures r.Err? ==> exists i | 0 <= i < |ds| :: SplitDomain(ds[i]).Err?
  {
    if ds == [] then Ok([])
    else
      var parts :- SplitDomain(ds[0]);
      var rest :- SplitAll(ds[1..]);
      assert forall i | 1 <= i < |ds| :: ds[i] == ds[1..][i - 1];
      Ok([DomainKey(parts)] + rest)
  }

  /** A domain name that sort_domains returns unchanged: it splits and no part
      contains '~' (true of every label domain, whose characters exclude '~'). */
  predicate Sortable(d: Option<string>) {
    SplitDomain(d).Ok? && forall i | 0 <= i < |SplitDomain(d).value| :: '~' !in SplitDomain(d).value[i]
  }

  function Normalised(d: Option<string>): string { d.GetOr("") }

  /** Rebuilding a domain from its key gives back the (normalised) name. */
  lemma KeyRoundTrip(d: Option<string>)
    requires Sortable(d)
    ensures JoinDomain(Split(DomainKey(SplitDomain(d).value), '~')) == Normalised(d)
  {
    var ps := SplitDomain(d).value;
    SplitJoin(ps, '~');
    if d.Some? { JoinSplitDomain(d.value); }
  }

  /** Keys of distinct sortable domains differ, so the order between any two
      distinct domains is strict. */
  lemma KeyInjective(a: Option<string>, b: Option<string>)
    requires Sortable(a) && Sortable(b)
    requires DomainKey(SplitDomain(a).value) == DomainKey(SplitDomain(b).value)
    ensures Normalised(a) == Normalised(b)
  {
    KeyRoundTrip(a);
    KeyRoundTrip(b);
  }

  function NormalisedAll(ds: seq<Option<string>>): (r: seq<string>)
    ensures |r| == |ds|
  {
    if ds == [] then [] else [Normalised(ds[0])] + NormalisedAll(ds[1..])
  }

  /** sort_domains returns the normalised names, each exactly as often as given,
      ordered by key. */
  lemma SortDomainsPermutes(ds: seq<Option<string>>)
    requires forall i | 0 <= i < |ds| :: Sortable(ds[i])
    ensures SortDomains(ds).Ok?
    ensures multiset(SortDomains(ds).value) == multiset(NormalisedAll(ds))
  {
    var keys := SplitAll(ds).value;
    RebuildKeys(ds);
    MapPermutation(keys, SortStrings(keys), (k: string) => JoinDomain(Split(k, '~')));
  }

  lemma {:induction false} RebuildKeys(ds: seq<Option<string>>)
    requires forall i | 0 <= i < |ds| :: Sortable(ds[i])
    ensures SplitAll(ds).Ok? && RebuildAll(SplitAll(ds).value) == NormalisedAll(ds)
    decreases |ds|
  {
    if ds != [] {
      KeyRoundTrip(ds[0]);
      assert forall i | 0 <= i < |ds| - 1 :: ds[1..][i] == ds[i + 1];
      RebuildKeys(ds[1..]);
    }
  }

  lemma {:induction false} MapConcat<T, U>(a: seq<T>, b: seq<T>, f: T -> U)
    ensures MapSeq(a + b, f) == MapSeq(a, f) + MapSeq(b, f)
    decreases |a|
  {
    if a == [] {
      assert a + b == b;
    } else {
      assert (a + b)[1..] == a[1..] + b;
      MapConcat(a[1..], b, f);
    }
  }

  /** Mapping a function over two permutations of one another gives two
      permutations of one another. */
  lemma {:induction false} MapPermutation<T, U>(a: seq<T>, b: seq<T>, f: T -> U)
    requires multiset(a) == multiset(b)
    ensures multiset(MapSeq(a, f)) == multiset(MapSeq(b, f))
    decreases |a|
  {
    if a != [] {
      var x := a[0];
      var k := IndexOf(b, x, multiset(a));
      var b' := b[..k] + b[k + 1..];
      RemoveAt(a, b, k);
      MapPermutation(a[1..], b', f);
      MapSplitAt(b, k, f);
    }
  }

  lemma IndexOf<T>(b: seq<T>, x: T, m: multiset<T>) returns (k: nat)
    requires m == multiset(b) && x in m
    ensures k < |b| && b[k] == x
  {
    assert x in b;
    k :| 0 <= k < |b| && b[k] == x;
  }

  lemma RemoveAt<T>(a: seq<T>, b: seq<T>, k: nat)
    requires a != [] && k < |b| && b[k] == a[0] && multiset(a) == multiset(b)
    ensures multiset(a[1..]) == multiset(b[..k] + b[k + 1..])
  {
    var rest := b[..k] + b[k + 1..];
    assert b == b[..k] + [b[k]] + b[k + 1..];
    calc {
      multiset(b);
      multiset(b[..k] + [b[k]] + b[k + 1..]);
      multiset(b[..k]) + multiset([b[k]]) + multiset(b[k + 1..]);
      multiset(rest) + multiset{b[k]};
    }
    assert a == [a[0]] + a[1..];
    assert multiset(a) == multiset{a[0]} + multiset(a[1..]);
    assert multiset(a[1..]) == multiset(a) - multiset{a[0]};
    assert multiset(rest) == multiset(b) - multiset{b[k]};
  }

  lemma MapSplitAt<T, U>(b: seq<T>, k: nat, f: T -> U)
    requires k < |b|
    ensures multiset(MapSeq(b, f)) == multiset(MapSeq(b[..k] + b[k + 1..], f)) + multiset{f(b[k])}
  {
    var left, right := MapSeq(b[..k], f), MapSeq(b[k + 1..], f);
    SeqAround(b, k);
    MapConcat(b[..k], [b[k]] + b[k + 1..], f);
    MapConcat([b[k]], b[k + 1..], f);
    MapSingle(b[k], f);
    MapConcat(b[..k], b[k + 1..], f);
    MultisetMiddle(left, f(b[k]), right);
  }

  lemma SeqAround<T>(b: seq<T>, k: nat)
    requires k < |b|
    ensures b == b[..k] + ([b[k]] + b[k + 1..])
  {
  }

  lemma MapSingle<T, U>(x: T, f: T -> U)
    ensures MapSeq([x], f) == [f(x)]
  {
  }

  lemma MultisetMiddle<U>(a: seq<U>, x: U, c: seq<U>)
    ensures multiset(a + ([x] + c)) == multiset(a + c) + multiset{x}
  {
  }

  /** A parent domain's key is a proper prefix of its sub-domains' keys, so
      sort_domains puts the parent first. */
  lemma ParentSortsFirst(parent: seq<string>, more: seq<string>)
    requires |parent| >= 1 && |more| >= 1
    ensures LexLess(DomainKey(parent), DomainKey(parent + more))
  {
    JoinAppend(parent, more, "~");
    PrefixLexLess(DomainKey(parent), "~" + DomainKey(more));
    assert DomainKey(parent) + "~" + DomainKey(more) == DomainKey(parent) + ("~" + DomainKey(more));
  }

  lemma {:induction false} JoinAppend(a: seq<string>, b: seq<string>, sep: string)
    requires |a| >= 1 && |b| >= 1
    ensures Join(a + b, sep) == Join(a, sep) + sep + Join(b, sep)
    decreases |a|
  {
    if |a| > 1 {
      JoinAppend(a[1..], b, sep);
      assert (a + b)[1..] == a[1..] + b;
    } else {
      assert (a + b)[1..] == b;
    }
  }

  /** utils.domain_subpath: 'a(b)' gives 'domains/a/domains/b'; None gives ''. */
  function DomainSubpath(d: Option<string>): (r: Result<string>)
    ensures d.None? ==> r == Ok("")
    ensures d.Some? ==> (r.Ok? <==> SplitDomain(d).Ok?)
  {
    if d.None? then Ok("")
    else
      var parts :- SplitDomain(d);
      Ok(Join(SubpathParts(parts), "/"))
  }

  /** ['a', 'b'] becomes ['domains', 'a', 'domains', 'b']. */
  function SubpathParts(parts: seq<string>): (r: seq<string>)
    ensures |r| == 2 * |parts|
  {
    if parts == [] then [] else ["domains", parts[0]] + SubpathParts(parts[1..])
  }

  /** domain_subpath('a(b)') is 'domains/a/domains/b'. */
  lemma SubpathExample()
    ensures DomainSubpath(Some("a(b)")) == Ok("domains/a/domains/b")
  {
    assert PlainPart("a") && PlainPart("b");
    SubpathOfJoin(["a", "b"]);
    JoinExample();
    SubpathTextExample();
  }

  lemma JoinExample()
    ensures JoinDomain(["a", "b"]) == "a(b)"
  {
    assert ["a", "b"][1..] == ["b"];
  }

  lemma SubpathTextExample()
    ensures Join(SubpathParts(["a", "b"]), "/") == "domains/a/domains/b"
  {
    assert SubpathParts(["a", "b"]) == ["domains", "a", "domains", "b"];
    assert Join(["b"], "/") == "b";
    assert Join(["domains", "b"], "/") == "domains/b";
    assert Join(["a", "domains", "b"], "/") == "a/domains/b";
  }

  /** For nested plain parts the sub-path alternates 'domains' and the parts. */
  lemma SubpathOfJoin(ps: seq<string>)
    requires |ps| >= 1
    requires forall i | 0 <= i < |ps| :: PlainPart(ps[i])
    ensures DomainSubpath(Some(JoinDomain(ps))) == Ok(Join(SubpathParts(ps), "/"))
  {
    SplitJoinDomain(ps);
  }
}
