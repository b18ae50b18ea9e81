/** The suffix index of muddled/docreport.py (HashThing): every dotted
    name is filed under itself and under each of its shorter dotted
    suffixes, so that `c` finds `a.b.c`. The documented objects are
    reduced to their class name and an identity. */
module DocReport {
  import opened Wrappers
  import opened Text
  import opened Dicts

  /** A documented object: the name of its class and its identity. */
  datatype Thing = Thing(kind: string, id: nat)

  /** One filed entry: the full dotted name and the object. */
  type Entry = (string, Thing)

  // ---------------------------------------------------------------------
  // Filing under suffixes

  /** The dotted suffixes of a split name, longest first: '.'.join(words)
      for words, words[1:], ... */
  function Suffixes(words: seq<string>): (r: seq<string>)
    ensures |r| == |words|
  {
    if words == [] then [] else [Join(words, ".")] + Suffixes(words[1..])
  }

  /** The index with `e` added under `key`. */
  function File(m: map<string, set<Entry>>, key: string, e: Entry): map<string, set<Entry>> {
    m[key := (if key in m then m[key] else {}) + {e}]
  }

  /** The index with `e` added under every key, in turn. */
  function Filed(m: map<string, set<Entry>>, keys: seq<string>, e: Entry): map<string, set<Entry>>
    decreases |keys|
  {
    if keys == [] then m else Filed(File(m, keys[0], e), keys[1..], e)
  }

  /** Filing adds `e` under exactly the given keys and changes nothing
      else. */
  lemma {:induction false} FiledSpec(m: map<string, set<Entry>>, keys: seq<string>, e: Entry)
    ensures Filed(m, keys, e).Keys == m.Keys + (set k | k in keys)
    ensures forall k | k in Filed(m, keys, e) ::
      Filed(m, keys, e)[k] == (if k in m then m[k] else {}) + (if k in keys then {e} else {})
    decreases |keys|
  {
    if keys != [] {
      FiledSpec(File(m, keys[0], e), keys[1..], e);
      assert forall k :: k in keys <==> k == keys[0] || k in keys[1..];
    }
  }

  /** Each dotted suffix of the words ends the whole dotted name. */
  lemma {:induction false} SuffixesEnd(words: seq<string>)
    ensures forall k | k in Suffixes(words) :: EndsWith(Join(words, "."), k)
    decreases |words|
  {
    if words != [] {
      SuffixesEnd(words[1..]);
      var whole := Join(words, ".");
      if |words| > 1 {
        var rest := Join(words[1..], ".");
        JoinHead(words, ".");
        assert whole == (words[0] + ".") + rest;
        forall k | k in Suffixes(words[1..])
          ensures EndsWith(whole, k)
        {
          assert EndsWith(rest, k);
          assert rest[|rest| - |k|..] == k;
          assert whole[|whole| - |k|..] == rest[|rest| - |k|..];
        }
      }
      assert whole[|whole| - |whole|..] == whole;
    }
  }

  /** The keys of a name: the name itself first, then its suffixes, each
      ending the name. */
  lemma NameKeys(name: string)
    ensures Suffixes(Split(name, '.')) != [] && Suffixes(Split(name, '.'))[0] == name
    ensures forall k | k in Suffixes(Split(name, '.')) :: EndsWith(name, k)
  {
    JoinSplit(name, '.');
    SuffixesEnd(Split(name, '.'));
  }

  // ---------------------------------------------------------------------
  // Layout helpers

  /** '%-*s' % (n, s): s followed by spaces up to width n. */
  function Padded(s: string, n: int): (r: string)
    ensures |r| == if |s| < n then n else |s|
    ensures StartsWith(r, s)
  {
    if |s| < n then s + Repeat(' ', n - |s|) else s
  }

  /** How dump names an object's class. */
  function What(t: Thing): string {
    if t.kind == "type" then "class" else t.kind
  }

  /** One part of a dump line. */
  function Part(e: Entry): string {
    "<" + What(e.1) + " " + e.0 + ">"
  }

  function Parts(es: seq<Entry>): (r: seq<string>)
    ensures |r| == |es|
  {
    if es == [] then [] else [Part(es[0])] + Parts(es[1..])
  }

  /** One line of dump: the key padded to `width`, then its parts. */
  function DumpLine(key: string, width: nat, es: seq<Entry>): string {
    Padded(key, width) + " : " + Join(Parts(es), ", ")
  }

  /** str.capitalize(): the first letter upper-case, the rest lower-case. */
  function Capitalized(s: string): (r: string)
    ensures |r| == |s|
  {
    if s == [] then [] else [if IsLower(s[0]) then (s[0] as int - 32) as char else s[0]] + LowerString(s[1..])
  }

  /** How duplicates names an object's class. */
  function Title(t: Thing): string {
    var w := Capitalized(t.kind);
    if w == "Type" then "Class" else w
  }

  /** One entry line of the duplicates report. */
  function EntryLine(e: Entry): string {
    "  " + Padded(Title(e.1), 15) + " " + e.0
  }

  const DuplicatesHeader := "The following have more than one possible definition:"

  /** The lines for one duplicated key: the key, then its entries. */
  function Group(key: string, es: seq<Entry>): (r: seq<string>)
    ensures |r| == |es| + 1 && r[0] == key + ":"
  {
    [key + ":"] + seq(|es|, i requires 0 <= i < |es| => EntryLine(es[i]))
  }

  /** The duplicates report: the header, then one group per key. */
  function Report(keys: seq<string>, orders: seq<seq<Entry>>): (r: seq<string>)
    requires |orders| == |keys|
    ensures |r| >= 1 && r[0] == DuplicatesHeader
  {
    if keys == [] then [DuplicatesHeader]
    else Report(keys[..|keys| - 1], orders[..|keys| - 1]) + Group(keys[|keys| - 1], orders[|keys| - 1])
  }

  /** `es` lists the entries of `s`, each once. */
  predicate Listing(es: seq<Entry>, s: set<Entry>) {
    Distinct(es) && Elements(es) == s
  }

  /** Entries in order of their names. */
  predicate NameSorted(es: seq<Entry>) {
    forall i, j | 0 <= i < j < |es| :: LexLeq(es[i].0, es[j].0)
  }

  /** A finite set of entries has one whose name is least. */
  lemma {:induction false} LeastNameExists(s: set<Entry>)
    requires s != {}
    ensures exists e | e in s :: forall x | x in s :: LexLeq(e.0, x.0)
    decreases |s|
  {
    var x :| x in s;
    if s - {x} == {} {
      assert s == {x};
      assert forall y | y in s :: LexLeq(x.0, y.0);
    } else {
      LeastNameExists(s - {x});
      var m :| m in s - {x} && forall y | y in s - {x} :: LexLeq(m.0, y.0);
      if LexLeq(m.0, x.0) {
        assert forall y | y in s :: LexLeq(m.0, y.0);
      } else {
        LexLessTotal(m.0, x.0);
        forall y | y in s ensures LexLeq(x.0, y.0) {
          if y != x && x.0 != y.0 && m.0 != y.0 { LexLessTransitive(x.0, m.0, y.0); }
        }
      }
    }
  }

  /** sorted() of a key's entries: by name (entries with the same name
      come in an order the model does not fix). */
  method SortedByName(s: set<Entry>) returns (r: seq<Entry>)
    ensures NameSorted(r) && Listing(r, s)
  {
    r := [];
    var todo := s;
    while todo != {}
      invariant NameSorted(r) && Distinct(r)
      invariant Elements(r) !! todo && Elements(r) + todo == s
      invariant forall i, y | 0 <= i < |r| && y in todo :: LexLeq(r[i].0, y.0)
      decreases |todo|
    {
      LeastNameExists(todo);
      var e :| e in todo && forall x | x in todo :: LexLeq(e.0, x.0);
      AppendDistinct(r, e);
      PickLeast(r, todo, e);
      r := r + [e];
      todo := todo - {e};
    }
  }

  /** Appending the least remaining entry keeps the order. */
  lemma PickLeast(r: seq<Entry>, todo: set<Entry>, e: Entry)
    requires NameSorted(r) && e in todo
    requires forall i, y | 0 <= i < |r| && y in todo :: LexLeq(r[i].0, y.0)
    requires forall x | x in todo :: LexLeq(e.0, x.0)
    ensures NameSorted(r + [e])
    ensures forall i, y | 0 <= i < |r + [e]| && y in todo - {e} :: LexLeq((r + [e])[i].0, y.0)
  {
    var r' := r + [e];
    forall i, j | 0 <= i < j < |r'| ensures LexLeq(r'[i].0, r'[j].0) {
      if j < |r| { assert r'[i] == r[i] && r'[j] == r[j]; } else { assert r'[i] == r[i]; }
    }
    forall i, y | 0 <= i < |r'| && y in todo - {e} ensures LexLeq(r'[i].0, y.0) {
      if i < |r| { assert r'[i] == r[i]; }
    }
  }

  /** Two spaces in front of different names give different lines. */
  lemma IndentInjective(a: string, b: string)
    requires "  " + a == "  " + b
    ensures a == b
  {
    assert ("  " + a)[2..] == a;
    assert ("  " + b)[2..] == b;
  }

  // ---------------------------------------------------------------------
  // The index

  class HashThing {
    /** hash: every key and the entries filed under it. */
    var index: map<string, set<Entry>>
    var fullNames: set<string>

    /** Every key holds at least one entry, and each entry's name is one
        of the full names and ends with the key. */
    predicate Valid()
      reads this
    {
      forall k | k in index :: index[k] != {} && forall e | e in index[k] :: e.0 in fullNames && EndsWith(e.0, k)
    }

    constructor ()
      ensures index == map[] && fullNames == {}
      ensures Valid()
    {
      index := map[];
      fullNames := {};
    }

    /** add(name, value): the full name is recorded, and (name, value) is
        filed under the name and every dotted suffix of it. */
    method Add(name: string, value: Thing)
      requires Valid()
      modifies this
      ensures fullNames == old(fullNames) + {name}
      ensures index == Filed(old(index), Suffixes(Split(name, '.')), (name, value))
      ensures Valid()
    {
      fullNames := fullNames + {name};
      var words := Split(name, '.');
      while words != []
        invariant fullNames == old(fullNames) + {name}
        invariant Filed(index, Suffixes(words), (name, value)) == Filed(old(index), Suffixes(Split(name, '.')), (name, value))
        decreases |words|
      {
        var thing := Join(words, ".");
        ghost var before := index;
        if thing in index {
          index := index[thing := index[thing] + {(name, value)}];
        } else {
          index := index[thing := {(name, value)}];
          assert {(name, value)} == {} + {(name, value)};
        }
        assert index == File(before, thing, (name, value));
        words := words[1..];
      }
      AddKeepsValid(old(index), old(fullNames), name, value);
    }

    /** get(name): the entries under a key; an unknown key is Python's
        KeyError. */
    function Get(name: string): (r: Result<set<Entry>>)
      reads this
      ensures r.Ok? <==> name in index
      ensures r.Ok? ==> r.value == index[name]
      ensures r.Err? ==> r.error.Crash?
    {
      if name in index then Ok(index[name]) else Err(Crash("KeyError: " + name))
    }

    /** dump(): one line per key, in sorted key order, the key padded to
        the longest key and followed by its entries in set order. */
    method Dump() returns (lines: seq<string>, ghost keys: seq<string>, ghost orders: seq<seq<Entry>>)
      ensures Sorted(keys) && Distinct(keys) && Elements(keys) == index.Keys
      ensures |lines| == |keys| == |orders| == |index|
      ensures forall i | 0 <= i < |keys| :: Listing(orders[i], index[keys[i]])
      ensures forall i | 0 <= i < |keys| ::
        lines[i] == DumpLine(keys[i], Longest(keys), orders[i])
    {
      var sorted := SortedNames(index.Keys);
      assert |index.Keys| == |index|;
      keys := sorted;
      var maxlen := LongestOf(sorted);
      lines, orders := LinesFor(sorted, maxlen);
    }

    /** The lines of dump for the given keys. */
    method LinesFor(keys: seq<string>, maxlen: nat) returns (lines: seq<string>, ghost orders: seq<seq<Entry>>)
      requires forall i | 0 <= i < |keys| :: keys[i] in index
      ensures |lines| == |keys| == |orders|
      ensures forall i | 0 <= i < |keys| :: Listing(orders[i], index[keys[i]])
      ensures forall i | 0 <= i < |keys| :: lines[i] == DumpLine(keys[i], maxlen, orders[i])
    {
      lines := [];
      orders := [];
      var i := 0;
      while i < |keys|
        invariant 0 <= i <= |keys| && |lines| == i && |orders| == i
        invariant forall j | 0 <= j < i :: Listing(orders[j], index[keys[j]])
        invariant forall j | 0 <= j < i :: lines[j] == DumpLine(keys[j], maxlen, orders[j])
      {
        var es := ListOf(index[keys[i]]);
        assert Listing(es, index[keys[i]]);
        lines := lines + [DumpLine(keys[i], maxlen, es)];
        orders := orders + [es];
        i := i + 1;
      }
    }

    /** contains(word): a header, then the full names holding `word`, each
        indented by two spaces, in sorted order. */
    method Contains(word: string) returns (r: seq<string>)
      ensures |r| >= 1 && r[0] == "The following names contain \"" + word + "\":"
      ensures Sorted(r[1..]) && Distinct(r[1..])
      ensures Elements(r[1..]) == set n | n in fullNames && Occurs(word, n) :: "  " + n
    {
      var names := ListOf(fullNames);
      var result: seq<string> := [];
      var i := 0;
      while i < |names|
        invariant 0 <= i <= |names|
        invariant Distinct(result)
        invariant Elements(result) == set n | n in names[..i] && Occurs(word, n) :: "  " + n
      {
        assert names[..i + 1] == names[..i] + [names[i]];
        if Occurs(word, names[i]) {
          forall n | n in names[..i]
            ensures "  " + n != "  " + names[i]
          {
            if "  " + n == "  " + names[i] { IndentInjective(n, names[i]); }
          }
          assert "  " + names[i] !in Elements(result);
          assert "  " + names[i] !in result;
          AppendDistinct(result, "  " + names[i]);
          result := result + ["  " + names[i]];
        }
        i := i + 1;
      }
      assert names[..i] == names;
      var sorted := SortStrings(result);
      PermutationKeepsDistinct(result, sorted);
      r := ["The following names contain \"" + word + "\":"] + sorted;
      assert r[1..] == sorted;
    }

    /** duplicates(): a header, then each key with more than one entry, in
        sorted key order, followed by its entries sorted by name. */
    method Duplicates() returns (lines: seq<string>, ghost keys: seq<string>, ghost orders: seq<seq<Entry>>)
      ensures Sorted(keys) && Distinct(keys) && Elements(keys) == set k | k in index && |index[k]| > 1
      ensures forall i | 0 <= i < |keys| :: keys[i] in index
      ensures |orders| == |keys|
      ensures forall i | 0 <= i < |keys| :: NameSorted(orders[i]) && Listing(orders[i], index[keys[i]])
      ensures lines == Report(keys, orders)
    {
      var all := SortedNames(index.Keys);
      lines, keys, orders := GroupsOf(all);
      DupsSorted(all, index);
      DupsElements(all, index);
    }

    /** The loop of duplicates over the keys in `all`. */
    method GroupsOf(all: seq<string>) returns (lines: seq<string>, ghost keys: seq<string>, ghost orders: seq<seq<Entry>>)
      requires forall i | 0 <= i < |all| :: all[i] in index
      ensures keys == Dups(all, index) && |orders| == |keys|
      ensures forall i | 0 <= i < |keys| :: NameSorted(orders[i]) && Listing(orders[i], index[keys[i]])
      ensures lines == Report(keys, orders)
    {
      lines := [DuplicatesHeader];
      keys := [];
      orders := [];
      var i := 0;
      while i < |all|
        invariant 0 <= i <= |all| && |orders| == |keys|
        invariant keys == Dups(all[..i], index)
        invariant forall j | 0 <= j < |keys| :: NameSorted(orders[j]) && Listing(orders[j], index[keys[j]])
        invariant lines == Report(keys, orders)
      {
        var key := all[i];
        assert all[..i + 1][..i] == all[..i];
        if |index[key]| > 1 {
          var es := SortedByName(index[key]);
          ReportStep(keys, orders, key, es);
          lines := lines + Group(key, es);
          keys := keys + [key];
          orders := orders + [es];
        }
        i := i + 1;
      }
      assert all[..i] == all;
    }
  }

  /** The keys of `all` with more than one entry, in the order of `all`. */
  function Dups(all: seq<string>, index: map<string, set<Entry>>): (r: seq<string>)
    requires forall i | 0 <= i < |all| :: all[i] in index
    ensures forall i | 0 <= i < |r| :: r[i] in index
  {
    if all == [] then []
    else
      var last := all[|all| - 1];
      Dups(all[..|all| - 1], index) + (if |index[last]| > 1 then [last] else [])
  }

  /** Filtering sorted keys keeps them sorted and free of repeats. */
  lemma {:induction false} DupsSorted(all: seq<string>, index: map<string, set<Entry>>)
    requires forall i | 0 <= i < |all| :: all[i] in index
    requires Sorted(all) && Distinct(all)
    ensures Sorted(Dups(all, index)) && Distinct(Dups(all, index))
    ensures forall k | k in Dups(all, index) :: k in all
    decreases |all|
  {
    if all != [] {
      var n := |all| - 1;
      var init := all[..n];
      var last := all[n];
      assert forall i, j | 0 <= i < j < n :: init[i] == all[i] && init[j] == all[j];
      DupsSorted(init, index);
      var r := Dups(init, index);
      assert forall k | k in r :: k in all[..n];
      if |index[last]| > 1 {
        KeysGrow(all, n, r);
      }
    }
  }

  /** Filtering keeps exactly the keys with more than one entry. */
  lemma {:induction false} DupsElements(all: seq<string>, index: map<string, set<Entry>>)
    requires forall i | 0 <= i < |all| :: all[i] in index
    ensures Elements(Dups(all, index)) == set k | k in all && |index[k]| > 1
    decreases |all|
  {
    if all != [] {
      var n := |all| - 1;
      var init := all[..n];
      var last := all[n];
      DupsElements(init, index);
      var r := Dups(init, index);
      var whole := Dups(all, index);
      assert whole == r + (if |index[last]| > 1 then [last] else []);
      assert all == init + [last];
      assert Elements(whole) == Elements(r) + (if |index[last]| > 1 then {last} else {});
      assert (set k | k in all && |index[k]| > 1)
          == (set k | k in init && |index[k]| > 1) + (if |index[last]| > 1 then {last} else {});
    }
  }

  lemma ReportStep(keys: seq<string>, orders: seq<seq<Entry>>, key: string, es: seq<Entry>)
    requires |orders| == |keys|
    ensures Report(keys + [key], orders + [es]) == Report(keys, orders) + Group(key, es)
  {
    assert (keys + [key])[..|keys|] == keys && (orders + [es])[..|keys|] == orders;
  }

  /** Keys taken in sorted order, skipping some, stay sorted and free of
      repeats. */
  lemma KeysGrow(all: seq<string>, i: nat, keys: seq<string>)
    requires i < |all| && Sorted(all) && Distinct(all) && Sorted(keys)
    requires forall j | 0 <= j < |keys| :: keys[j] in all[..i]
    ensures Sorted(keys + [all[i]]) && all[i] !in keys
  {
    forall j | 0 <= j < |keys|
      ensures LexLess(keys[j], all[i])
    {
      var k :| 0 <= k < i && all[k] == keys[j];
      assert LexLeq(all[k], all[i]) && all[k] != all[i];
    }
    forall j | 0 <= j < |keys| ensures keys[j] != all[i] {
      LexLessIrreflexive(all[i]);
    }
  }

  /** The length of the longest key (0 for none). */
  function Longest(keys: seq<string>): (n: nat)
    ensures forall i | 0 <= i < |keys| :: |keys[i]| <= n
    ensures keys == [] || exists i | 0 <= i < |keys| :: |keys[i]| == n
  {
    if keys == [] then 0
    else
      var m := Longest(keys[1..]);
      assert forall i | 1 <= i < |keys| :: keys[i] == keys[1..][i - 1];
      if |keys[0]| > m then |keys[0]|
      else
        if keys[1..] == [] then
          assert |keys[0]| == m;
          m
        else
          var j :| 0 <= j < |keys[1..]| && |keys[1..][j]| == m;
          assert |keys[j + 1]| == m;
          m
  }

  /** The loop of dump that finds the longest key. */
  method LongestOf(keys: seq<string>) returns (maxlen: nat)
    ensures maxlen == Longest(keys)
  {
    maxlen := 0;
    var i := |keys|;
    while i > 0
      invariant 0 <= i <= |keys|
      invariant maxlen == Longest(keys[i..])
    {
      i := i - 1;
      assert keys[i..][1..] == keys[i + 1..];
      if |keys[i]| > maxlen { maxlen := |keys[i]|; }
    }
  }

  /** add keeps the index consistent: every entry is filed only under
      suffixes of its own name, which is recorded. */
  lemma AddKeepsValid(m: map<string, set<Entry>>, names: set<string>, name: string, value: Thing)
    requires forall k | k in m :: m[k] != {} && forall e | e in m[k] :: e.0 in names && EndsWith(e.0, k)
    ensures var m' := Filed(m, Suffixes(Split(name, '.')), (name, value));
      forall k | k in m' :: m'[k] != {} && forall e | e in m'[k] :: e.0 in names + {name} && EndsWith(e.0, k)
  {
    var keys := Suffixes(Split(name, '.'));
    NameKeys(name);
    forall k | k in Filed(m, keys, (name, value))
      ensures var m' := Filed(m, keys, (name, value));
        m'[k] != {} && forall x: Entry | x in m'[k] :: x.0 in names + {name} && EndsWith(x.0, k)
    {
      FiledKey(m, names, keys, (name, value), k);
    }
  }

  /** One key of the index after filing: what was there, plus the new entry
      when the key is one of its own. */
  lemma FiledKey(m: map<string, set<Entry>>, names: set<string>, keys: seq<string>, e: Entry, k: string)
    requires forall k | k in m :: m[k] != {} && forall e | e in m[k] :: e.0 in names && EndsWith(e.0, k)
    requires forall k | k in keys :: EndsWith(e.0, k)
    requires k in Filed(m, keys, e)
    ensures var m' := Filed(m, keys, e);
      m'[k] != {} && forall x: Entry | x in m'[k] :: x.0 in names + {e.0} && EndsWith(x.0, k)
  {
    FiledSpec(m, keys, e);
    if k in keys {
      assert e in Filed(m, keys, e)[k];
    } else {
      assert k in m;
    }
  }

  /** After add("a.b.c", v), the entry is found under the full name and
      under its last component. */
  lemma AddFindsSuffix(m: map<string, set<Entry>>, name: string, value: Thing)
    ensures var m' := Filed(m, Suffixes(Split(name, '.')), (name, value));
      name in m' && (name, value) in m'[name]
      && Split(name, '.')[|Split(name, '.')| - 1] in m'
      && (name, value) in m'[Split(name, '.')[|Split(name, '.')| - 1]]
  {
    var words := Split(name, '.');
    var keys := Suffixes(words);
    FirstKey(name);
    LastSuffix(words);
    FiledHas(m, keys, (name, value), name);
    FiledHas(m, keys, (name, value), words[|words| - 1]);
  }

  lemma FirstKey(name: string)
    ensures Suffixes(Split(name, '.'))[0] == name
  {
    JoinSplit(name, '.');
  }

  lemma FiledHas(m: map<string, set<Entry>>, keys: seq<string>, e: Entry, k: string)
    requires k in keys
    ensures k in Filed(m, keys, e) && e in Filed(m, keys, e)[k]
  {
    FiledSpec(m, keys, e);
  }

  /** The last dotted suffix is the last word. */
  lemma {:induction false} LastSuffix(words: seq<string>)
    requires words != []
    ensures words[|words| - 1] in Suffixes(words)
    decreases |words|
  {
    if |words| == 1 {
      assert Suffixes(words)[0] == Join(words, ".") == words[0];
    } else {
      LastSuffix(words[1..]);
      assert words[1..][|words| - 2] == words[|words| - 1];
    }
  }
}
