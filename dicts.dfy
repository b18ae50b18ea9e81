// The two dictionary classes of muddled/utils.py: MuddleSortedDict, whose
// keys come out sorted, and MuddleOrderedDict, whose keys come out in the
// order they were first inserted.

module Dicts {
  import opened Wrappers
  import opened Text

  /** No element occurs twice. */
  predicate Distinct<K(==)>(s: seq<K>) {
    forall i, j | 0 <= i < j < |s| :: s[i] != s[j]
  }

  function Elements<K(==)>(s: seq<K>): set<K> {
    set x | x in s
  }

  /** The position of the first x in s. */
  function IndexOf<K(==)>(s: seq<K>, x: K): (r: nat)
    requires x in s
    ensures r < |s| && s[r] == x && x !in s[..r]
  {
    if s[0] == x then 0
    else
      var k := IndexOf(s[1..], x);
      assert s[1..][..k] == s[1..k + 1];
      k + 1
  }

  /** list.remove(x): the first x taken out, the rest kept in order. */
  function RemoveFirst<K(==)>(s: seq<K>, x: K): (r: seq<K>)
    requires x in s
    ensures |r| == |s| - 1
  {
    var i := IndexOf(s, x);
    s[..i] + s[i + 1..]
  }

  /** In a list without repeats, removing x removes exactly x and keeps the
      list free of repeats. */
  lemma RemoveFirstDistinct<K>(s: seq<K>, x: K)
    requires Distinct(s) && x in s
    ensures Distinct(RemoveFirst(s, x))
    ensures Elements(RemoveFirst(s, x)) == Elements(s) - {x}
  {
    var i := IndexOf(s, x);
    var r := RemoveFirst(s, x);
    assert forall j | 0 <= j < |r| :: r[j] == if j < i then s[j] else s[j + 1];
    forall y | y in Elements(s) - {x}
      ensures y in Elements(r)
    {
      var k :| 0 <= k < |s| && s[k] == y;
      assert k != i;
      assert r[if k < i then k else k - 1] == y;
    }
  }

  /** Appending a new key keeps a list free of repeats. */
  lemma AppendDistinct<K>(s: seq<K>, x: K)
    requires Distinct(s) && x !in s
    ensures Distinct(s + [x])
    ensures Elements(s + [x]) == Elements(s) + {x}
  {
  }

  /** A list of the elements of a set, in no particular order. */
  method ListOf<K(==)>(keys: set<K>) returns (r: seq<K>)
    ensures Distinct(r) && Elements(r) == keys && |r| == |keys|
  {
    r := [];
    var todo := keys;
    while todo != {}
      invariant Distinct(r)
      invariant Elements(r) !! todo && Elements(r) + todo == keys
      invariant |r| + |todo| == |keys|
      decreases |todo|
    {
      var k :| k in todo;
      AppendDistinct(r, k);
      r := r + [k];
      todo := todo - {k};
    }
  }

  /** sorted(names): every name once, in sorted order. */
  method SortedNames(ns: set<string>) returns (r: seq<string>)
    ensures Sorted(r) && Distinct(r) && Elements(r) == ns && |r| == |ns|
  {
    var list := ListOf(ns);
    r := SortStrings(list);
    PermutationKeepsDistinct(list, r);
  }

  /** Distinct lists with the same elements have the same multiset. */
  lemma DistinctMultiset<K>(s: seq<K>)
    requires Distinct(s)
    ensures forall x | x in multiset(s) :: multiset(s)[x] == 1
  {
    forall x | x in multiset(s)
      ensures multiset(s)[x] == 1
    {
      var i :| 0 <= i < |s| && s[i] == x;
      assert s == s[..i] + [x] + s[i + 1..];
      assert x !in s[..i] && x !in s[i + 1..];
      assert multiset(s) == multiset(s[..i]) + multiset{x} + multiset(s[i + 1..]);
    }
  }

  /** MuddleSortedDict: a dictionary with string keys whose iteration
      order is sorted. */
  class SortedDict<V> {
    var keys: set<string>
    var dict: map<string, V>

    ghost predicate Valid()
      reads this
    {
      keys == dict.Keys
    }

    constructor ()
      ensures Valid() && dict == map[]
    {
      keys := {};
      dict := map[];
    }

    /** d[key] = value */
    method Set(key: string, value: V)
      requires Valid()
      modifies this
      ensures Valid() && dict == old(dict)[key := value] && keys == old(keys) + {key}
    {
      dict := dict[key := value];
      keys := keys + {key};
    }

    /** d[key]; a missing key raises KeyError. */
    method Get(key: string) returns (r: Result<V>)
      requires Valid()
      ensures key in dict <==> r.Ok?
      ensures r.Ok? ==> r.value == dict[key]
    {
      if key !in dict {
        return Err(Crash("KeyError"));
      }
      return Ok(dict[key]);
    }

    /** del d[key]; a missing key raises KeyError and changes nothing. */
    method Delete(key: string) returns (o: Outcome)
      requires Valid()
      modifies this
      ensures Valid()
      ensures o.Pass? <==> key in old(dict)
      ensures dict == old(dict) - {key} && keys == old(keys) - {key}
    {
      if key !in dict {
        return Fail(Crash("KeyError"));
      }
      dict := dict - {key};
      keys := keys - {key};
      return Pass;
    }

    function Len(): (n: nat)
      requires Valid()
      reads this
      ensures n == |dict|
    {
      |keys|
    }

    predicate Contains(key: string)
      reads this
    {
      key in dict
    }

    /** iter(d): every key once, in sorted order. */
    method Keys() returns (r: seq<string>)
      requires Valid()
      ensures Sorted(r) && Distinct(r) && Elements(r) == dict.Keys
    {
      var ks := ListOf(keys);
      r := SortStrings(ks);
      PermutationKeepsDistinct(ks, r);
    }
  }

  /** Reordering a list of distinct keys keeps them distinct and keeps
      them all. */
  lemma PermutationKeepsDistinct<K>(ks: seq<K>, r: seq<K>)
    requires Distinct(ks) && multiset(r) == multiset(ks)
    ensures Distinct(r) && Elements(r) == Elements(ks)
  {
    DistinctMultiset(ks);
    forall x | x in r
      ensures x in ks
    {
      assert x in multiset(r);
    }
    forall x | x in ks
      ensures x in r
    {
      assert x in multiset(ks);
    }
    forall i, j | 0 <= i < j < |r|
      ensures r[i] != r[j]
    {
      Repeated(r, i, j);
      assert r[i] in multiset(ks);
    }
  }

  /** An element at two places occurs at least twice. */
  lemma Repeated<K>(s: seq<K>, i: int, j: int)
    requires 0 <= i < j < |s|
    ensures s[i] == s[j] ==> multiset(s)[s[i]] >= 2
  {
    var x := s[j];
    assert s == s[..j] + [x] + s[j + 1..];
    assert s[..j][i] == s[i];
    assert multiset(s) == multiset(s[..j]) + multiset{x} + multiset(s[j + 1..]);
  }

  /** MuddleOrderedDict: a dictionary whose iteration order is the order in
      which its keys were first set. */
  class OrderedDict<K(==), V> {
    var keys: seq<K>
    var dict: map<K, V>

    ghost predicate Valid()
      reads this
    {
      Distinct(keys) && Elements(keys) == dict.Keys
    }

    constructor ()
      ensures Valid() && keys == [] && dict == map[]
    {
      keys := [];
      dict := map[];
    }

    /** d[key] = value: a new key goes to the end of the order, an existing
        one keeps its place. */
    method Set(key: K, value: V)
      requires Valid()
      modifies this
      ensures Valid() && dict == old(dict)[key := value]
      ensures keys == if key in old(dict) then old(keys) else old(keys) + [key]
    {
      if key !in dict {
        AppendDistinct(keys, key);
        keys := keys + [key];
      }
      dict := dict[key := value];
    }

    /** d[key]; a missing key raises KeyError. */
    method Get(key: K) returns (r: Result<V>)
      requires Valid()
      ensures key in dict <==> r.Ok?
      ensures r.Ok? ==> r.value == dict[key]
    {
      if key !in dict {
        return Err(Crash("KeyError"));
      }
      return Ok(dict[key]);
    }

    /** del d[key]: the key leaves the order, the others keep theirs; a
        missing key raises KeyError and changes nothing. */
    method Delete(key: K) returns (o: Outcome)
      requires Valid()
      modifies this
      ensures Valid()
      ensures o.Pass? <==> key in old(dict)
      ensures dict == old(dict) - {key}
      ensures o.Pass? ==> keys == RemoveFirst(old(keys), key)
      ensures o.Fail? ==> keys == old(keys)
    {
      if key !in dict {
        return Fail(Crash("KeyError"));
      }
      RemoveFirstDistinct(keys, key);
      dict := dict - {key};
      keys := RemoveFirst(keys, key);
      return Pass;
    }

    function Len(): (n: nat)
      requires Valid()
      reads this
      ensures n == |dict|
    {
      DistinctCard(keys);
      |keys|
    }

    predicate Contains(key: K)
      reads this
    {
      key in dict
    }

    /** iter(d): the keys in order of first insertion. */
    function Keys(): (r: seq<K>)
      requires Valid()
      reads this
      ensures Distinct(r) && Elements(r) == dict.Keys
    {
      keys
    }
  }

  /** A list without repeats is as long as its set of elements. */
  lemma {:induction false} DistinctCard<K>(s: seq<K>)
    requires Distinct(s)
    ensures |Elements(s)| == |s|
    decreases |s|
  {
    if s != [] {
      var t := s[..|s| - 1];
      DistinctCard(t);
      assert s == t + [s[|s| - 1]];
      assert Elements(s) == Elements(t) + {s[|s| - 1]};
    }
  }

  /** Setting keys in turn on an empty ordered dictionary lists each key
      once, in the order of its first setting. */
  function FirstOrder<K(==)>(ks: seq<K>): (r: seq<K>)
    ensures Distinct(r) && Elements(r) == Elements(ks)
  {
    if ks == [] then []
    else
      var prev := FirstOrder(ks[..|ks| - 1]);
      var k := ks[|ks| - 1];
      assert Elements(ks) == Elements(ks[..|ks| - 1]) + {k} by {
        assert ks == ks[..|ks| - 1] + [k];
      }
      if k in prev then prev else (AppendDistinct(prev, k); prev + [k])
  }

  /** Setting k after the keys h: a key seen before keeps its place, a
      new one goes last. Together with OrderedDict.Set this is the
      first-insertion order of iteration. */
  lemma FirstOrderStep<K>(h: seq<K>, k: K)
    ensures FirstOrder(h + [k]) == if k in h then FirstOrder(h) else FirstOrder(h) + [k]
  {
    assert (h + [k])[..|h|] == h;
    assert k in FirstOrder(h) <==> k in Elements(FirstOrder(h));
    assert k in h <==> k in Elements(h);
  }
}
