/** Sizes of grouped finite sets, as GROUP BY and COUNT(DISTINCT ...) compute them. */
module Counting {

  function Group<T, G(==)>(s: set<T>, f: T -> G, g: G): set<T> {
    set x | x in s && f(x) == g
  }

  /** The sum of the group sizes over a list of group keys. */
  function GroupSum<T, G(==)>(s: set<T>, f: T -> G, gs: seq<G>): nat {
    if gs == [] then 0 else |Group(s, f, gs[0])| + GroupSum(s, f, gs[1..])
  }

  predicate Distinct<G(==)>(gs: seq<G>) {
    forall i, j :: 0 <= i < j < |gs| ==> gs[i] != gs[j]
  }

  /** Grouping conserves the total: over any duplicate-free list that covers every element's group. */
  lemma {:induction false} GroupsAddUp<T, G>(s: set<T>, f: T -> G, gs: seq<G>)
    requires Distinct(gs) && forall x :: x in s ==> f(x) in gs
    ensures GroupSum(s, f, gs) == |s|
  {
    if gs == [] {
      assert s == {};
    } else {
      var here, rest := Group(s, f, gs[0]), s - Group(s, f, gs[0]);
      assert forall i :: 0 <= i < |gs| - 1 ==> gs[1..][i] == gs[i + 1];
      forall x | x in rest ensures f(x) in gs[1..] {
        var i :| 0 <= i < |gs| && gs[i] == f(x);
        assert gs[1..][i - 1] == f(x);
      }
      GroupsAddUp(rest, f, gs[1..]);
      SumIgnores(s, rest, f, gs[0], gs[1..]);
      assert |s| == |here| + |rest| by { assert here + rest == s && here !! rest; }
    }
  }

  lemma {:induction false} SumIgnores<T, G>(s: set<T>, rest: set<T>, f: T -> G, g: G, gs: seq<G>)
    requires rest == s - Group(s, f, g) && g !in gs
    ensures GroupSum(s, f, gs) == GroupSum(rest, f, gs)
  {
    if gs != [] {
      assert Group(s, f, gs[0]) == Group(rest, f, gs[0]);
      SumIgnores(s, rest, f, g, gs[1..]);
    }
  }

  predicate Injective<T, K(==)>(s: set<T>, f: T -> K) {
    forall x, y :: x in s && y in s && f(x) == f(y) ==> x == y
  }

  function Image<T, K(==)>(s: set<T>, f: T -> K): set<K> {
    set x | x in s :: f(x)
  }

  /** Counting distinct keys counts the elements when no two share a key. */
  lemma {:induction false} ImageSize<T, K>(s: set<T>, f: T -> K)
    requires Injective(s, f)
    ensures |Image(s, f)| == |s|
  {
    if s != {} {
      var y :| y in s;
      ImageSize(s - {y}, f);
      assert Image(s, f) == Image(s - {y}, f) + {f(y)};
    }
  }

  /** Counting distinct keys never counts more than the elements, and counts them all only when no two share a key. */
  lemma {:induction false} ImageSizeExactly<T, K>(s: set<T>, f: T -> K)
    ensures |Image(s, f)| <= |s| && (|Image(s, f)| == |s| <==> Injective(s, f))
  {
    if s != {} {
      var y :| y in s;
      var rest := s - {y};
      ImageSizeExactly(rest, f);
      assert Image(s, f) == Image(rest, f) + {f(y)};
      if x :| x in rest && f(x) == f(y) {
        assert Image(s, f) == Image(rest, f);
      } else if Injective(rest, f) {
        assert Injective(s, f);
      }
    }
  }

  /** Distinct keys counted group by group. */
  function KeySum<T, G(==), K(==)>(s: set<T>, f: T -> G, key: T -> K, gs: seq<G>): nat {
    if gs == [] then 0 else |Image(Group(s, f, gs[0]), key)| + KeySum(s, f, key, gs[1..])
  }

  /** No key occurs in two groups. */
  ghost predicate OneGroupEach<T(!new), G(!new), K(!new)>(s: set<T>, f: T -> G, key: T -> K) {
    forall x, y :: x in s && y in s && key(x) == key(y) ==> f(x) == f(y)
  }

  function Pairing<T, K, G>(key: T -> K, f: T -> G): T -> (K, G) { x => (key(x), f(x)) }

  /** Distinct keys counted group by group, over any duplicate-free list that covers every element's group, are the
    * distinct pairs of key and group. */
  lemma {:induction false} KeySumIsPairs<T(!new), G(!new), K(!new)>(s: set<T>, f: T -> G, key: T -> K, gs: seq<G>)
    requires Distinct(gs) && forall x :: x in s ==> f(x) in gs
    ensures KeySum(s, f, key, gs) == |Image(s, Pairing(key, f))|
  {
    var pair := Pairing(key, f);
    if gs == [] {
      assert s == {} && Image(s, pair) == {};
    } else {
      var here, rest := Group(s, f, gs[0]), s - Group(s, f, gs[0]);
      forall i, j | 0 <= i < j < |gs[1..]| ensures gs[1..][i] != gs[1..][j] {
        assert gs[1..][i] == gs[i + 1] && gs[1..][j] == gs[j + 1];
      }
      forall x | x in rest ensures f(x) in gs[1..] {
        var i :| 0 <= i < |gs| && gs[i] == f(x);
        assert gs[1..][i - 1] == f(x);
      }
      forall i | 0 <= i < |gs[1..]| ensures gs[1..][i] != gs[0] { assert gs[1..][i] == gs[i + 1]; }
      KeySumIsPairs(rest, f, key, gs[1..]);
      KeySumIgnores(s, rest, f, key, gs[0], gs[1..]);
      PairsExactly(here, f, key);
      assert Image(s, pair) == Image(here, pair) + Image(rest, pair);
      assert Image(here, pair) !! Image(rest, pair);
    }
  }

  lemma {:induction false} KeySumIgnores<T, G, K>(s: set<T>, rest: set<T>, f: T -> G, key: T -> K, g: G, gs: seq<G>)
    requires rest == s - Group(s, f, g) && g !in gs
    ensures KeySum(s, f, key, gs) == KeySum(rest, f, key, gs)
  {
    if gs != [] {
      assert Group(s, f, gs[0]) == Group(rest, f, gs[0]);
      KeySumIgnores(s, rest, f, key, g, gs[1..]);
    }
  }

  /** There are at least as many pairs of key and group as keys, and exactly as many only when no key occurs in two
    * groups. */
  lemma PairsExactly<T(!new), G(!new), K(!new)>(s: set<T>, f: T -> G, key: T -> K)
    ensures |Image(s, Pairing(key, f))| >= |Image(s, key)|
    ensures |Image(s, Pairing(key, f))| == |Image(s, key)| <==> OneGroupEach(s, f, key)
  {
    var pair, first := Pairing(key, f), (p: (K, G)) => p.0;
    var pairs := Image(s, pair);
    ImageSizeExactly(pairs, first);
    forall k ensures k in Image(pairs, first) <==> k in Image(s, key) {
      if k in Image(pairs, first) {
        var p :| p in pairs && first(p) == k;
        var x :| x in s && pair(x) == p;
      }
      if k in Image(s, key) {
        var x :| x in s && key(x) == k;
        assert pair(x) in pairs && first(pair(x)) == k;
      }
    }
    assert Image(pairs, first) == Image(s, key);
    if OneGroupEach(s, f, key) {
      assert Injective(pairs, first);
    } else {
      var x, y :| x in s && y in s && key(x) == key(y) && f(x) != f(y);
      assert pair(x) in pairs && pair(y) in pairs && pair(x) != pair(y) && first(pair(x)) == first(pair(y));
      assert !Injective(pairs, first);
    }
  }

  lemma SubsetSize<T>(a: set<T>, b: set<T>)
    requires a <= b
    ensures |a| <= |b|
  {
    assert b == a + (b - a);
  }
}
