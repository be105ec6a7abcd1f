/** A list without its repeats, keeping the order of first appearance. */
module FirstOccurrences {

  function Dedupe<T(==)>(xs: seq<T>): seq<T> {
    if xs == [] then []
    else
      var init, last := Dedupe(xs[..|xs| - 1]), xs[|xs| - 1];
      if last in init then init else init + [last]
  }

  lemma {:induction false} DedupeKeeps<T>(xs: seq<T>)
    ensures forall x :: x in Dedupe(xs) <==> x in xs
    ensures forall a, b :: 0 <= a < b < |Dedupe(xs)| ==> Dedupe(xs)[a] != Dedupe(xs)[b]
  {
    if xs != [] {
      DedupeKeeps(xs[..|xs| - 1]);
      assert xs == xs[..|xs| - 1] + [xs[|xs| - 1]];
    }
  }

  lemma DedupeHas<T>(xs: seq<T>, k: nat)
    requires k < |Dedupe(xs)|
    ensures Dedupe(xs)[k] in xs
  {
    DedupeKeeps(xs);
    assert Dedupe(xs)[k] in Dedupe(xs);
  }

  function FirstIndex<T(==)>(xs: seq<T>, x: T): (i: nat)
    requires x in xs
    ensures i < |xs| && xs[i] == x && x !in xs[..i]
  {
    if xs[0] == x then 0 else 1 + FirstIndex(xs[1..], x)
  }

  /** The kept elements stand in the order of their first appearances. */
  lemma {:induction false} DedupeOrders<T>(xs: seq<T>, a: nat, b: nat)
    requires a < b < |Dedupe(xs)|
    ensures Dedupe(xs)[a] in xs && Dedupe(xs)[b] in xs
    ensures FirstIndex(xs, Dedupe(xs)[a]) < FirstIndex(xs, Dedupe(xs)[b])
  {
    DedupeKeeps(xs);
    var init, last := xs[..|xs| - 1], xs[|xs| - 1];
    assert xs == init + [last];
    DedupeKeeps(init);
    DedupeSnoc(init, last);
    var x, y := Dedupe(xs)[a], Dedupe(xs)[b];
    assert x == Dedupe(init)[a];
    DedupeHas(init, a);
    FirstIndexPrefix(init, last, x);
    if b < |Dedupe(init)| {
      DedupeOrders(init, a, b);
      assert y == Dedupe(init)[b];
      FirstIndexPrefix(init, last, y);
    } else {
      assert xs[..|init|] == init;
      FirstIndexIs(xs, y, |init|);
    }
  }

  lemma FirstIndexIs<T>(xs: seq<T>, x: T, i: nat)
    requires i < |xs| && xs[i] == x && x !in xs[..i]
    ensures FirstIndex(xs, x) == i
  {
    var k := FirstIndex(xs, x);
    assert forall n :: 0 <= n < i && n < |xs| ==> xs[..i][n] == xs[n];
    assert forall n :: 0 <= n < k ==> xs[..k][n] == xs[n];
  }

  lemma FirstIndexPrefix<T>(init: seq<T>, last: T, x: T)
    requires x in init
    ensures FirstIndex(init + [last], x) == FirstIndex(init, x)
  {
    var i := FirstIndex(init, x);
    assert (init + [last])[..i] == init[..i];
    FirstIndexIs(init + [last], x, i);
  }

  lemma DedupeSnoc<T>(xs: seq<T>, x: T)
    ensures Dedupe(xs + [x]) == if x in xs then Dedupe(xs) else Dedupe(xs) + [x]
  {
    assert (xs + [x])[..|xs|] == xs;
    DedupeKeeps(xs);
  }
}
