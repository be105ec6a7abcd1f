/** Positional numerals in any base, most significant digit first. */
module Numerals {
  type Base = b: nat | b >= 2 witness 2

  ghost predicate DigitsOf(b: Base, ds: seq<nat>) { forall i :: 0 <= i < |ds| ==> ds[i] < b }

  function Value(b: Base, ds: seq<nat>): nat {
    if ds == [] then 0 else Value(b, ds[..|ds| - 1]) * b + ds[|ds| - 1]
  }

  /** The shortest numeral; zero has none. */
  function Digits(b: Base, n: nat): (ds: seq<nat>)
    ensures DigitsOf(b, ds) && (ds != [] ==> ds[0] != 0) && (ds == [] <==> n == 0)
  {
    if n == 0 then [] else Digits(b, n / b) + [n % b]
  }

  function StripZeros(ds: seq<nat>): seq<nat> {
    if ds != [] && ds[0] == 0 then StripZeros(ds[1..]) else ds
  }

  function Zeros(n: nat): (z: seq<nat>)
    ensures |z| == n && forall i :: 0 <= i < n ==> z[i] == 0
  {
    seq(n, i => 0)
  }

  function Pow(b: nat, k: nat): nat { if k == 0 then 1 else Pow(b, k - 1) * b }

  lemma SplitNumber(b: Base, n: nat)
    ensures n == n / b * b + n % b && n % b < b
  {
  }

  lemma NoGap(b: Base, x: int)
    ensures x >= 1 ==> x * b >= b
    ensures x <= -1 ==> x * b <= 0 - b
  {
  }

  lemma DivMod(b: Base, q: nat, r: nat)
    requires r < b
    ensures (q * b + r) / b == q && (q * b + r) % b == r
  {
    var n := q * b + r;
    SplitNumber(b, n);
    assert (n / b - q) * b == n / b * b - q * b;
    NoGap(b, n / b - q);
  }

  lemma ValueSnoc(b: Base, ds: seq<nat>, d: nat)
    ensures Value(b, ds + [d]) == Value(b, ds) * b + d
  {
    assert (ds + [d])[..|ds|] == ds;
  }

  lemma DigitsStep(b: Base, n: nat)
    requires n > 0
    ensures Digits(b, n) == Digits(b, n / b) + [n % b]
  {
  }

  /** One digit more: stated on plain numbers, away from division. */
  lemma ValueGrows(b: Base, ds: seq<nat>, whole: seq<nat>, q: nat, d: nat, n: nat)
    requires whole == ds + [d] && Value(b, ds) == q && n == q * b + d
    ensures Value(b, whole) == n
  {
    ValueSnoc(b, ds, d);
  }

  lemma {:induction false} ValueOfDigits(b: Base, n: nat)
    ensures Value(b, Digits(b, n)) == n
    decreases |Digits(b, n)|
  {
    if n > 0 {
      SplitNumber(b, n);
      DigitsStep(b, n);
      ValueOfDigits(b, n / b);
      ValueGrows(b, Digits(b, n / b), Digits(b, n), n / b, n % b, n);
    }
  }

  lemma PeelDigit(b: Base, n: nat, low: seq<nat>)
    requires n > 0
    ensures Digits(b, n) + low == Digits(b, n / b) + ([n % b] + low)
  {
    var high, d := Digits(b, n / b), n % b;
    assert Digits(b, n) == high + [d];
    assert high + [d] + low == high + ([d] + low);
  }

  lemma {:induction false} ZeroValue(b: Base, ds: seq<nat>)
    ensures Value(b, ds) == 0 <==> ds == Zeros(|ds|)
  {
    if ds != [] {
      var init := ds[..|ds| - 1];
      ZeroValue(b, init);
      assert ds == init + [ds[|ds| - 1]];
      if ds == Zeros(|ds|) { assert init == Zeros(|init|); }
      if Value(b, ds) == 0 { assert Value(b, init) == 0; }
    }
  }

  lemma {:induction false} StripSnoc(ds: seq<nat>, d: nat)
    ensures StripZeros(ds + [d]) == if StripZeros(ds) == [] && d == 0 then [] else StripZeros(ds) + [d]
  {
    if ds != [] && ds[0] == 0 {
      assert (ds + [d])[1..] == ds[1..] + [d];
      StripSnoc(ds[1..], d);
    }
  }

  /** Writing a numeral's value again drops its leading zeros and nothing else. */
  lemma {:induction false} DigitsOfValue(b: Base, ds: seq<nat>)
    requires DigitsOf(b, ds)
    ensures Digits(b, Value(b, ds)) == StripZeros(ds)
  {
    if ds != [] {
      var init, d := ds[..|ds| - 1], ds[|ds| - 1];
      DigitsOfValue(b, init);
      assert ds == init + [d];
      StripSnoc(init, d);
      DivMod(b, Value(b, init), d);
    }
  }

  lemma {:induction false} PadRestores(ds: seq<nat>)
    ensures |StripZeros(ds)| <= |ds|
    ensures Zeros(|ds| - |StripZeros(ds)|) + StripZeros(ds) == ds
  {
    if ds != [] && ds[0] == 0 {
      PadRestores(ds[1..]);
      assert Zeros(|ds| - |StripZeros(ds)|) == [0] + Zeros(|ds[1..]| - |StripZeros(ds)|);
      assert ds == [0] + ds[1..];
    }
  }

  lemma {:induction false} StripPadded(k: nat, ds: seq<nat>)
    requires ds == [] || ds[0] != 0
    ensures StripZeros(Zeros(k) + ds) == ds
  {
    if k > 0 {
      assert (Zeros(k) + ds)[1..] == Zeros(k - 1) + ds;
      StripPadded(k - 1, ds);
    } else {
      assert Zeros(0) + ds == ds;
    }
  }

  /** Padding does not change the value. */
  lemma PaddedValue(b: Base, k: nat, ds: seq<nat>)
    requires DigitsOf(b, ds) && (ds == [] || ds[0] != 0)
    ensures Value(b, Zeros(k) + ds) == Value(b, ds)
  {
    var padded := Zeros(k) + ds;
    StripPadded(k, ds);
    StripPadded(0, ds);
    assert Zeros(0) + ds == ds;
    DigitsOfValue(b, padded);
    DigitsOfValue(b, ds);
    ValueOfDigits(b, Value(b, padded));
    ValueOfDigits(b, Value(b, ds));
  }

  lemma MulLess(x: nat, y: nat, b: Base, d: nat)
    requires d < b
    ensures x < y <==> x * b + d < y * b
  {
    if x < y { assert (x + 1) * b <= y * b; } else { assert y * b <= x * b; }
  }

  /** The number of digits, exactly: at most `k` when and only when the number is under the base's k-th power. */
  lemma {:induction false} LengthExactly(b: Base, n: nat, k: nat)
    ensures |Digits(b, n)| <= k <==> n < Pow(b, k)
    decreases k
  {
    if k > 0 && n > 0 {
      var q, d, power := n / b, n % b, Pow(b, k - 1);
      LengthExactly(b, q, k - 1);
      SplitNumber(b, n);
      MulLess(q, power, b, d);
    } else if n == 0 {
      PowPositive(b, k);
    }
  }

  lemma {:induction false} PowPositive(b: Base, k: nat)
    ensures Pow(b, k) > 0
  {
    if k > 0 { PowPositive(b, k - 1); }
  }

  lemma ValueBelow(b: Base, ds: seq<nat>)
    requires DigitsOf(b, ds)
    ensures Value(b, ds) < Pow(b, |ds|)
  {
    DigitsOfValue(b, ds);
    PadRestores(ds);
    LengthExactly(b, Value(b, ds), |ds|);
  }
}
