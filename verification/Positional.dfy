/** Numbers as digit strings in any base, most significant digit first. */
module Positional {
  import Arith
  import opened Bytes

  /** The number written by digits, most significant first. A digit may equal the base. */
  function Value(ds: seq<nat>, base: nat): nat {
    if ds == [] then 0 else Value(ds[..|ds| - 1], base) * base + ds[|ds| - 1]
  }

  /** The digits of a number; none for zero. */
  function Digits(n: nat, base: nat): seq<nat>
    requires base >= 2
  {
    if n == 0 then [] else
      assert n / base < n by { Shrinks(n, base); }
      Digits(n / base, base) + [n % base]
  }

  lemma Shrinks(n: nat, base: nat)
    requires n > 0 && base >= 2
    ensures n / base < n
  {
    if n / base >= n {
      Arith.MulMono(n, 2, base);
      Arith.MulMono(base, n, n / base);
    }
  }

  predicate Below(ds: seq<nat>, base: nat) {
    forall i :: 0 <= i < |ds| ==> ds[i] < base
  }

  /** Proper digits without a leading zero. */
  predicate Canonical(ds: seq<nat>, base: nat) {
    Below(ds, base) && (ds != [] ==> ds[0] != 0)
  }

  lemma ValueSnoc(ds: seq<nat>, d: nat, base: nat)
    ensures Value(ds + [d], base) == Value(ds, base) * base + d
  {
    assert (ds + [d])[..|ds|] == ds;
  }

  lemma {:induction false} DigitsCanonical(n: nat, base: nat)
    requires base >= 2
    ensures Canonical(Digits(n, base), base) && Value(Digits(n, base), base) == n
    ensures n > 0 ==> Digits(n, base) != []
    decreases n
  {
    if n != 0 {
      Shrinks(n, base);
      Parts(n, base);
      DigitsCanonical(n / base, base);
      ValueSnoc(Digits(n / base, base), n % base, base);
    }
  }

  lemma Parts(n: nat, base: nat)
    requires n > 0 && base >= 2
    ensures n == n / base * base + n % base && n % base < base
    ensures n / base == 0 ==> n % base != 0
  {
  }

  lemma {:induction false} CanonicalPositive(ds: seq<nat>, base: nat)
    requires base >= 2 && ds != [] && ds[0] != 0
    ensures Value(ds, base) > 0
  {
    if |ds| > 1 {
      CanonicalPositive(ds[..|ds| - 1], base);
      Arith.MulMono(base, 1, Value(ds[..|ds| - 1], base));
    } else {
      assert ds[..0] == [];
    }
  }

  /** Digits are unique. */
  lemma {:induction false} DigitsOfValue(ds: seq<nat>, base: nat)
    requires base >= 2 && Canonical(ds, base)
    ensures Digits(Value(ds, base), base) == ds
  {
    if ds != [] {
      var init, d := ds[..|ds| - 1], ds[|ds| - 1];
      assert ds == init + [d];
      DigitsOfValue(init, base);
      CanonicalPositive(ds, base);
      Arith.DivUnique(Value(ds, base), base, Value(init, base), d);
    }
  }

  /** Leading zeros. */
  function Zeros(ds: seq<nat>): (z: nat)
    ensures z <= |ds| && (forall i :: 0 <= i < z ==> ds[i] == 0) && (z < |ds| ==> ds[z] != 0)
  {
    if ds == [] || ds[0] != 0 then 0 else 1 + Zeros(ds[1..])
  }

  lemma {:induction false} ValueOfZeros(k: nat, base: nat)
    ensures Value(ZeroBytes(k), base) == 0
  {
    if k > 0 {
      assert ZeroBytes(k)[..k - 1] == ZeroBytes(k - 1);
      ValueOfZeros(k - 1, base);
    }
  }

  /** Leading zeros do not count. */
  lemma {:induction false} LeadingZeros(k: nat, ds: seq<nat>, base: nat)
    ensures Value(ZeroBytes(k) + ds, base) == Value(ds, base)
  {
    if ds == [] {
      ValueOfZeros(k, base);
      assert ZeroBytes(k) + ds == ZeroBytes(k);
    } else {
      var init, d := ds[..|ds| - 1], ds[|ds| - 1];
      assert ZeroBytes(k) + ds == (ZeroBytes(k) + init) + [d];
      ValueSnoc(ZeroBytes(k) + init, d, base);
      LeadingZeros(k, init, base);
    }
  }

  /** Any digit string is its leading zeros and the digits of its value. */
  lemma Normal(ds: seq<nat>, base: nat)
    requires base >= 2 && Below(ds, base)
    ensures ds == ZeroBytes(Zeros(ds)) + Digits(Value(ds, base), base)
  {
    hide Value, Digits;
    var z := Zeros(ds);
    assert ds == ZeroBytes(z) + ds[z..];
    LeadingZeros(z, ds[z..], base);
    DigitsOfValue(ds[z..], base);
  }

  lemma {:induction false} ZerosOf(k: nat, ds: seq<nat>)
    requires ds != [] ==> ds[0] != 0
    ensures Zeros(ZeroBytes(k) + ds) == k
  {
    if k > 0 {
      ZerosOf(k - 1, ds);
      assert (ZeroBytes(k) + ds)[1..] == ZeroBytes(k - 1) + ds;
    }
  }

  lemma NoDigits(base: nat)
    ensures Value([], base) == 0
  {
  }
}
