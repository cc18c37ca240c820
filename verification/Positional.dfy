/** Positional number systems, most significant digit first. The amount printer
    (base 10), the two hex codecs (base 16) and big-endian integers (base 256)
    are instances of the functions Digits and Fixed. */
module Positional {

  datatype Base = Ten | Sixteen | Bytes {
    function Radix(): nat {
      match this case Ten => 10 case Sixteen => 16 case Bytes => 256
    }

    // Multiplication and division by the radix, written so that they stay linear.
    function Times(n: nat): nat {
      match this case Ten => 10 * n case Sixteen => 16 * n case Bytes => 256 * n
    }

    function Quot(n: nat): nat {
      match this case Ten => n / 10 case Sixteen => n / 16 case Bytes => n / 256
    }

    function Rem(n: nat): nat {
      match this case Ten => n % 10 case Sixteen => n % 16 case Bytes => n % 256
    }
  }

  /** n followed by k zero digits. */
  function Shift(b: Base, n: nat, k: nat): nat {
    if k == 0 then n else b.Times(Shift(b, n, k - 1))
  }

  function Pow(b: Base, k: nat): nat {
    Shift(b, 1, k)
  }

  /** The number a digit string denotes. */
  function Value(b: Base, ds: seq<nat>): nat {
    if ds == [] then 0 else b.Times(Value(b, ds[..|ds| - 1])) + ds[|ds| - 1]
  }

  ghost predicate InBase(b: Base, ds: seq<nat>) {
    forall i :: 0 <= i < |ds| ==> ds[i] < b.Radix()
  }

  /** The shortest digit string of n; zero has none. */
  function Digits(b: Base, n: nat): (ds: seq<nat>)
    ensures InBase(b, ds)
  {
    if n == 0 then [] else Digits(b, b.Quot(n)) + [b.Rem(n)]
  }

  /** Exactly k digits of n, dropping whatever does not fit. */
  function Fixed(b: Base, n: nat, k: nat): (ds: seq<nat>)
    ensures |ds| == k && InBase(b, ds)
  {
    if k == 0 then [] else Fixed(b, b.Quot(n), k - 1) + [b.Rem(n)]
  }

  function Zeros(k: nat): (ds: seq<nat>)
    ensures |ds| == k && forall i :: 0 <= i < k ==> ds[i] == 0
  {
    seq(k, _ => 0)
  }

  lemma QuotRem(b: Base, q: nat, r: nat)
    requires r < b.Radix()
    ensures b.Quot(b.Times(q) + r) == q && b.Rem(b.Times(q) + r) == r
  {
    match b { case Ten => case Sixteen => case Bytes => }
  }

  lemma FixedStep(b: Base, q: nat, r: nat, k: nat)
    requires r < b.Radix()
    ensures Fixed(b, b.Times(q) + r, k + 1) == Fixed(b, q, k) + [r]
  {
    QuotRem(b, q, r);
  }

  lemma DigitsStep(b: Base, q: nat, r: nat)
    requires r < b.Radix() && q + r > 0
    ensures Digits(b, b.Times(q) + r) == Digits(b, q) + [r]
  {
    QuotRem(b, q, r);
  }

  lemma ValueStep(b: Base, front: seq<nat>, last: nat)
    ensures Value(b, front + [last]) == b.Times(Value(b, front)) + last
  {
    assert (front + [last])[..|front|] == front;
  }

  lemma PowPositive(b: Base, k: nat)
    ensures Pow(b, k) >= 1
  {
    if k > 0 {
      PowPositive(b, k - 1);
    }
  }

  lemma PowMonotone(b: Base, j: nat, k: nat)
    requires j <= k
    ensures Pow(b, j) <= Pow(b, k)
  {
    if j < k {
      PowMonotone(b, j, k - 1);
      PowPositive(b, k - 1);
    }
  }

  lemma {:induction false} ShiftSum(b: Base, n: nat, m: nat, k: nat)
    ensures Shift(b, n + m, k) == Shift(b, n, k) + Shift(b, m, k)
  {
    if k > 0 {
      ShiftSum(b, n, m, k - 1);
    }
  }

  lemma {:induction false} ShiftTwice(b: Base, n: nat, j: nat, k: nat)
    ensures Shift(b, Shift(b, n, j), k) == Shift(b, n, j + k)
  {
    if k > 0 {
      ShiftTwice(b, n, j, k - 1);
    }
  }

  /** Shifting is multiplying by the power. */
  lemma {:induction false} ShiftIsProduct(b: Base, n: nat, k: nat)
    ensures Shift(b, n, k) == n * Pow(b, k)
  {
    hide Shift;
    if n == 0 {
      ShiftZero(b, k);
    } else {
      ShiftIsProduct(b, n - 1, k);
      ShiftSum(b, n - 1, 1, k);
      OneMore(n, Pow(b, k));
    }
  }

  lemma OneMore(n: nat, p: nat)
    requires n > 0
    ensures (n - 1) * p + p == n * p
  {
  }

  lemma {:induction false} ShiftZero(b: Base, k: nat)
    ensures Shift(b, 0, k) == 0
  {
    if k > 0 {
      ShiftZero(b, k - 1);
    }
  }

  lemma {:induction false} ValueBound(b: Base, ds: seq<nat>)
    requires InBase(b, ds)
    ensures Value(b, ds) < Pow(b, |ds|)
  {
    if ds != [] {
      ValueBound(b, ds[..|ds| - 1]);
    }
  }

  lemma {:induction false} ValueConcat(b: Base, xs: seq<nat>, ys: seq<nat>)
    ensures Value(b, xs + ys) == Shift(b, Value(b, xs), |ys|) + Value(b, ys)
  {
    if ys == [] {
      assert xs + ys == xs;
    } else {
      var front, last := ys[..|ys| - 1], ys[|ys| - 1];
      ValueConcat(b, xs, front);
      assert ys == front + [last] && xs + ys == (xs + front) + [last];
      ValueStep(b, xs + front, last);
      ValueStep(b, front, last);
    }
  }

  lemma {:induction false} ValueOfPadded(b: Base, k: nat, ds: seq<nat>)
    ensures Value(b, Zeros(k) + ds) == Value(b, ds)
  {
    assert Value(b, []) == 0;
    hide Value;
    if ds != [] {
      var front, last := ds[..|ds| - 1], ds[|ds| - 1];
      ValueOfPadded(b, k, front);
      assert ds == front + [last] && Zeros(k) + ds == (Zeros(k) + front) + [last];
      ValueStep(b, Zeros(k) + front, last);
      ValueStep(b, front, last);
    } else if k > 0 {
      ValueOfPadded(b, k - 1, ds);
      assert Zeros(k) + ds == (Zeros(k - 1) + ds) + [0];
      ValueStep(b, Zeros(k - 1) + ds, 0);
    } else {
      assert Zeros(0) + ds == ds;
    }
  }

  lemma {:induction false} ValueOfDigits(b: Base, n: nat)
    ensures Value(b, Digits(b, n)) == n
  {
    if n > 0 {
      ValueOfDigits(b, b.Quot(n));
      assert Digits(b, n)[..|Digits(b, n)| - 1] == Digits(b, b.Quot(n));
    }
  }

  /** Fixed-width digits lose nothing exactly when the number fits. */
  lemma {:induction false} ValueOfFixed(b: Base, n: nat, k: nat)
    ensures Value(b, Fixed(b, n, k)) == n <==> n < Pow(b, k)
  {
    ValueBound(b, Fixed(b, n, k));
    if k > 0 && n < Pow(b, k) {
      ValueOfFixed(b, b.Quot(n), k - 1);
      assert Fixed(b, n, k)[..k - 1] == Fixed(b, b.Quot(n), k - 1);
    }
  }

  /** A digit string is determined by its length and its value. */
  lemma {:induction false} FixedOfValue(b: Base, ds: seq<nat>)
    requires InBase(b, ds)
    ensures Fixed(b, Value(b, ds), |ds|) == ds
  {
    if ds != [] {
      var front, last := ds[..|ds| - 1], ds[|ds| - 1];
      FixedOfValue(b, front);
      FixedStep(b, Value(b, front), last, |front|);
      assert ds == front + [last];
      ValueStep(b, front, last);
    }
  }

  lemma PadFixed(b: Base, ds: seq<nat>, k: nat)
    requires InBase(b, ds) && |ds| <= k
    ensures Zeros(k - |ds|) + ds == Fixed(b, Value(b, ds), k)
  {
    ValueOfPadded(b, k - |ds|, ds);
    FixedOfValue(b, Zeros(k - |ds|) + ds);
  }

  /** The number of digits says which powers bound the number. */
  lemma DigitsFit(b: Base, n: nat, k: nat)
    ensures |Digits(b, n)| <= k <==> n < Pow(b, k)
  {
    if |Digits(b, n)| <= k {
      ValueOfDigits(b, n);
      ValueBound(b, Digits(b, n));
      PowMonotone(b, |Digits(b, n)|, k);
    } else {
      DigitsLead(b, n);
      PowMonotone(b, k, |Digits(b, n)| - 1);
    }
  }

  /** Zero-padding the shortest form on the left gives the fixed-width form. */
  lemma PadDigits(b: Base, n: nat, k: nat)
    requires n < Pow(b, k)
    ensures |Digits(b, n)| <= k
    ensures Zeros(k - |Digits(b, n)|) + Digits(b, n) == Fixed(b, n, k)
  {
    DigitsFit(b, n, k);
    PadFixed(b, Digits(b, n), k);
    ValueOfDigits(b, n);
  }

  /** The shortest form has no leading zero, so its length bounds the number below. */
  lemma {:induction false} DigitsLead(b: Base, n: nat)
    requires n > 0
    ensures |Digits(b, n)| > 0 && Digits(b, n)[0] > 0
    ensures Pow(b, |Digits(b, n)| - 1) <= n
  {
    if b.Quot(n) > 0 {
      DigitsLead(b, b.Quot(n));
    } else {
      assert Digits(b, n) == [b.Rem(n)];
    }
  }

  lemma {:induction false} ValuePositive(b: Base, ds: seq<nat>)
    requires ds != [] && ds[0] > 0
    ensures Value(b, ds) > 0
  {
    if |ds| > 1 {
      ValuePositive(b, ds[..|ds| - 1]);
    }
  }

  /** The shortest form is the only one without a leading zero. */
  lemma {:induction false} DigitsUnique(b: Base, ds: seq<nat>)
    requires InBase(b, ds) && (ds != [] ==> ds[0] > 0)
    ensures Digits(b, Value(b, ds)) == ds
  {
    if ds != [] {
      var front, last := ds[..|ds| - 1], ds[|ds| - 1];
      DigitsUnique(b, front);
      assert ds == front + [last];
      ValueStep(b, front, last);
      if front != [] {
        ValuePositive(b, front);
      }
      DigitsStep(b, Value(b, front), last);
    }
  }

  lemma LengthMonotone(b: Base, m: nat, n: nat)
    requires m <= n
    ensures |Digits(b, m)| <= |Digits(b, n)|
  {
    DigitsFit(b, n, |Digits(b, n)|);
    DigitsFit(b, m, |Digits(b, n)|);
  }

  lemma FixedTwice(n: nat, k: nat)
    requires k >= 2
    ensures Fixed(Sixteen, n, k) == Fixed(Sixteen, n / 16 / 16, k - 2) + [n / 16 % 16, n % 16]
  {
    assert Fixed(Sixteen, n, k) == Fixed(Sixteen, n / 16, k - 1) + [n % 16];
  }

  lemma NibblesOfByte(n: nat)
    ensures n / 16 / 16 == n / 256 && n / 16 % 16 == n % 256 / 16 && n % 16 == n % 256 % 16
  {
  }

  lemma NibblesStep(front: seq<nat>, last: nat)
    ensures Nibbles(front + [last]) == Nibbles(front) + [last / 16, last % 16]
  {
    assert (front + [last])[..|front|] == front;
  }

  lemma FixedByteStep(n: nat, k: nat)
    requires k > 0
    ensures Fixed(Bytes, n, k) == Fixed(Bytes, n / 256, k - 1) + [n % 256]
  {
  }

  lemma FixedHexStep(n: nat, k: nat)
    requires k > 0
    ensures Fixed(Sixteen, n, 2 * k) == Fixed(Sixteen, n / 256, 2 * (k - 1)) + [n % 256 / 16, n % 256 % 16]
  {
    hide Fixed;
    FixedTwice(n, 2 * k);
    NibblesOfByte(n);
  }

  /** Each base-256 digit is two base-16 digits. */
  lemma {:induction false} FixedHexOfBytes(n: nat, k: nat)
    ensures Fixed(Sixteen, n, 2 * k) == Nibbles(Fixed(Bytes, n, k))
  {
    if k > 0 {
      hide Fixed, Nibbles;
      FixedHexOfBytes(n / 256, k - 1);
      FixedByteStep(n, k);
      FixedHexStep(n, k);
      NibblesStep(Fixed(Bytes, n / 256, k - 1), n % 256);
    } else {
      assert Fixed(Bytes, n, 0) == [] && Fixed(Sixteen, n, 0) == [];
    }
  }

  function Nibbles(bytes: seq<nat>): (ds: seq<nat>)
    ensures |ds| == 2 * |bytes|
    ensures forall i :: 0 <= i < |bytes| ==> ds[2 * i] == bytes[i] / 16 && ds[2 * i + 1] == bytes[i] % 16
  {
    if bytes == [] then []
    else
      var front, last := bytes[..|bytes| - 1], bytes[|bytes| - 1];
      Nibbles(front) + [last / 16, last % 16]
  }
}
