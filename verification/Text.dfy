/** Strings of ASCII characters: letter case, numerals and splitting. */
module Text {
  import opened Common
  import opened Positional

  // ----- letter case

  function LowerChar(c: char): char {
    if 'A' <= c <= 'Z' then c + 32 as char else c
  }

  function Lower(s: string): (r: string)
    ensures |r| == |s| && forall i :: 0 <= i < |s| ==> r[i] == LowerChar(s[i])
  {
    seq(|s|, i requires 0 <= i < |s| => LowerChar(s[i]))
  }

  /** Only the capital letters change, each to its small letter. */
  lemma LowerLetters(c: char)
    ensures LowerChar(c) != c <==> 'A' <= c <= 'Z'
    ensures 'A' <= c <= 'Z' ==> LowerChar(c) as int - 'a' as int == c as int - 'A' as int
  {
  }

  lemma LowerConcat(a: string, b: string)
    ensures Lower(a + b) == Lower(a) + Lower(b)
  {
  }

  lemma LowerIdempotent(s: string)
    ensures Lower(Lower(s)) == Lower(s)
  {
  }

  // ----- digits

  function DigitChar(d: nat): char
    requires d < 16
  {
    if d < 10 then '0' + d as char else 'a' + (d - 10) as char
  }

  /** The value of a digit of either case; 16 stands for "not a digit". */
  function DigitVal(c: char): nat {
    if '0' <= c <= '9' then (c - '0') as nat
    else if 'a' <= c <= 'f' then (c - 'a') as nat + 10
    else if 'A' <= c <= 'F' then (c - 'A') as nat + 10
    else 16
  }

  /** The digits are those of the encoder's table, in either case, and nothing else is one. */
  lemma DigitTable(c: char, d: nat)
    requires d < 16
    ensures DigitChar(d) == "0123456789abcdef"[d]
    ensures DigitVal("0123456789abcdef"[d]) == DigitVal("0123456789ABCDEF"[d]) == d
    ensures DigitVal(c) < 16 <==> '0' <= c <= '9' || 'a' <= c <= 'f' || 'A' <= c <= 'F'
  {
  }

  type TextBase = b: Base | b != Bytes witness Ten

  predicate AllDigits(b: TextBase, s: string) {
    forall i :: 0 <= i < |s| ==> DigitVal(s[i]) < b.Radix()
  }

  function Vals(s: string): (ds: seq<nat>)
    ensures |ds| == |s| && forall i :: 0 <= i < |s| ==> ds[i] == DigitVal(s[i])
  {
    seq(|s|, i requires 0 <= i < |s| => DigitVal(s[i]))
  }

  lemma ValsConcat(a: string, b: string)
    ensures Vals(a + b) == Vals(a) + Vals(b)
  {
  }

  function Numerals(ds: seq<nat>): (s: string)
    requires forall i :: 0 <= i < |ds| ==> ds[i] < 16
    ensures |s| == |ds| && forall i :: 0 <= i < |ds| ==> s[i] == DigitChar(ds[i])
  {
    seq(|ds|, i requires 0 <= i < |ds| => DigitChar(ds[i]))
  }

  lemma ValsOfNumerals(b: TextBase, ds: seq<nat>)
    requires InBase(b, ds)
    ensures AllDigits(b, Numerals(ds)) && Vals(Numerals(ds)) == ds
  {
  }

  // ----- integers (math/big)

  function Natural(b: TextBase, n: nat): string {
    if n == 0 then "0" else Numerals(Digits(b, n))
  }

  /** big.Int.String */
  function Decimal(n: int): string {
    if n < 0 then "-" + Natural(Ten, -n) else Natural(Ten, n)
  }

  function ParseNatural(b: TextBase, s: string): Option<nat> {
    if s == "" || !AllDigits(b, s) then None else Some(Value(b, Vals(s)))
  }

  /** big.Int.SetString with an explicit base: an optional sign, then at least
      one digit, and nothing else. */
  function ParseInteger(b: TextBase, s: string): Option<int> {
    if s != "" && (s[0] == '-' || s[0] == '+') then
      match ParseNatural(b, s[1..])
      case None => None
      case Some(n) => var v: int := n; Some(if s[0] == '-' then -v else v)
    else
      match ParseNatural(b, s)
      case None => None
      case Some(n) => Some(n)
  }

  /** Exactly which texts are integers: at most one sign, then at least one digit. */
  lemma ParseIntegerExactly(b: TextBase, sign: string, h: string)
    requires sign in {"", "+", "-"} && (sign == "" && h != "" ==> h[0] != '+' && h[0] != '-')
    ensures ParseInteger(b, sign + h).Some? <==> h != "" && AllDigits(b, h)
    ensures h != "" && AllDigits(b, h) ==>
              ParseInteger(b, sign + h) == Some(if sign == "-" then -(Value(b, Vals(h)) as int) else Value(b, Vals(h)))
  {
    if sign == "" {
      assert sign + h == h;
    } else {
      assert (sign + h)[1..] == h && (sign + h)[0] == sign[0];
    }
  }

  lemma ParseOfNatural(b: TextBase, n: nat)
    ensures ParseNatural(b, Natural(b, n)) == Some(n)
    ensures Natural(b, n) != "" && AllDigits(b, Natural(b, n))
    ensures n > 0 ==> DigitVal(Natural(b, n)[0]) > 0
  {
    if n > 0 {
      DigitsLead(b, n);
      ValsOfNumerals(b, Digits(b, n));
      ValueOfDigits(b, n);
    } else {
      assert Vals("0") == [0];
    }
  }

  /** Printing and reading a number gives the number back, so no two numbers share a numeral. */
  lemma ParseOfDecimal(n: int)
    ensures ParseInteger(Ten, Decimal(n)) == Some(n)
  {
    ParseOfNatural(Ten, if n < 0 then -n else n);
    if n < 0 {
      assert Decimal(n)[1..] == Natural(Ten, -n);
    }
  }

  /** Adding digits never shortens a numeral. */
  lemma NaturalLengthMonotone(m: nat, n: nat)
    requires m <= n
    ensures |Natural(Ten, m)| <= |Natural(Ten, n)|
  {
    LengthMonotone(Ten, m, n);
    ParseOfNatural(Ten, n);
  }

  lemma DecimalHasNoOther(n: int, c: char)
    requires c != '-' && DigitVal(c) >= 10
    ensures c !in Decimal(n)
  {
    ParseOfNatural(Ten, if n < 0 then -n else n);
  }

  // ----- separators

  /** Everything before the first occurrence of c, and everything after it. */
  function Cut(s: string, c: char): (r: Option<(string, string)>)
    ensures r == None <==> c !in s
    ensures r.Some? ==> s == r.value.0 + [c] + r.value.1 && c !in r.value.0
  {
    if s == "" then None
    else if s[0] == c then Some(("", s[1..]))
    else match Cut(s[1..], c)
      case None => None
      case Some((a, b)) => Some(([s[0]] + a, b))
  }

  lemma {:induction false} CutOfConcat(a: string, c: char, b: string)
    requires c !in a
    ensures Cut(a + [c] + b, c) == Some((a, b))
  {
    var s := a + [c] + b;
    if a == "" {
      assert s[1..] == b;
    } else {
      CutOfConcat(a[1..], c, b);
      assert s[1..] == a[1..] + [c] + b && a == [a[0]] + a[1..];
    }
  }

  /** A separator splits at most one way when the left part does not contain it. */
  lemma SeparatorInjective(a: string, a': string, c: char, b: string, b': string)
    requires c !in a && c !in a' && a + [c] + b == a' + [c] + b'
    ensures a == a' && b == b'
  {
    CutOfConcat(a, c, b);
    CutOfConcat(a', c, b');
  }

  /** strings.Split with a one-character separator: never empty. */
  function Split(s: string, c: char): (parts: seq<string>)
    ensures parts != []
    decreases |s|
  {
    match Cut(s, c)
    case None => [s]
    case Some((a, b)) => [a] + Split(b, c)
  }

  lemma SplitStep(x: string, c: char, rest: string)
    requires c !in x
    ensures Split(x + [c] + rest, c) == [x] + Split(rest, c)
  {
    CutOfConcat(x, c, rest);
  }

  /** Splitting a joined string splits both sides. */
  lemma {:induction false} SplitOfConcat(a: string, c: char, b: string)
    ensures Split(a + [c] + b, c) == Split(a, c) + Split(b, c)
    decreases |a|
  {
    match Cut(a, c) {
      case None =>
        SplitStep(a, c, b);
      case Some((x, y)) =>
        calc {
          Split(a + [c] + b, c);
          { assert a + [c] + b == x + [c] + (y + [c] + b); }
          Split(x + [c] + (y + [c] + b), c);
          { SplitStep(x, c, y + [c] + b); }
          [x] + Split(y + [c] + b, c);
          { SplitOfConcat(y, c, b); }
          [x] + (Split(y, c) + Split(b, c));
          ([x] + Split(y, c)) + Split(b, c);
        }
    }
  }

  function TrimPrefix(s: string, p: string): string {
    if p <= s then s[|p|..] else s
  }
}
