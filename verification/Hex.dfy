/** The hex codec of internal/lib/exports_swap.go, shared with the message
    decoder of internal/lib/exports_signing.go. */
module Hex {
  import opened Common
  import opened Positional
  import opened Text

  // ----- encoding

  function HexOfBytes(b: seq<Byte>): (s: string)
    ensures |s| == 2 * |b|
    ensures forall i :: 0 <= i < |b| ==> s[2 * i] == DigitChar(b[i] / 16) && s[2 * i + 1] == DigitChar(b[i] % 16)
  {
    NibblesInRange(b);
    Numerals(Nibbles(b))
  }

  lemma NibblesInRange(b: seq<Byte>)
    ensures InBase(Sixteen, Nibbles(b))
  {
    forall i | 0 <= i < 2 * |b| ensures Nibbles(b)[i] < 16 {
      assert i == 2 * (i / 2) + i % 2;
    }
  }

  method BytesToHex(b: seq<Byte>) returns (s: string)
    ensures s == HexOfBytes(b)
  {
    var result := new char[|b| * 2];
    for i := 0 to |b|
      invariant forall k :: 0 <= k < 2 * i ==> result[k] == HexOfBytes(b)[k]
    {
      var v := b[i];
      result[i * 2] := DigitChar(v / 16);
      result[i * 2 + 1] := DigitChar(v % 16);
    }
    s := result[..];
  }

  lemma HexStep(front: seq<Byte>, last: Byte)
    ensures HexOfBytes(front + [last]) == HexOfBytes(front) + [DigitChar(last / 16), DigitChar(last % 16)]
  {
    var all := front + [last];
    assert all[..|front|] == front;
    assert Nibbles(all) == Nibbles(front) + [last / 16, last % 16];
    NibblesInRange(all);
    NibblesInRange(front);
  }

  lemma {:induction false} HexOfConcat(a: seq<Byte>, b: seq<Byte>)
    ensures HexOfBytes(a + b) == HexOfBytes(a) + HexOfBytes(b)
  {
    hide HexOfBytes;
    if b == [] {
      assert a + b == a && HexOfBytes(b) == [];
    } else {
      var front, last := b[..|b| - 1], b[|b| - 1];
      HexOfConcat(a, front);
      HexStep(a + front, last);
      HexStep(front, last);
      assert b == front + [last] && a + b == (a + front) + [last];
    }
  }

  // ----- decoding

  predicate IsHexDigit(c: char) {
    DigitVal(c) < 16
  }

  predicate AllHex(s: string) {
    AllDigits(Sixteen, s)
  }

  /** The white space fmt.Sscanf skips before a number; a newline is an error. */
  predicate IsScanSpace(c: char) {
    c == ' ' || c == '\t' || c == '\r' || c == 11 as char || c == 12 as char
  }

  /** fmt.Sscanf(xy, "%02x", &b): leading white space is skipped, and whatever
      follows the first run of at most two hex digits is ignored. */
  function ScanByte(x: char, y: char): Option<Byte> {
    if IsHexDigit(x) then
      Some(if IsHexDigit(y) then DigitVal(x) * 16 + DigitVal(y) else DigitVal(x))
    else if IsScanSpace(x) && IsHexDigit(y) then Some(DigitVal(y))
    else None
  }

  function Padded(s: string): (t: string)
    ensures |t| % 2 == 0
  {
    if |s| % 2 != 0 then "0" + s else s
  }

  function ScanPairs(t: string): (r: Option<seq<Byte>>)
    requires |t| % 2 == 0
    ensures r.Some? ==> |r.value| == |t| / 2
  {
    if t == "" then Some([])
    else
      match ScanPairs(t[..|t| - 2])
      case None => None
      case Some(front) =>
        match ScanByte(t[|t| - 2], t[|t| - 1])
        case None => None
        case Some(b) => Some(front + [b])
  }

  function Decode(s: string): Option<seq<Byte>> {
    ScanPairs(Padded(s))
  }

  lemma ScanNext(t: string, i: nat)
    requires |t| % 2 == 0 && 2 * (i + 1) <= |t|
    ensures ScanPairs(t[..2 * (i + 1)]) ==
            if ScanPairs(t[..2 * i]).None? || ScanByte(t[i * 2], t[i * 2 + 1]).None? then None
            else Some(ScanPairs(t[..2 * i]).value + [ScanByte(t[i * 2], t[i * 2 + 1]).value])
  {
    assert t[..2 * (i + 1)] == t[..2 * i] + [t[i * 2], t[i * 2 + 1]];
    ScanStep(t[..2 * i], t[i * 2], t[i * 2 + 1]);
  }

  lemma ScanEmpty()
    ensures ScanPairs("") == Some([])
  {
  }

  method HexToBytes(s: string) returns (r: Option<seq<Byte>>)
    ensures r == Decode(s)
  {
    var t := s;
    if |t| % 2 != 0 {
      t := "0" + t;
    }
    hide ScanPairs, ScanByte;
    var result := new Byte[|t| / 2];
    assert ScanPairs(t[..0]) == Some([]) by { ScanEmpty(); }
    for i := 0 to result.Length
      invariant ScanPairs(t[..2 * i]) == Some(result[..i])
    {
      ScanNext(t, i);
      ghost var done := result[..i];
      var b := ScanByte(t[i * 2], t[i * 2 + 1]);
      if b.None? {
        ScanFails(t, 2 * (i + 1));
        return None;
      }
      result[i] := b.value;
      assert result[..i + 1] == done + [b.value];
    }
    assert t[..2 * result.Length] == t;
    assert result[..] == result[..result.Length];
    r := Some(result[..]);
  }

  lemma {:induction false} ScanFails(t: string, n: nat)
    requires n % 2 == 0 && |t| % 2 == 0 && n <= |t| && ScanPairs(t[..n]) == None
    ensures ScanPairs(t) == None
  {
    if n == |t| {
      assert t[..n] == t;
    } else {
      var front := t[..|t| - 2];
      assert front[..n] == t[..n];
      ScanFails(front, n);
    }
  }

  /** hexToBytes accepts a string exactly when each pair starts with a hex digit
      or is white space and a hex digit. */
  ghost predicate Lenient(t: string) {
    |t| % 2 == 0 &&
    forall i :: 0 <= i < |t| / 2 ==> IsHexDigit(t[2 * i]) || (IsScanSpace(t[2 * i]) && IsHexDigit(t[2 * i + 1]))
  }

  lemma {:induction false} ScanPairsAccepts(t: string)
    requires |t| % 2 == 0
    ensures ScanPairs(t).Some? <==> Lenient(t)
    ensures ScanPairs(t).Some? ==>
              forall i :: 0 <= i < |t| / 2 ==> Some(ScanPairs(t).value[i]) == ScanByte(t[2 * i], t[2 * i + 1])
  {
    if t != "" {
      var front, k := t[..|t| - 2], |t| / 2 - 1;
      assert |t| == 2 * k + 2;
      ScanPairsAccepts(front);
      forall i | 0 <= i < k ensures ScanByte(front[2 * i], front[2 * i + 1]) == ScanByte(t[2 * i], t[2 * i + 1]) {
      }
      assert ScanByte(t[2 * k], t[2 * k + 1]) == ScanByte(t[|t| - 2], t[|t| - 1]);
    }
  }

  lemma AcceptsExactly(s: string)
    ensures Decode(s).Some? <==> Lenient(Padded(s))
  {
    ScanPairsAccepts(Padded(s));
  }

  lemma ScanStep(front: string, x: char, y: char)
    requires |front| % 2 == 0
    ensures ScanPairs(front + [x, y]) ==
            if ScanPairs(front).None? || ScanByte(x, y).None? then None
            else Some(ScanPairs(front).value + [ScanByte(x, y).value])
  {
    hide ScanByte;
    var t := front + [x, y];
    assert t[..|t| - 2] == front;
  }

  /** Characters that are no hex digits can go unnoticed. */
  lemma LenientExample()
    ensures Decode("1g 2") == Some([1, 2]) && !AllHex("1g 2")
  {
    ScanStep("", '1', 'g');
    ScanStep("1g", ' ', '2');
    assert "" + ['1', 'g'] == "1g" && "1g" + [' ', '2'] == "1g 2";
    assert [] + [1] == [1] && [1] + [2] == [1, 2];
    assert ScanByte('1', 'g') == Some(1) && ScanByte(' ', '2') == Some(2);
    assert !IsHexDigit("1g 2"[1]);
  }

  /** Which two characters decode to a byte, written out. */
  lemma PairDecodes(x: char, y: char)
    ensures Decode([x, y]).Some? <==>
            '0' <= x <= '9' || 'a' <= x <= 'f' || 'A' <= x <= 'F' ||
            (x in {' ', '\t', '\r', 11 as char, 12 as char} &&
             ('0' <= y <= '9' || 'a' <= y <= 'f' || 'A' <= y <= 'F'))
  {
    assert [] + [x, y] == [x, y];
    ScanEmpty();
    ScanStep("", x, y);
    DigitTable(x, 0);
    DigitTable(y, 0);
  }

  // ----- round trips on hex text

  lemma PaddedAllHex(s: string)
    requires AllHex(s)
    ensures AllHex(Padded(s)) && Value(Sixteen, Vals(Padded(s))) == Value(Sixteen, Vals(s))
  {
    if |s| % 2 != 0 {
      assert Vals(Padded(s)) == Zeros(1) + Vals(s);
      ValueOfPadded(Sixteen, 1, Vals(s));
    }
  }

  lemma AllHexIsLenient(t: string)
    requires AllHex(t) && |t| % 2 == 0
    ensures Lenient(t)
  {
  }

  lemma ValueOfPair(ds: seq<nat>, x: nat, y: nat)
    ensures Value(Sixteen, ds + [x, y]) == 256 * Value(Sixteen, ds) + (x * 16 + y)
  {
    hide Value;
    assert ds + [x, y] == (ds + [x]) + [y];
    ValueStep(Sixteen, ds, x);
    ValueStep(Sixteen, ds + [x], y);
  }

  lemma SplitLastPair(t: string)
    requires AllHex(t) && |t| >= 2
    ensures var front, x, y := t[..|t| - 2], t[|t| - 2], t[|t| - 1];
            t == front + [x, y] && AllHex(front) && Vals(t) == Vals(front) + [DigitVal(x), DigitVal(y)] &&
            ScanByte(x, y) == Some(DigitVal(x) * 16 + DigitVal(y))
  {
  }

  lemma {:induction false} PairsValue(t: string)
    requires AllHex(t) && |t| % 2 == 0
    ensures ScanPairs(t).Some? && Value(Bytes, ScanPairs(t).value) == Value(Sixteen, Vals(t))
  {
    if t != "" {
      hide ScanPairs, ScanByte, Vals, Value, AllHex;
      var front, x, y := t[..|t| - 2], t[|t| - 2], t[|t| - 1];
      SplitLastPair(t);
      PairsValue(front);
      ScanStep(front, x, y);
      ValueOfPair(Vals(front), DigitVal(x), DigitVal(y));
      ValueStep(Bytes, ScanPairs(front).value, DigitVal(x) * 16 + DigitVal(y));
    } else {
      assert Vals(t) == [];
    }
  }

  /** Decoding keeps the number the digits denote, for odd lengths too. */
  lemma DecodeKeepsValue(s: string)
    requires AllHex(s)
    ensures Decode(s).Some? && Value(Bytes, Decode(s).value) == Value(Sixteen, Vals(s))
  {
    PaddedAllHex(s);
    PairsValue(Padded(s));
  }

  lemma DigitValOfChar(d: nat)
    requires d < 16
    ensures DigitVal(DigitChar(d)) == d && IsHexDigit(DigitChar(d))
    ensures LowerChar(DigitChar(d)) == DigitChar(d)
  {
  }

  lemma ScanOfDigits(v: Byte)
    ensures ScanByte(DigitChar(v / 16), DigitChar(v % 16)) == Some(v)
  {
    DigitValOfChar(v / 16);
    DigitValOfChar(v % 16);
  }

  /** Decoding inverts encoding. */
  lemma DecodeOfHex(b: seq<Byte>)
    ensures AllHex(HexOfBytes(b)) && Decode(HexOfBytes(b)) == Some(b)
  {
    var s := HexOfBytes(b);
    NibblesInRange(b);
    ValsOfNumerals(Sixteen, Nibbles(b));
    AllHexIsLenient(s);
    ScanPairsAccepts(s);
    forall i | 0 <= i < |b| ensures ScanPairs(s).value[i] == b[i] {
      ScanOfDigits(b[i]);
    }
    assert ScanPairs(s).value == b;
  }

  lemma CharOfDigitVal(c: char)
    requires IsHexDigit(c)
    ensures DigitChar(DigitVal(c)) == LowerChar(c)
  {
  }

  lemma HexOfPair(front: seq<Byte>, a: nat, b: nat)
    requires a < 16 && b < 16
    ensures HexOfBytes(front + [a * 16 + b]) == HexOfBytes(front) + [DigitChar(a), DigitChar(b)]
  {
    hide HexOfBytes, DigitChar;
    HexStep(front, a * 16 + b);
  }

  lemma HexOfScanStep(front: string, x: char, y: char)
    requires |front| % 2 == 0 && ScanPairs(front).Some? && IsHexDigit(x) && IsHexDigit(y)
    requires HexOfBytes(ScanPairs(front).value) == Lower(front)
    ensures var t := front + [x, y];
            ScanPairs(t).Some? && HexOfBytes(ScanPairs(t).value) == Lower(t)
  {
    hide ScanPairs, HexOfBytes, DigitVal, DigitChar, LowerChar, Lower;
    var a, b := DigitVal(x), DigitVal(y);
    ScanStep(front, x, y);
    HexOfPair(ScanPairs(front).value, a, b);
    CharOfDigitVal(x);
    CharOfDigitVal(y);
    LowerPair(front, x, y);
  }

  lemma LowerPair(front: string, x: char, y: char)
    ensures Lower(front + [x, y]) == Lower(front) + [LowerChar(x), LowerChar(y)]
  {
  }

  /** Encoding inverts decoding on even-length hex, up to letter case. */
  lemma {:induction false} HexOfScan(t: string)
    requires AllHex(t) && |t| % 2 == 0
    ensures ScanPairs(t).Some? && HexOfBytes(ScanPairs(t).value) == Lower(t)
  {
    if t != "" {
      hide ScanPairs, ScanByte, HexOfBytes, AllHex, DigitVal, Lower;
      var front, x, y := t[..|t| - 2], t[|t| - 2], t[|t| - 1];
      SplitLastPair(t);
      HexDigitsOf(t);
      HexOfScan(front);
      HexOfScanStep(front, x, y);
    } else {
      assert HexOfBytes([]) == "" == Lower("");
    }
  }

  lemma LowerOfHexDigit(c: char)
    ensures IsHexDigit(LowerChar(c)) <==> IsHexDigit(c)
  {
  }

  /** Re-encoding what was decoded gives the text back, up to letter case, exactly
      when the text was hex. */
  lemma ReencodesIffHex(t: string)
    requires |t| % 2 == 0
    ensures ScanPairs(t).Some? && HexOfBytes(ScanPairs(t).value) == Lower(t) <==> AllHex(t)
  {
    hide ScanPairs, HexOfBytes;
    if AllHex(t) {
      HexOfScan(t);
    }
    if ScanPairs(t).Some? && HexOfBytes(ScanPairs(t).value) == Lower(t) {
      DecodeOfHex(ScanPairs(t).value);
      forall i | 0 <= i < |t| ensures IsHexDigit(t[i]) {
        assert IsHexDigit(Lower(t)[i]);
        LowerOfHexDigit(t[i]);
      }
    }
  }

  lemma {:induction false} ScanConcat(a: string, b: string)
    requires |a| % 2 == 0 && |b| % 2 == 0 && ScanPairs(a).Some? && ScanPairs(b).Some?
    ensures ScanPairs(a + b) == Some(ScanPairs(a).value + ScanPairs(b).value)
  {
    hide ScanPairs, ScanByte;
    var va := ScanPairs(a).value;
    if b == "" {
      ScanEmpty();
      assert a + b == a && va + [] == va;
    } else {
      var front, x, y := b[..|b| - 2], b[|b| - 2], b[|b| - 1];
      assert b == front + [x, y] && a + b == (a + front) + [x, y];
      ScanStep(front, x, y);
      ScanConcat(a, front);
      ScanStep(a + front, x, y);
      var vf, v := ScanPairs(front).value, ScanByte(x, y).value;
      assert va + (vf + [v]) == (va + vf) + [v];
    }
  }

  lemma AllHexParts(a: string, b: string)
    requires AllHex(a + b)
    ensures AllHex(a) && AllHex(b)
  {
    assert forall i :: 0 <= i < |a| ==> a[i] == (a + b)[i];
    assert forall i :: 0 <= i < |b| ==> b[i] == (a + b)[|a| + i];
  }

  lemma AllHexScans(t: string)
    requires AllHex(t) && |t| % 2 == 0
    ensures ScanPairs(t).Some?
  {
    AllHexIsLenient(t);
    ScanPairsAccepts(t);
  }

  lemma HexDigitsOf(t: string)
    requires AllHex(t)
    ensures forall i :: 0 <= i < |t| ==> IsHexDigit(t[i])
  {
  }
}
