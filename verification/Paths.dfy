/** ERC-7730 field paths (internal/clearsign/path.go). */
module Paths {
  import opened Common
  import opened Positional
  import opened Text
  import opened Hex

  /** Decoded calldata: strings, nested objects, and anything else. */
  datatype Value = Str(s: string) | Obj(fields: map<string, Value>) | Other(text: string)

  /** strconv.Atoi */
  function Atoi(s: string): Option<int> {
    match ParseInteger(Ten, s)
    case None => None
    case Some(i) => if -INT64_MAX - 1 <= i <= INT64_MAX then Some(i) else None
  }

  function NormalizeIndex(i: int, n: nat): int {
    if i < 0 then n + i else i
  }

  /** An index of a slice segment, which may be left out. */
  function SliceBound(text: string, n: nat, default: int): Option<int> {
    if text == "" then Some(default)
    else match Atoi(text)
      case None => None
      case Some(i) => Some(NormalizeIndex(i, n))
  }

  /** The byte range a slice of n bytes selects, if it is one. */
  function SliceRange(n: nat, fromStr: string, toStr: string): (r: Option<(nat, nat)>)
    ensures r.Some? ==> r.value.0 <= r.value.1 <= n
  {
    match (SliceBound(fromStr, n, 0), SliceBound(toStr, n, n))
    case (Some(from), Some(to)) => if from < 0 || to > n || from > to then None else Some((from, to))
    case _ => None
  }

  predicate HexString(v: Value) {
    v.Str? && "0x" <= v.s && |v.s| % 2 == 0 && AllHex(v.s[2..])
  }

  function SliceHex(v: Value, fromStr: string, toStr: string): Option<string> {
    if !HexString(v) then None
    else
      var body := v.s[2..];
      match SliceRange(|body| / 2, fromStr, toStr)
      case None => None
      case Some((from, to)) => Some("0x" + body[from * 2..to * 2])
  }

  method IsHex(s: string) returns (b: bool)
    ensures b == AllHex(s)
  {
    for i := 0 to |s|
      invariant AllHex(s[..i])
    {
      var c := s[i];
      if (c < '0' || c > '9') && (c < 'a' || c > 'f') && (c < 'A' || c > 'F') {
        assert !IsHexDigit(s[i]);
        return false;
      }
    }
    return true;
  }

  // ----- slices are slices of the decoded bytes

  /** The bytes of a 0x-prefixed hex string. */
  function BytesOf(s: string): (b: seq<Byte>)
    requires HexString(Str(s))
    ensures |b| == |s[2..]| / 2
  {
    HexOfScan(s[2..]);
    ScanPairs(s[2..]).value
  }

  /** Three parts of a hex string, each of whole bytes. */
  lemma ScanOfMiddle(a: string, b: string, c: string)
    requires AllHex((a + b) + c) && |a| % 2 == 0 && |b| % 2 == 0 && |c| % 2 == 0
    ensures var all := ScanPairs((a + b) + c);
            AllHex(b) && ScanPairs(b).Some? && all.Some? && |all.value| == |a| / 2 + |b| / 2 + |c| / 2 &&
            ScanPairs(b).value == all.value[|a| / 2..|a| / 2 + |b| / 2]
  {
    hide ScanPairs, AllHex;
    AllHexParts(a + b, c);
    AllHexParts(a, b);
    AllHexScans(a);
    AllHexScans(b);
    AllHexScans(c);
    ScanConcat(a, b);
    ScanConcat(a + b, c);
  }

  lemma ThreeParts(s: string, i: nat, j: nat)
    requires i <= j <= |s|
    ensures s == (s[..i] + s[i..j]) + s[j..]
  {
  }

  lemma SliceOfHex(s: string, f: nat, t: nat)
    requires HexString(Str(s)) && f <= t <= |s[2..]| / 2
    ensures var r := "0x" + s[2..][f * 2..t * 2];
            HexString(Str(r)) && BytesOf(r) == BytesOf(s)[f..t]
  {
    hide ScanPairs, AllHex;
    var body, i, j := s[2..], f * 2, t * 2;
    assert ("0x" + body[i..j])[2..] == body[i..j];
    ThreeParts(body, i, j);
    ScanOfMiddle(body[..i], body[i..j], body[j..]);
  }

  /** A slice succeeds exactly on hex text with a proper range, and then denotes
      that range of the bytes. */
  lemma SliceHexExact(v: Value, fromStr: string, toStr: string)
    ensures SliceHex(v, fromStr, toStr).Some? <==>
            HexString(v) && SliceRange(|BytesOf(v.s)|, fromStr, toStr).Some?
    ensures SliceHex(v, fromStr, toStr).Some? ==>
              var (from, to) := SliceRange(|BytesOf(v.s)|, fromStr, toStr).value;
              var r := SliceHex(v, fromStr, toStr).value;
              HexString(Str(r)) && BytesOf(r) == BytesOf(v.s)[from..to]
  {
    hide SliceRange;
    if HexString(v) {
      var range := SliceRange(|BytesOf(v.s)|, fromStr, toStr);
      if range.Some? {
        SliceOfHex(v.s, range.value.0, range.value.1);
      }
    }
  }

  /** An index is read exactly when it fits 64 bits. */
  lemma AtoiExactly(i: int)
    ensures Atoi(Decimal(i)) == if -0x8000_0000_0000_0000 <= i < 0x8000_0000_0000_0000 then Some(i) else None
  {
    hide Decimal, ParseInteger;
    ParseOfDecimal(i);
  }

  lemma AtoiOfDecimal(i: nat)
    requires i <= INT64_MAX
    ensures Atoi(Decimal(i)) == Some(i) && Decimal(i) != ""
  {
    ParseOfDecimal(i);
    ParseOfNatural(Ten, i);
  }

  lemma AtoiOfNegative(k: int)
    requires 0 < k <= INT64_MAX
    ensures Atoi(Decimal(-k)) == Some(-k) && Decimal(-k) != ""
  {
    ParseOfDecimal(-k);
  }

  /** What the segments of a path select, on n bytes: from a byte on, up to a byte,
      both, and the last k bytes. */
  lemma SliceForms(n: nat, i: nat, j: nat, k: int)
    requires n <= INT64_MAX && i <= j <= n && 0 < k <= n
    ensures SliceRange(n, "", "") == Some((0, n))
    ensures SliceRange(n, Decimal(i), "") == Some((i, n))
    ensures SliceRange(n, "", Decimal(j)) == Some((0, j))
    ensures SliceRange(n, Decimal(i), Decimal(j)) == Some((i, j))
    ensures SliceRange(n, Decimal(-k), "") == Some((n - k, n))
    ensures SliceRange(n, "", Decimal(-k)) == Some((0, n - k))
  {
    hide Decimal, Atoi;
    AtoiOfDecimal(i);
    AtoiOfDecimal(j);
    AtoiOfNegative(k);
  }

  /** Indices outside the bytes, or in the wrong order, select nothing. */
  lemma SliceRefused(n: nat, i: nat, j: nat, k: int)
    requires n <= INT64_MAX && i <= INT64_MAX && j <= INT64_MAX && n < k <= INT64_MAX
    ensures SliceRange(n, Decimal(-k), "") == None
    ensures j > n ==> SliceRange(n, "", Decimal(j)) == None
    ensures i > n ==> SliceRange(n, Decimal(i), "") == None
    ensures i > j ==> SliceRange(n, Decimal(i), Decimal(j)) == None
  {
    hide Decimal, Atoi;
    AtoiOfDecimal(i);
    AtoiOfDecimal(j);
    AtoiOfNegative(k);
  }

  /** "[-k:]" gives the last k bytes. */
  lemma LastBytes(v: Value, k: int)
    requires HexString(v) && 0 < k <= |BytesOf(v.s)| <= INT64_MAX
    ensures var r := SliceHex(v, Decimal(-k), "");
            r.Some? && HexString(Str(r.value)) && BytesOf(r.value) == BytesOf(v.s)[|BytesOf(v.s)| - k..]
  {
    hide SliceRange, Decimal;
    SliceForms(|BytesOf(v.s)|, 0, 0, k);
    SliceHexExact(v, Decimal(-k), "");
    var b := BytesOf(v.s);
    assert b[|b| - k..|b|] == b[|b| - k..];
  }

  /** A slice of a slice is the single slice at the shifted positions. */
  lemma SliceOfSlice(v: Value, a: string, b: string, c: string, d: string)
    requires SliceHex(v, a, b).Some? && SliceHex(Str(SliceHex(v, a, b).value), c, d).Some?
    requires |v.s| <= INT64_MAX
    ensures var n := |v.s[2..]| / 2;
            var (f, t) := SliceRange(n, a, b).value;
            SliceRange(t - f, c, d).Some? &&
            var (f', t') := SliceRange(t - f, c, d).value;
            SliceHex(v, Decimal(f + f'), Decimal(f + t')) == SliceHex(Str(SliceHex(v, a, b).value), c, d)
  {
    hide Atoi, Decimal, AllHex, BytesOf;
    var body := v.s[2..];
    var n := |body| / 2;
    var (f, t) := SliceRange(n, a, b).value;
    var r := SliceHex(v, a, b).value;
    var part := body[f * 2..t * 2];
    assert r[2..] == part && |part| / 2 == t - f;
    var (f', t') := SliceRange(t - f, c, d).value;
    AtoiOfDecimal(f + f');
    AtoiOfDecimal(f + t');
    assert SliceRange(n, Decimal(f + f'), Decimal(f + t')) == Some((f + f', f + t'));
    assert part[f' * 2..t' * 2] == body[(f + f') * 2..(f + t') * 2];
  }

  // ----- path segments

  /** -?\d+ */
  predicate SignedDigits(s: string) {
    var digits := if "-" <= s then s[1..] else s;
    digits != "" && AllDigits(Ten, digits)
  }

  /** An optional minus sign and at least one of the ten digits. */
  lemma SignedDigitsExactly(s: string, sign: string, d: string)
    requires sign in {"", "-"} && s == sign + d && (sign == "" && d != "" ==> d[0] != '-')
    ensures SignedDigits(s) <==> d != "" && forall i :: 0 <= i < |d| ==> '0' <= d[i] <= '9'
  {
    assert sign == "-" ==> s[1..] == d;
    assert sign == "" ==> s == d;
  }

  /** ^\[(-?\d+)?:(-?\d+)?\]$ and its two groups, empty when they did not match. */
  function SliceSegment(seg: string): Option<(string, string)> {
    if |seg| < 3 || seg[0] != '[' || seg[|seg| - 1] != ']' then None
    else
      match Cut(seg[1..|seg| - 1], ':')
      case None => None
      case Some((a, b)) =>
        if (a == "" || SignedDigits(a)) && (b == "" || SignedDigits(b)) then Some((a, b)) else None
  }

  /** The groups are the only way to write the segment in that form. */
  lemma SliceSegmentExact(seg: string, a: string, b: string)
    ensures SliceSegment(seg) == Some((a, b)) <==>
            seg == "[" + a + ":" + b + "]" && (a == "" || SignedDigits(a)) && (b == "" || SignedDigits(b))
  {
    hide SignedDigits;
    if seg == "[" + a + ":" + b + "]" && (a == "" || SignedDigits(a)) && (b == "" || SignedDigits(b)) {
      SegmentFound(seg, a, b);
    } else if SliceSegment(seg) == Some((a, b)) {
      SegmentShape(seg);
    }
  }

  lemma SegmentFound(seg: string, a: string, b: string)
    requires seg == "[" + a + ":" + b + "]" && (a == "" || SignedDigits(a)) && (b == "" || SignedDigits(b))
    ensures SliceSegment(seg) == Some((a, b))
  {
    hide Cut, SignedDigits;
    assert seg[1..|seg| - 1] == a + [':'] + b;
    NoColon(a);
    CutOfConcat(a, ':', b);
  }

  lemma SegmentShape(seg: string)
    requires SliceSegment(seg).Some?
    ensures seg == "[" + SliceSegment(seg).value.0 + ":" + SliceSegment(seg).value.1 + "]"
  {
    hide SignedDigits;
    var inner := seg[1..|seg| - 1];
    assert seg == "[" + inner + "]";
  }

  lemma NoColon(a: string)
    requires a == "" || SignedDigits(a)
    ensures ':' !in a
  {
    assert DigitVal(':') == 16;
    assert a != "" && "-" <= a ==> a == "-" + a[1..];
  }

  /** One segment of a path applied to a value. */
  function Step(cur: Value, seg: string): Option<Value> {
    match SliceSegment(seg)
    case Some((from, to)) =>
      (match SliceHex(cur, from, to) case None => None case Some(s) => Some(Str(s)))
    case None =>
      if cur.Obj? && seg in cur.fields then Some(cur.fields[seg]) else None
  }

  function Walk(cur: Value, segments: seq<string>): Option<Value>
    decreases |segments|
  {
    if segments == [] then Some(cur)
    else
      match Step(cur, segments[0])
      case None => None
      case Some(next) => Walk(next, segments[1..])
  }

  function Resolve(decoded: map<string, Value>, path: string): Option<Value> {
    if "@" <= path then
      if path in decoded then Some(decoded[path]) else None
    else Walk(Obj(decoded), Split(path, '.'))
  }

  method ResolvePath(decoded: map<string, Value>, path: string) returns (r: Option<Value>)
    ensures r == Resolve(decoded, path)
  {
    if "@" <= path {
      return if path in decoded then Some(decoded[path]) else None;
    }
    var segments := Split(path, '.');
    var cur := Obj(decoded);
    for i := 0 to |segments|
      invariant Walk(Obj(decoded), segments) == Walk(cur, segments[i..])
    {
      var seg := segments[i];
      assert segments[i..][1..] == segments[i + 1..];
      match SliceSegment(seg) {
        case Some((from, to)) =>
          var s := SliceHex(cur, from, to);
          if s.None? {
            return None;
          }
          cur := Str(s.value);
        case None =>
          if !cur.Obj? || seg !in cur.fields {
            return None;
          }
          cur := cur.fields[seg];
      }
    }
    return Some(cur);
  }

  lemma NoSeparator(key: string, c: char)
    requires c !in key
    ensures Split(key, c) == [key]
  {
  }

  lemma OneStep(cur: Value, seg: string)
    ensures Walk(cur, [seg]) == Step(cur, seg)
  {
    assert [seg][1..] == [];
  }

  /** A path without a point that is no slice is a plain field, and one that starts
      with "@" is looked up whole. */
  lemma ResolveField(decoded: map<string, Value>, key: string)
    ensures "@" <= key || ('.' !in key && SliceSegment(key) == None) ==> Resolve(decoded, key) == Find(decoded, key)
  {
    hide SliceSegment, Split;
    if !("@" <= key) && '.' !in key && SliceSegment(key) == None {
      NoSeparator(key, '.');
      assert Step(Obj(decoded), key) == Find(decoded, key);
      OneStep(Obj(decoded), key);
    }
  }

  /** A slice segment slices. */
  lemma StepSlices(v: Value, a: string, b: string)
    requires (a == "" || SignedDigits(a)) && (b == "" || SignedDigits(b))
    ensures Step(v, "[" + a + ":" + b + "]") ==
            if SliceHex(v, a, b).None? then None else Some(Str(SliceHex(v, a, b).value))
  {
    hide SliceSegment, SliceHex, SignedDigits;
    SliceSegmentExact("[" + a + ":" + b + "]", a, b);
  }

  /** A field of a value that has no fields, and a slice of one that is no text, fail. */
  lemma StepRefused(v: Value, seg: string)
    ensures SliceSegment(seg) == None && !v.Obj? ==> Step(v, seg) == None
    ensures SliceSegment(seg).Some? && !v.Str? ==> Step(v, seg) == None
  {
  }

  lemma {:induction false} WalkConcat(cur: Value, p: seq<string>, q: seq<string>)
    ensures Walk(cur, p + q) == if Walk(cur, p).None? then None else Walk(Walk(cur, p).value, q)
    decreases |p|
  {
    hide Step;
    if p == [] {
      assert p + q == q;
    } else {
      assert (p + q)[1..] == p[1..] + q;
      if Step(cur, p[0]).Some? {
        WalkConcat(Step(cur, p[0]).value, p[1..], q);
      }
    }
  }

  /** A dotted path resolves like its first part followed by its second part. */
  lemma ResolveConcat(decoded: map<string, Value>, p: string, q: string)
    requires !("@" <= p)
    ensures Resolve(decoded, p + "." + q) ==
            match Resolve(decoded, p)
            case None => None
            case Some(v) => Walk(v, Split(q, '.'))
  {
    hide Walk;
    assert (p + "." + q)[0] == if p == "" then '.' else p[0];
    SplitOfConcat(p, '.', q);
    WalkConcat(Obj(decoded), Split(p, '.'), Split(q, '.'));
  }
}
