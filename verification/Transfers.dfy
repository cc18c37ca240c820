/** Transfer history (internal/provider/alchemy_client.go): merge, drop repeated
    ids, sort by block in place, truncate. */
module Transfers {
  import opened Common
  import opened Positional
  import opened Text
  import opened Hex

  /** The fields the pipeline looks at; details stands for all the others. */
  datatype Transfer = Transfer(uniqueID: string, blockNum: string, details: string)

  // ----- block numbers

  datatype Scan = Syntax | Range | Num(n: nat)

  /** The digit loop of strconv.ParseUint in base 16: an overflow is reported at
      the digit that causes it, before later characters are looked at. */
  function ScanHex(s: string, n: nat): Scan {
    if s == "" then Num(n)
    else if DigitVal(s[0]) >= 16 then Syntax
    else if n >= 0x1000_0000_0000_0000 then Range
    else ScanHex(s[1..], n * 16 + DigitVal(s[0]))
  }

  /** parseHexToInt: strconv.ParseInt with the error ignored, so a syntax error
      is 0 and an overflow is the nearest int64. */
  function ParseHexToInt(hex: string): (v: int)
    ensures -INT64_MAX - 1 <= v <= INT64_MAX
  {
    var s := Unprefixed(hex);
    var negative, digits := "-" <= s, Unsigned(s);
    if digits == "" then 0 else Settled(negative, ScanHex(digits, 0))
  }

  const UINT64_END: int := 0x1_0000_0000_0000_0000

  /** The nearest int64. */
  function Clamped(v: int): int {
    if v > INT64_MAX then INT64_MAX else if v < -INT64_MAX - 1 then -INT64_MAX - 1 else v
  }

  function Settled(negative: bool, scan: Scan): int {
    match scan
    case Syntax => 0
    case Range => Clamped(if negative then -UINT64_END else UINT64_END)
    case Num(n) => Clamped(if negative then -(n as int) else n)
  }

  /** The digit loop computes the number, unless it leaves the unsigned range first. */
  lemma {:induction false} ScanHexValue(h: string, rest: string, n: nat)
    requires AllHex(h) && n < UINT64_END
    ensures var v := Shift(Sixteen, n, |h|) + Value(Sixteen, Vals(h));
            ScanHex(h + rest, n) == if v < UINT64_END then ScanHex(rest, v) else Range
    decreases |h|
  {
    hide ScanHex, Shift, Value, Vals, AllHex, IsHexDigit, DigitVal;
    if h == "" {
      assert h + rest == rest;
      NoDigits(n);
    } else {
      var v, tail := n * 16 + DigitVal(h[0]), h[1..];
      assert (h + rest)[1..] == tail + rest && (h + rest)[0] == h[0];
      AllHexLead(h);
      LeadDigit(n, h);
      ScanDigit(h + rest, n);
      if v < UINT64_END {
        ScanHexValue(tail, rest, v);
      } else {
        ShiftGrows(v, |tail|);
      }
    }
  }

  lemma NoDigits(n: nat)
    ensures Shift(Sixteen, n, 0) + Value(Sixteen, Vals("")) == n
  {
  }

  lemma AllHexLead(h: string)
    requires AllHex(h) && h != ""
    ensures IsHexDigit(h[0]) && AllHex(h[1..])
  {
  }

  lemma ScanDigit(s: string, n: nat)
    requires s != "" && IsHexDigit(s[0]) && n < UINT64_END
    ensures ScanHex(s, n) == var v := n * 16 + DigitVal(s[0]); if v < UINT64_END then ScanHex(s[1..], v) else Range
  {
  }

  lemma LeadDigit(n: nat, h: string)
    requires h != ""
    ensures Shift(Sixteen, n, |h|) + Value(Sixteen, Vals(h)) ==
            Shift(Sixteen, n * 16 + DigitVal(h[0]), |h| - 1) + Value(Sixteen, Vals(h[1..]))
  {
    hide Shift, Value, Vals, DigitVal;
    var d, k := DigitVal(h[0]), |h| - 1;
    ValsLead(h);
    ValueConcat(Sixteen, [d], Vals(h[1..]));
    OneDigit(n, d);
    ShiftTwice(Sixteen, n, 1, k);
    ShiftSum(Sixteen, n * 16, d, k);
  }

  lemma ValsLead(h: string)
    requires h != ""
    ensures Vals(h) == [DigitVal(h[0])] + Vals(h[1..])
  {
  }

  lemma OneDigit(n: nat, d: nat)
    ensures Shift(Sixteen, n, 1) == n * 16 && Value(Sixteen, [d]) == d
  {
    assert Shift(Sixteen, n, 0) == n && Value(Sixteen, []) == 0;
  }

  lemma {:induction false} ShiftGrows(n: nat, k: nat)
    ensures Shift(Sixteen, n, k) >= n
  {
    if k > 0 {
      ShiftGrows(n, k - 1);
    }
  }

  lemma ScanAll(h: string)
    requires AllHex(h)
    ensures var v := Value(Sixteen, Vals(h)); ScanHex(h, 0) == if v < UINT64_END then Num(v) else Range
  {
    ScanHexValue(h, "", 0);
    ShiftZero(Sixteen, |h|);
    assert h + "" == h;
  }

  function Unprefixed(hex: string): string {
    if |hex| > 2 && (hex[..2] == "0x" || hex[..2] == "0X") then hex[2..] else hex
  }

  function Unsigned(s: string): string {
    if "-" <= s || "+" <= s then s[1..] else s
  }

  /** prefix, sign and body are what ParseHexToInt takes the text apart into. */
  predicate Parts(prefix: string, sign: string, body: string) {
    prefix in {"", "0x", "0X"} && sign in {"", "+", "-"} && sign + body != "" &&
    (sign == "" ==> body[0] != '+' && body[0] != '-') &&
    (prefix == sign == "" && |body| > 2 ==> body[0] != '0' || (body[1] != 'x' && body[1] != 'X'))
  }

  lemma PartsFound(prefix: string, sign: string, body: string)
    requires Parts(prefix, sign, body)
    ensures Unprefixed(prefix + sign + body) == sign + body
    ensures ("-" <= sign + body <==> sign == "-") && Unsigned(sign + body) == body
  {
    var s := prefix + sign + body;
    assert s == prefix + (sign + body);
    if prefix != "" {
      assert s[..2] == prefix && s[2..] == sign + body;
    } else {
      assert s == sign + body;
      assert s[0] == if sign == "" then body[0] else sign[0];
      assert sign == "" && |s| > 2 ==> s[1] == body[1] && s[..2][0] == s[0] && s[..2][1] == s[1];
    }
    if sign == "" {
      assert sign + body == body;
    } else {
      assert (sign + body)[1..] == body && (sign + body)[0] == sign[0];
    }
  }

  lemma BodyRead(prefix: string, sign: string, body: string)
    requires Parts(prefix, sign, body) && body != ""
    ensures ParseHexToInt(prefix + sign + body) == Settled(sign == "-", ScanHex(body, 0))
  {
    hide Unprefixed, Unsigned, ScanHex, Settled;
    PartsFound(prefix, sign, body);
  }

  /** A hex number, with or without a prefix or a sign, is read as the nearest int64. */
  lemma ParseHexValue(prefix: string, sign: string, h: string)
    requires prefix in {"", "0x", "0X"} && sign in {"", "+", "-"} && h != "" && AllHex(h)
    ensures var v: int := Value(Sixteen, Vals(h));
            ParseHexToInt(prefix + sign + h) == Clamped(if sign == "-" then -v else v)
  {
    assert IsHexDigit(h[0]) && (|h| > 1 ==> IsHexDigit(h[1]));
    hide ScanHex, Value, Vals, ParseHexToInt;
    ScanAll(h);
    BodyRead(prefix, sign, h);
  }

  /** A character that is no digit makes the whole number 0, unless the digits before
      it have left the unsigned range already. */
  lemma ParseHexSyntax(prefix: string, sign: string, h: string, c: char, rest: string)
    requires AllHex(h) && !IsHexDigit(c) && Parts(prefix, sign, h + ([c] + rest))
    ensures ParseHexToInt(prefix + sign + (h + ([c] + rest))) ==
            if Value(Sixteen, Vals(h)) < UINT64_END then 0 else Clamped(if sign == "-" then -UINT64_END else UINT64_END)
  {
    ScanHexValue(h, [c] + rest, 0);
    ShiftZero(Sixteen, |h|);
    forall n ensures ScanHex([c] + rest, n) == Syntax {
      assert ([c] + rest)[0] == c;
    }
    hide ScanHex, Value, Vals, AllHex, Parts, ParseHexToInt;
    BodyRead(prefix, sign, h + ([c] + rest));
  }

  /** Without anything after the sign the number is 0. */
  lemma ParseHexEmpty(prefix: string, sign: string)
    requires prefix in {"", "0x", "0X"} && sign in {"", "+", "-"}
    ensures ParseHexToInt(prefix + sign) == 0
  {
    var s := prefix + sign;
    if sign != "" {
      assert s + "" == s;
      PartsFound(prefix, sign, "");
      assert sign + "" == sign;
    } else if prefix != "" {
      assert s == prefix;
      ScanHexValue("0", s[1..], 0);
      assert "0" + s[1..] == s && s[1] == prefix[1] && DigitVal('x') >= 16 && DigitVal('X') >= 16;
    }
  }

  function Block(t: Transfer): int {
    ParseHexToInt(t.blockNum)
  }

  // ----- dropping repeated ids

  function Ids(ts: seq<Transfer>): set<string> {
    set t | t in ts :: t.uniqueID
  }

  /** The transfers whose id does not occur earlier. */
  function FirstOccurrences(ts: seq<Transfer>): seq<Transfer> {
    if ts == [] then []
    else
      var front, last := ts[..|ts| - 1], ts[|ts| - 1];
      if last.uniqueID in Ids(front) then FirstOccurrences(front) else FirstOccurrences(front) + [last]
  }

  ghost predicate DistinctIds(ts: seq<Transfer>) {
    forall i, j :: 0 <= i < j < |ts| ==> ts[i].uniqueID != ts[j].uniqueID
  }

  /** t occurs in ts at a place where its id is new. */
  ghost predicate OccursFirst(ts: seq<Transfer>, t: Transfer) {
    exists i :: 0 <= i < |ts| && ts[i] == t && t.uniqueID !in Ids(ts[..i])
  }

  lemma IdsStep(front: seq<Transfer>, last: Transfer)
    ensures Ids(front + [last]) == Ids(front) + {last.uniqueID}
  {
    var ts := front + [last];
    assert ts[|front|] == last;
    forall t | t in front ensures t in ts {
      var i :| 0 <= i < |front| && front[i] == t;
      assert ts[i] == t;
    }
  }

  lemma {:induction false} FirstOccurrencesExact(ts: seq<Transfer>)
    ensures DistinctIds(FirstOccurrences(ts))
    ensures Ids(FirstOccurrences(ts)) == Ids(ts)
    ensures forall t :: t in FirstOccurrences(ts) <==> OccursFirst(ts, t)
  {
    hide OccursFirst;
    if ts == [] {
      assert forall t :: !OccursFirst(ts, t) by { NothingFirst(); }
    } else {
      var front, last := ts[..|ts| - 1], ts[|ts| - 1];
      FirstOccurrencesExact(front);
      assert ts == front + [last];
      IdsStep(front, last);
      IdsStep(FirstOccurrences(front), last);
      if last.uniqueID !in Ids(front) {
        NewIdIsDistinct(FirstOccurrences(front), last);
      }
      forall t ensures OccursFirst(ts, t) <==> OccursFirst(front, t) || (t == last && t.uniqueID !in Ids(front)) {
        FirstStep(front, last, t);
      }
    }
  }

  lemma NothingFirst()
    ensures forall t :: !OccursFirst([], t)
  {
  }

  lemma NewIdIsDistinct(ts: seq<Transfer>, t: Transfer)
    requires DistinctIds(ts) && t.uniqueID !in Ids(ts)
    ensures DistinctIds(ts + [t])
  {
    assert forall i :: 0 <= i < |ts| ==> ts[i].uniqueID in Ids(ts);
  }

  lemma FirstStep(front: seq<Transfer>, last: Transfer, t: Transfer)
    ensures OccursFirst(front + [last], t) <==>
            OccursFirst(front, t) || (t == last && t.uniqueID !in Ids(front))
  {
    hide Ids;
    var ts := front + [last];
    assert ts[..|front|] == front;
    assert forall i :: 0 <= i < |front| ==> ts[..i] == front[..i];
    if t == last && t.uniqueID !in Ids(front) {
      assert ts[|front|] == t && t.uniqueID !in Ids(ts[..|front|]);
    }
    if OccursFirst(front, t) {
      var i :| 0 <= i < |front| && front[i] == t && t.uniqueID !in Ids(front[..i]);
      assert ts[i] == t && t.uniqueID !in Ids(ts[..i]);
    }
    if OccursFirst(ts, t) {
      var i :| 0 <= i < |ts| && ts[i] == t && t.uniqueID !in Ids(ts[..i]);
      assert i < |front| ==> front[i] == t && t.uniqueID !in Ids(front[..i]);
    }
  }

  method Deduplicate(transfers: seq<Transfer>) returns (result: seq<Transfer>)
    ensures result == FirstOccurrences(transfers)
  {
    var seen: set<string> := {};
    result := [];
    for i := 0 to |transfers|
      invariant seen == Ids(transfers[..i]) && result == FirstOccurrences(transfers[..i])
    {
      var t := transfers[i];
      assert transfers[..i + 1][..i] == transfers[..i];
      assert transfers[..i + 1] == transfers[..i] + [t];
      if t.uniqueID !in seen {
        seen := seen + {t.uniqueID};
        result := result + [t];
      }
    }
    assert transfers[..|transfers|] == transfers;
  }

  // ----- the exchange sort

  ghost predicate Descending(ts: seq<Transfer>) {
    forall i, j :: 0 <= i < j < |ts| ==> Block(ts[i]) >= Block(ts[j])
  }

  /** The first i positions hold their final transfers. */
  ghost predicate SettledBefore(ts: seq<Transfer>, i: nat) {
    forall k, l :: 0 <= k < i && k < l < |ts| ==> Block(ts[k]) >= Block(ts[l])
  }

  /** Position i holds the latest block among positions i to j - 1. */
  ghost predicate LatestUpTo(ts: seq<Transfer>, i: nat, j: nat) {
    i < |ts| && forall l :: i < l < j && l < |ts| ==> Block(ts[i]) >= Block(ts[l])
  }

  lemma SwapStep(ts: seq<Transfer>, i: nat, j: nat)
    requires i < j < |ts| && SettledBefore(ts, i) && LatestUpTo(ts, i, j) && Block(ts[j]) > Block(ts[i])
    ensures var swapped := ts[i := ts[j]][j := ts[i]];
            multiset(swapped) == multiset(ts) && SettledBefore(swapped, i) && LatestUpTo(swapped, i, j + 1)
  {
    hide Block;
  }

  /** A permutation of the array in descending block order. */
  method SortTransfersByBlock(transfers: array<Transfer>)
    modifies transfers
    ensures multiset(transfers[..]) == multiset(old(transfers[..]))
    ensures Descending(transfers[..])
  {
    hide Block, SettledBefore, LatestUpTo;
    NothingSettled(transfers[..]);
    for i := 0 to transfers.Length
      invariant multiset(transfers[..]) == multiset(old(transfers[..]))
      invariant SettledBefore(transfers[..], i)
    {
      StartPass(transfers[..], i);
      for j := i + 1 to transfers.Length
        invariant multiset(transfers[..]) == multiset(old(transfers[..]))
        invariant SettledBefore(transfers[..], i) && LatestUpTo(transfers[..], i, j)
      {
        if Block(transfers[j]) > Block(transfers[i]) {
          SwapStep(transfers[..], i, j);
          ghost var before := transfers[..];
          transfers[i], transfers[j] := transfers[j], transfers[i];
          assert transfers[..] == before[i := before[j]][j := before[i]];
        } else {
          KeepStep(transfers[..], i, j);
        }
      }
      EndPass(transfers[..], i);
    }
    SettledIsDescending(transfers[..]);
  }

  lemma NothingSettled(ts: seq<Transfer>)
    ensures SettledBefore(ts, 0)
  {
  }

  lemma StartPass(ts: seq<Transfer>, i: nat)
    requires i < |ts|
    ensures LatestUpTo(ts, i, i + 1)
  {
  }

  lemma KeepStep(ts: seq<Transfer>, i: nat, j: nat)
    requires i < j < |ts| && LatestUpTo(ts, i, j) && Block(ts[j]) <= Block(ts[i])
    ensures LatestUpTo(ts, i, j + 1)
  {
  }

  lemma EndPass(ts: seq<Transfer>, i: nat)
    requires SettledBefore(ts, i) && LatestUpTo(ts, i, |ts|)
    ensures SettledBefore(ts, i + 1)
  {
    hide Block;
  }

  lemma SettledIsDescending(ts: seq<Transfer>)
    requires SettledBefore(ts, |ts|)
    ensures Descending(ts)
  {
    hide Block;
  }

  // ----- the tail of GetAssetTransfers

  /** kept is a descending choice of transfers, and rest are the others, none of
      them in a later block. */
  ghost predicate TopOf(kept: seq<Transfer>, rest: seq<Transfer>, all: seq<Transfer>) {
    multiset(kept) + multiset(rest) == multiset(all) && Descending(kept) &&
    forall x, y :: x in kept && y in rest ==> Block(x) >= Block(y)
  }

  /** Merges both directions, drops repeats, sorts and truncates. A negative
      maxCount makes the slice expression panic. */
  method MergeTransfers(incoming: seq<Transfer>, outgoing: seq<Transfer>, maxCount: int)
    returns (r: Option<seq<Transfer>>)
    ensures r.None? <==> maxCount < 0
    ensures r.Some? ==>
              var unique := FirstOccurrences(incoming + outgoing);
              |r.value| == (if maxCount < |unique| then maxCount else |unique|) &&
              exists rest :: TopOf(r.value, rest, unique)
  {
    hide Block;
    var unique := Deduplicate(incoming + outgoing);
    var sorted := new Transfer[|unique|](i requires 0 <= i < |unique| => unique[i]);
    assert sorted[..] == unique;
    SortTransfersByBlock(sorted);
    var list := sorted[..];
    if |list| > maxCount {
      if maxCount < 0 {
        return None;
      }
      SplitIsTop(list, maxCount, unique);
      return Some(list[..maxCount]);
    }
    assert list[..|list|] == list;
    SplitIsTop(list, |list|, unique);
    return Some(list);
  }

  lemma SplitIsTop(list: seq<Transfer>, n: nat, unique: seq<Transfer>)
    requires n <= |list| && Descending(list) && multiset(list) == multiset(unique)
    ensures |list| == |unique| && TopOf(list[..n], list[n..], unique)
  {
    hide Block;
    assert list == list[..n] + list[n..];
    assert |multiset(list)| == |list| && |multiset(unique)| == |unique|;
    forall x, y | x in list[..n] && y in list[n..] ensures Block(x) >= Block(y) {
      var i :| 0 <= i < n && list[i] == x;
      var j :| 0 <= j < |list| - n && list[n..][j] == y;
      assert list[n + j] == y;
    }
  }

  lemma {:induction false} OnceEach(ts: seq<Transfer>, t: Transfer)
    requires DistinctIds(ts)
    ensures multiset(ts)[t] <= 1
  {
    if ts != [] {
      var front, last := ts[..|ts| - 1], ts[|ts| - 1];
      OnceEach(front, t);
      assert ts == front + [last];
      assert last !in front;
    }
  }

  lemma TwiceMeansTwo(ts: seq<Transfer>, i: nat, j: nat)
    requires i < j < |ts| && ts[i] == ts[j]
    ensures multiset(ts)[ts[i]] >= 2
  {
    assert ts == ts[..i] + [ts[i]] + ts[i + 1..j] + [ts[j]] + ts[j + 1..];
  }

  lemma SameIdSameTransfer(ts: seq<Transfer>, x: Transfer, y: Transfer)
    requires DistinctIds(ts) && x in ts && y in ts && x.uniqueID == y.uniqueID
    ensures x == y
  {
  }

  /** What is kept consists of first occurrences with distinct ids. */
  lemma KeptAreFirst(kept: seq<Transfer>, rest: seq<Transfer>, merged: seq<Transfer>)
    requires TopOf(kept, rest, FirstOccurrences(merged))
    ensures DistinctIds(kept)
    ensures forall t :: t in kept ==> OccursFirst(merged, t)
  {
    hide Block, Ids, FirstOccurrences, OccursFirst;
    var all := FirstOccurrences(merged);
    FirstOccurrencesExact(merged);
    forall t | t in kept ensures t in all {
      assert t in multiset(kept);
      assert t in multiset(all);
    }
    forall i, j | 0 <= i < j < |kept| ensures kept[i].uniqueID != kept[j].uniqueID {
      if kept[i].uniqueID == kept[j].uniqueID {
        SameIdSameTransfer(all, kept[i], kept[j]);
        TwiceMeansTwo(kept, i, j);
        OnceEach(all, kept[i]);
      }
    }
  }
}
