/** ERC-20 approve(address,uint256) calldata: the byte-buffer encoder of
    GetSwapApproval (internal/lib/exports_swap.go) and the string encoder of the
    KyberSwap branch of GetApprovalTransaction (src/swap/aggregator.go). */
module Approval {
  import opened Common
  import opened Positional
  import opened Text
  import opened Hex
  import opened Units

  const SELECTOR: seq<Byte> := [0x09, 0x5e, 0xa7, 0xb3]

  datatype ApprovalError = TokenRequired | SpenderRequired | InvalidAmount | InvalidSpender | Panic

  // ----- the byte encoder

  /** big.Int.Bytes: the magnitude, big-endian, without leading zeros. */
  function AmountBytes(amount: int): seq<Byte> {
    Digits(Bytes, Magnitude(amount))
  }

  /** The buffer before the amount is copied over its end. */
  function Head(spender: seq<Byte>): seq<Byte> {
    SELECTOR + Zeros(12) + spender + Zeros(32)
  }

  function Overlay(buffer: seq<Byte>, tail: seq<Byte>): seq<Byte>
    requires |tail| <= |buffer|
  {
    buffer[..|buffer| - |tail|] + tail
  }

  /** The calldata built for a 20-byte spender; no bytes when the amount is so
      long that the slice bounds panic. */
  function Calldata(spender: seq<Byte>, amount: int): Option<seq<Byte>>
    requires |spender| == 20
  {
    var tail := AmountBytes(amount);
    if |tail| > 68 then None else Some(Overlay(Head(spender), tail))
  }

  /** copy(dst[at:], src), for a source that fits. */
  method CopyAt(dst: array<Byte>, at: nat, src: seq<Byte>)
    requires at + |src| <= dst.Length
    modifies dst
    ensures dst[..] == old(dst[..at]) + src + old(dst[at + |src|..])
  {
    for i := 0 to |src|
      invariant dst[..at] == old(dst[..at])
      invariant dst[at..at + i] == src[..i]
      invariant dst[at + i..] == old(dst[at + i..])
    {
      dst[at + i] := src[i];
    }
    assert dst[..] == dst[..at] + dst[at..at + |src|] + dst[at + |src|..];
  }

  method BuildCalldata(spender: seq<Byte>, amount: int) returns (r: Option<seq<Byte>>)
    requires |spender| == 20
    ensures r == Calldata(spender, amount)
  {
    var calldata := new Byte[68](_ => 0);
    assert calldata[..] == Zeros(68);
    CopyAt(calldata, 0, SELECTOR);
    assert calldata[..] == SELECTOR + Zeros(64);
    CopyAt(calldata, 16, spender);
    assert calldata[..] == Head(spender);
    var amountBytes := AmountBytes(amount);
    if |amountBytes| > 68 {
      return None;
    }
    CopyAt(calldata, 68 - |amountBytes|, amountBytes);
    assert calldata[..] == Overlay(Head(spender), amountBytes);
    r := Some(calldata[..]);
  }

  /** "Formal Specification of the Encoding" read backwards: a selector, an
      address in 32 bytes, a uint256 in 32 bytes. */
  function DecodeApprove(data: seq<Byte>): Option<(seq<Byte>, nat)> {
    if |data| == 68 && data[..4] == SELECTOR && data[4..16] == Zeros(12)
    then Some((data[16..36], Value(Bytes, data[36..])))
    else None
  }

  /** 2^256 */
  function Uint256End(): nat {
    Pow(Bytes, 32)
  }

  lemma OverlayInRange(spender: seq<Byte>, amount: int)
    requires |spender| == 20 && Magnitude(amount) < Uint256End()
    ensures Calldata(spender, amount) ==
            Some(SELECTOR + Zeros(12) + spender + Fixed(Bytes, Magnitude(amount), 32))
  {
    hide Pow;
    var m, tail := Magnitude(amount), AmountBytes(amount);
    PadDigits(Bytes, m, 32);
    var front := SELECTOR + Zeros(12) + spender;
    assert Head(spender)[..68 - |tail|] == front + Zeros(32 - |tail|);
    assert front + (Zeros(32 - |tail|) + tail) == front + Zeros(32 - |tail|) + tail;
  }

  lemma DecodeOfParts(spender: seq<Byte>, word: seq<Byte>)
    requires |spender| == 20 && |word| == 32
    ensures DecodeApprove(SELECTOR + Zeros(12) + spender + word) == Some((spender, Value(Bytes, word)))
  {
    hide Value;
    var data := SELECTOR + Zeros(12) + spender + word;
    assert data[..4] == SELECTOR && data[4..16] == Zeros(12) && data[16..36] == spender && data[36..] == word;
  }

  lemma CalldataBytes(spender: seq<Byte>, amount: int)
    requires |spender| == 20 && Calldata(spender, amount).Some?
    ensures |Calldata(spender, amount).value| == 68
  {
  }

  /** The spender and the amount come back from the calldata exactly when the
      amount is a uint256: the encoder drops a minus sign, and a longer amount
      runs over the spender. */
  lemma CalldataDecodesExactly(spender: seq<Byte>, amount: int)
    requires |spender| == 20 && Calldata(spender, amount).Some?
    ensures (exists m :: DecodeApprove(Calldata(spender, amount).value) == Some((spender, m)) && m == amount)
            <==> 0 <= amount < Uint256End()
  {
    hide Pow, Value, Calldata;
    var data := Calldata(spender, amount).value;
    CalldataBytes(spender, amount);
    if Magnitude(amount) < Uint256End() {
      var word := Fixed(Bytes, Magnitude(amount), 32);
      OverlayInRange(spender, amount);
      DecodeOfParts(spender, word);
      ValueOfFixed(Bytes, Magnitude(amount), 32);
    }
    if DecodeApprove(data).Some? {
      ValueBound(Bytes, data[36..]);
    }
  }

  /** The encoder panics exactly from 256^68 = 2^544 on, in magnitude. */
  lemma PanicsIff(spender: seq<Byte>, amount: int)
    requires |spender| == 20
    ensures Calldata(spender, amount).None? <==> Magnitude(amount) >= Pow(Bytes, 68)
  {
    hide Pow, Digits, Head;
    DigitsFit(Bytes, Magnitude(amount), 68);
  }

  lemma EndDigits()
    ensures Digits(Bytes, Uint256End()) == [1] + Zeros(32)
  {
    hide Digits;
    ValueConcat(Bytes, [1], Zeros(32));
    ValueOfPadded(Bytes, 32, []);
    assert Zeros(32) + [] == Zeros(32);
    ValueStep(Bytes, [], 1);
    assert [] + [1] == [1];
    DigitsUnique(Bytes, [1] + Zeros(32));
  }

  /** Past 32 bytes the amount overwrites the end of the spender's slot. */
  lemma LongAmountExample(spender: seq<Byte>)
    requires |spender| == 20
    ensures Calldata(spender, Uint256End()) ==
            Some(SELECTOR + Zeros(12) + spender[..19] + [1] + Zeros(32))
  {
    hide Digits, Pow;
    EndDigits();
    var front := SELECTOR + Zeros(12) + spender[..19];
    assert Head(spender)[..35] == front;
    assert front + ([1] + Zeros(32)) == front + [1] + Zeros(32);
  }

  // ----- GetSwapApproval

  function ParseAmount(text: string): Option<int> {
    if text == "" then Some(Uint256End() - 1) else ParseInteger(Ten, text)
  }

  /** The data field of the approval transaction. */
  function SwapApproval(token: string, spender: string, amount: string): Result<string, ApprovalError> {
    if token == "" then Err(TokenRequired)
    else if spender == "" then Err(SpenderRequired)
    else
      match ParseAmount(amount)
      case None => Err(InvalidAmount)
      case Some(n) =>
        match Decode(TrimPrefix(spender, "0x"))
        case None => Err(InvalidSpender)
        case Some(bytes) =>
          if |bytes| != 20 then Err(InvalidSpender)
          else
            match Calldata(bytes, n)
            case None => Err(Panic)
            case Some(data) => Ok("0x" + HexOfBytes(data))
  }

  method GetSwapApproval(token: string, spender: string, amount: string)
    returns (r: Result<string, ApprovalError>)
    ensures r == SwapApproval(token, spender, amount)
  {
    if token == "" {
      return Err(TokenRequired);
    }
    if spender == "" {
      return Err(SpenderRequired);
    }
    var n := ParseAmount(amount);
    if n.None? {
      return Err(InvalidAmount);
    }
    var bytes := HexToBytes(TrimPrefix(spender, "0x"));
    if bytes.None? || |bytes.value| != 20 {
      return Err(InvalidSpender);
    }
    var data := BuildCalldata(bytes.value, n.value);
    if data.None? {
      return Err(Panic);
    }
    var hex := BytesToHex(data.value);
    r := Ok("0x" + hex);
  }

  /** For any 20-byte spender and any uint256, written in hex and in decimal, the
      transaction data decodes back to the same spender and amount. */
  lemma ApprovalRoundTrip(token: string, spender: seq<Byte>, amount: nat)
    requires token != "" && |spender| == 20 && amount < Uint256End()
    ensures var r := SwapApproval(token, "0x" + HexOfBytes(spender), Decimal(amount));
            r.Ok? && "0x" <= r.value && Decode(r.value[2..]).Some? &&
            DecodeApprove(Decode(r.value[2..]).value) == Some((spender, amount))
  {
    hide Decode, Calldata, HexOfBytes, DecodeApprove, ParseInteger, Pow, Decimal;
    var text := "0x" + HexOfBytes(spender);
    assert TrimPrefix(text, "0x") == HexOfBytes(spender) by { assert text[2..] == HexOfBytes(spender); }
    DecodeOfHex(spender);
    ParseOfDecimal(amount);
    assert Decimal(amount) != "" by { ParseOfNatural(Ten, amount); DecimalNonEmpty(amount); }
    OverlayInRange(spender, amount);
    var data := Calldata(spender, amount).value;
    CalldataDecodesExactly(spender, amount);
    DecodeOfHex(data);
    assert ("0x" + HexOfBytes(data))[2..] == HexOfBytes(data);
  }

  lemma DecimalNonEmpty(n: nat)
    ensures Decimal(n) != ""
  {
    ParseOfNatural(Ten, n);
  }

  /** Exactly which requests succeed, and the first check that the others fail. */
  lemma SwapApprovalOutcome(token: string, spender: string, amount: string)
    ensures var r, bytes := SwapApproval(token, spender, amount), Decode(TrimPrefix(spender, "0x"));
            (r == Err(TokenRequired) <==> token == "") &&
            (r == Err(SpenderRequired) <==> token != "" && spender == "") &&
            (r == Err(InvalidAmount) <==> token != "" && spender != "" && amount != "" && ParseInteger(Ten, amount) == None) &&
            (r == Err(InvalidSpender) <==> token != "" && spender != "" && (amount == "" || ParseInteger(Ten, amount).Some?) &&
                                           (bytes == None || |bytes.value| != 20)) &&
            (r.Ok? || r == Err(Panic) <==> token != "" && spender != "" && (amount == "" || ParseInteger(Ten, amount).Some?) &&
                                           bytes.Some? && |bytes.value| == 20)
  {
    hide Decode, TrimPrefix, ParseInteger, Calldata, HexOfBytes, Uint256End;
  }

  /** An empty amount approves the largest uint256. */
  lemma UnlimitedApproval(token: string, spender: string)
    ensures SwapApproval(token, spender, "") == SwapApproval(token, spender, Decimal(Uint256End() - 1))
  {
    hide Decode, Calldata, HexOfBytes, ParseInteger, Pow, Decimal, TrimPrefix;
    PowPositive(Bytes, 32);
    ParseOfDecimal(Uint256End() - 1);
    DecimalNonEmpty(Uint256End() - 1);
  }

  // ----- the string encoder

  /** The %064x verb on a big.Int: the sign counts towards the width. */
  function HexAmount(amount: int): string {
    if amount < 0 then "-" + PadLeft(Natural(Sixteen, -amount), 63)
    else PadLeft(Natural(Sixteen, amount), 64)
  }

  lemma PaddedReads(n: nat, k: nat)
    ensures var s := PadLeft(Natural(Sixteen, n), k);
            |s| >= k && s != "" && AllDigits(Sixteen, s) && Value(Sixteen, Vals(s)) == n
  {
    ParseOfNatural(Sixteen, n);
    hide Natural, Value, Vals, AllDigits;
    var h := Natural(Sixteen, n);
    if |h| < k {
      ZerosInFront(h, k - |h|);
    }
  }

  lemma ZerosInFront(h: string, j: nat)
    requires AllDigits(Sixteen, h)
    ensures AllDigits(Sixteen, ZeroText(j) + h) && Value(Sixteen, Vals(ZeroText(j) + h)) == Value(Sixteen, Vals(h))
  {
    hide Value;
    assert Vals(ZeroText(j) + h) == Zeros(j) + Vals(h);
    ValueOfPadded(Sixteen, j, Vals(h));
  }

  /** Every amount can be read back from its 64 digits, the negative ones with their sign. */
  lemma AmountTextReads(amount: int)
    ensures |HexAmount(amount)| >= 64 && ParseInteger(Sixteen, HexAmount(amount)) == Some(amount)
  {
    hide PadLeft, Natural, Value;
    if amount < 0 {
      var h := PadLeft(Natural(Sixteen, -amount), 63);
      PaddedReads(-amount, 63);
      ParseIntegerExactly(Sixteen, "-", h);
    } else {
      var h := PadLeft(Natural(Sixteen, amount), 64);
      PaddedReads(amount, 64);
      assert DigitVal(h[0]) < 16;
      ParseIntegerExactly(Sixteen, "", h);
      assert "" + h == h;
    }
  }

  function KyberData(router: string, amount: int): string
    requires |router| >= 2
  {
    "0x095ea7b3" + PadLeft(router[2..], 64) + HexAmount(amount)
  }

  lemma NumeralsOfZeros(k: nat)
    ensures Numerals(Zeros(k)) == ZeroText(k)
  {
  }

  lemma NumeralsConcat(a: seq<nat>, b: seq<nat>)
    requires InBase(Sixteen, a) && InBase(Sixteen, b)
    ensures InBase(Sixteen, a + b) && Numerals(a + b) == Numerals(a) + Numerals(b)
  {
  }

  lemma PaddedHex(n: nat, k: nat)
    requires n < Pow(Sixteen, k) && k > 0
    ensures PadLeft(Natural(Sixteen, n), k) == Numerals(Fixed(Sixteen, n, k))
  {
    hide Pow, Fixed, Numerals;
    var ds := Digits(Sixteen, n);
    PadDigits(Sixteen, n, k);
    NumeralsConcat(Zeros(k - |ds|), ds);
    NumeralsOfZeros(k - |ds|);
    if n == 0 {
      ZeroPadded(k);
      assert Zeros(k) + [] == Zeros(k);
      assert Numerals([]) == "";
    } else {
      assert |Numerals(ds)| == |ds|;
      assert ZeroText(0) + Numerals(ds) == Numerals(ds);
    }
  }

  lemma ZeroPadded(k: nat)
    requires k > 0
    ensures PadLeft("0", k) == ZeroText(k)
  {
  }

  lemma {:induction false} SixteenSquared(k: nat)
    ensures Pow(Bytes, k) == Pow(Sixteen, 2 * k)
  {
    if k > 0 {
      SixteenSquared(k - 1);
      assert Shift(Sixteen, 1, 2 * k) == 16 * Shift(Sixteen, 1, 2 * k - 1);
      assert Shift(Sixteen, 1, 2 * k - 1) == 16 * Shift(Sixteen, 1, 2 * (k - 1));
    }
  }

  lemma {:induction false} HexOfZeros(k: nat)
    ensures HexOfBytes(Zeros(k)) == ZeroText(2 * k)
  {
    var z: seq<Byte> := Zeros(k);
    forall i | 0 <= i < 2 * k ensures HexOfBytes(z)[i] == '0' {
      assert z[i / 2] == 0 && DigitChar(0) == '0';
      assert i == 2 * (i / 2) || i == 2 * (i / 2) + 1;
    }
  }

  lemma AmountWords(amount: nat)
    requires amount < Uint256End()
    ensures HexAmount(amount) == HexOfBytes(Fixed(Bytes, amount, 32))
  {
    hide Pow, Fixed, PadLeft, Natural;
    SixteenSquared(32);
    PaddedHex(amount, 64);
    FixedHexOfBytes(amount, 32);
  }

  lemma SelectorHex()
    ensures HexOfBytes(SELECTOR) == "095ea7b3"
  {
    hide HexOfBytes;
    var h := HexOfBytes(SELECTOR);
    assert h[2 * 0] == '0' && h[2 * 0 + 1] == '9' && h[2 * 1] == '5' && h[2 * 1 + 1] == 'e';
    assert h[2 * 2] == 'a' && h[2 * 2 + 1] == '7' && h[2 * 3] == 'b' && h[2 * 3 + 1] == '3';
  }

  /** Both encoders give the same calldata, up to the letter case of the router address. */
  lemma EncodersAgree(router: string, amount: nat)
    requires |router| == 42 && AllHex(router[2..]) && amount < Uint256End()
    ensures Decode(router[2..]).Some? && |Decode(router[2..]).value| == 20
    ensures var data := Calldata(Decode(router[2..]).value, amount);
            data.Some? && Lower(KyberData(router, amount)) == "0x" + HexOfBytes(data.value)
  {
    hide Pow, HexOfBytes, Calldata, HexAmount, ScanPairs;
    var h := router[2..];
    HexOfScan(h);
    assert Padded(h) == h;
    var spender := Decode(h).value;
    OverlayInRange(spender, amount);
    var word := Fixed(Bytes, amount, 32);
    HexOfConcat(SELECTOR + Zeros(12) + spender, word);
    HexOfConcat(SELECTOR + Zeros(12), spender);
    HexOfConcat(SELECTOR, Zeros(12));
    SelectorHex();
    HexOfZeros(12);
    AmountWords(amount);
    LowerOfHex(word);
    assert PadLeft(h, 64) == ZeroText(24) + h;
    LowerConcat("0x095ea7b3" + PadLeft(h, 64), HexAmount(amount));
    LowerConcat("0x095ea7b3", PadLeft(h, 64));
    LowerConcat(ZeroText(24), h);
    assert Lower(ZeroText(24)) == ZeroText(24);
    assert Lower("0x095ea7b3") == "0x095ea7b3";
    assert "0x" + ("095ea7b3" + ZeroText(24) + Lower(h) + HexOfBytes(word)) ==
           "0x095ea7b3" + (ZeroText(24) + Lower(h)) + HexOfBytes(word);
  }

  lemma LowerOfHex(b: seq<Byte>)
    ensures Lower(HexOfBytes(b)) == HexOfBytes(b)
  {
    forall i | 0 <= i < 2 * |b| ensures LowerChar(HexOfBytes(b)[i]) == HexOfBytes(b)[i] {
      assert i == 2 * (i / 2) || i == 2 * (i / 2) + 1;
      DigitValOfChar(b[i / 2] / 16);
      DigitValOfChar(b[i / 2] % 16);
    }
  }
}
