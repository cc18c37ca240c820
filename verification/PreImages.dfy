/** The byte strings that are hashed before signing: EIP-191 personal_sign
    (internal/security/secure_signer.go) and EIP-712 typed data
    (internal/lib/exports_signing.go). */
module PreImages {
  import opened Common
  import opened Text
  import opened Hex
  import opened Units

  /** The bytes of a Go string whose characters are all below 256. */
  function TextBytes(s: string): (b: seq<Byte>)
    ensures |b| == |s| && forall i :: 0 <= i < |s| ==> b[i] == (s[i] as nat) % 256
  {
    seq(|s|, i requires 0 <= i < |s| => (s[i] as nat) % 256)
  }

  const PREFIX: string := "\U{19}" + "Ethereum Signed Message:" + "\n"

  /** EIP-191, version 0x45: the prefix, the length in decimal and the message,
      with nothing between the last two. */
  function PersonalMessage(message: seq<Byte>): seq<Byte> {
    TextBytes(PREFIX + Decimal(|message|)) + message
  }

  /** EIP-712: 0x19 0x01, the domain separator and the hash of the message. */
  function TypedData(domainSeparator: seq<Byte>, typedDataHash: seq<Byte>): seq<Byte> {
    [0x19, 0x01] + domainSeparator + typedDataHash
  }

  /** Where the parts of the two pre-images are. */
  lemma PartsInPlace(m: seq<Byte>, d: seq<Byte>, h: seq<Byte>)
    ensures var digits := |Decimal(|m|)|;
            |PersonalMessage(m)| == 26 + digits + |m| && PersonalMessage(m)[26 + digits..] == m &&
            PersonalMessage(m)[26..26 + digits] == TextBytes(Decimal(|m|))
    ensures PersonalMessage(m)[0] == 0x19 && PersonalMessage(m)[25] == 0x0A
    ensures PersonalMessage(m)[1..25] == TextBytes("Ethereum Signed Message:")
    ensures TypedData(d, h)[0] == 0x19 && TypedData(d, h)[1] == 0x01
    ensures TypedData(d, h)[2..2 + |d|] == d && TypedData(d, h)[2 + |d|..] == h
  {
    hide Decimal;
    var name := "Ethereum Signed Message:";
    assert |name| == 24 && PREFIX == "\U{19}" + name + "\n";
    assert PREFIX[1..25] == name;
    var text := PREFIX + Decimal(|m|);
    assert text[1..25] == PREFIX[1..25];
    assert PersonalMessage(m)[1..25] == TextBytes(text)[1..25] == TextBytes(text[1..25]);
  }

  lemma LongerMessageLongerPreImage(m: seq<Byte>, m': seq<Byte>)
    requires |m| < |m'|
    ensures |PersonalMessage(m)| < |PersonalMessage(m')|
  {
    NaturalLengthMonotone(|m|, |m'|);
  }

  /** No two messages share a pre-image, whatever digits a message starts with. */
  lemma PersonalMessageInjective(m: seq<Byte>, m': seq<Byte>)
    ensures PersonalMessage(m) == PersonalMessage(m') <==> m == m'
  {
    hide Decimal, TextBytes;
    if PersonalMessage(m) == PersonalMessage(m') {
      if |m| < |m'| {
        LongerMessageLongerPreImage(m, m');
      } else if |m'| < |m| {
        LongerMessageLongerPreImage(m', m);
      }
      var k := |TextBytes(PREFIX + Decimal(|m|))|;
      assert m == PersonalMessage(m)[k..] == PersonalMessage(m')[k..] == m';
    }
  }

  /** Typed data with 32-byte hashes determines both hashes. */
  lemma TypedDataInjective(d: seq<Byte>, h: seq<Byte>, d': seq<Byte>, h': seq<Byte>)
    requires |d| == |h| == |d'| == |h'| == 32
    ensures TypedData(d, h) == TypedData(d', h') <==> d == d' && h == h'
  {
    if TypedData(d, h) == TypedData(d', h') {
      assert d == TypedData(d, h)[2..34] == TypedData(d', h')[2..34] == d';
      assert h == TypedData(d, h)[34..] == TypedData(d', h')[34..] == h';
    }
  }

  /** A signed message can never be taken for signed typed data. */
  lemma PreImagesDisjoint(m: seq<Byte>, d: seq<Byte>, h: seq<Byte>)
    ensures PersonalMessage(m) != TypedData(d, h)
  {
    assert PersonalMessage(m)[1] == PREFIX[1] as nat % 256 == 0x45;
    assert TypedData(d, h)[1] == 0x01;
  }

  // ----- message text

  function StripHexPrefixes(message: string): string {
    TrimPrefix(TrimPrefix(message, "0x"), "0X")
  }

  /** The bytes eip191Hash signs; an error when the text looks like hex and is not. */
  function SignedBytes(message: string): Option<seq<Byte>> {
    if HexPrefixed(message) then Decode(StripHexPrefixes(message)) else Some(TextBytes(message))
  }

  function Eip191Hash(keccak: seq<Byte> -> seq<Byte>, message: string): Option<seq<Byte>> {
    match SignedBytes(message)
    case None => None
    case Some(bytes) => Some(keccak(PersonalMessage(bytes)))
  }

  /** msgDecodedBytes: what the pre-sign scan looks at. */
  function ScannedBytes(message: string): seq<Byte> {
    if HexPrefixed(message) && Decode(StripHexPrefixes(message)).Some?
    then Decode(StripHexPrefixes(message)).value
    else TextBytes(message)
  }

  /** Whatever gets signed is the pre-image of exactly the bytes that were scanned,
      and signing is refused exactly for undecodable 0x text. */
  lemma ScanSeesWhatIsSigned(keccak: seq<Byte> -> seq<Byte>, message: string)
    ensures Eip191Hash(keccak, message).Some? ==>
              Eip191Hash(keccak, message) == Some(keccak(PersonalMessage(ScannedBytes(message))))
    ensures Eip191Hash(keccak, message).None? <==>
              HexPrefixed(message) && !Lenient(Padded(StripHexPrefixes(message)))
  {
    AcceptsExactly(StripHexPrefixes(message));
  }

  lemma NoLetterX(h: string)
    requires AllHex(h)
    ensures !("0X" <= h)
  {
    if |h| > 1 {
      assert IsHexDigit(h[1]);
    }
  }

  /** Every byte string can be signed by writing it in hex, in either prefix style. */
  lemma HexTextIsItsBytes(b: seq<Byte>)
    ensures SignedBytes("0x" + HexOfBytes(b)) == Some(b)
    ensures SignedBytes("0X" + HexOfBytes(b)) == Some(b)
  {
    hide Decode, HexOfBytes;
    DecodeOfHex(b);
    var h := HexOfBytes(b);
    assert ("0x" + h)[2..] == h && ("0X" + h)[2..] == h;
    NoLetterX(h);
    assert "0X"[1] == 'X';
    assert ("0X" + h)[1] == 'X' && !("0x" <= "0X" + h);
    assert HexPrefixed("0x" + h) && HexPrefixed("0X" + h);
  }

  predicate PlainText(s: string) {
    !HexPrefixed(s) && forall i :: 0 <= i < |s| ==> s[i] as nat < 256
  }

  predicate HexText(s: string) {
    HexPrefixed(s) && |StripHexPrefixes(s)| % 2 == 0 && AllHex(StripHexPrefixes(s))
  }

  lemma PlainTextsDiffer(a: string, b: string)
    requires PlainText(a) && PlainText(b)
    ensures TextBytes(a) == TextBytes(b) <==> a == b
  {
    if TextBytes(a) == TextBytes(b) {
      forall i | 0 <= i < |a| ensures a[i] == b[i] {
        assert TextBytes(a)[i] == TextBytes(b)[i];
      }
    }
  }

  lemma HexTextsDiffer(a: string, b: string)
    requires AllHex(a) && AllHex(b) && |a| % 2 == 0 && |b| % 2 == 0
    ensures Decode(a).Some? && Decode(b).Some? && (Decode(a) == Decode(b) <==> Lower(a) == Lower(b))
  {
    hide ScanPairs, HexOfBytes, Lower;
    HexOfScan(a);
    HexOfScan(b);
    DecodeOfHex(Decode(a).value);
    DecodeOfHex(Decode(b).value);
  }

  /** Two texts are signed alike, collisions of the digest aside, exactly when they
      stand for the same bytes: plain texts when they are the same text, hex texts
      when their digits are the same up to letter case. */
  lemma SignedAlikeIff(a: string, b: string)
    requires SignedBytes(a).Some? && SignedBytes(b).Some?
    ensures var alike := PersonalMessage(SignedBytes(a).value) == PersonalMessage(SignedBytes(b).value);
            (alike <==> ScannedBytes(a) == ScannedBytes(b)) &&
            (PlainText(a) && PlainText(b) ==> (alike <==> a == b)) &&
            (HexText(a) && HexText(b) ==> (alike <==> Lower(StripHexPrefixes(a)) == Lower(StripHexPrefixes(b))))
  {
    hide Decode, Lower, PersonalMessage;
    PersonalMessageInjective(SignedBytes(a).value, SignedBytes(b).value);
    if PlainText(a) && PlainText(b) {
      PlainTextsDiffer(a, b);
    }
    if HexText(a) && HexText(b) {
      HexTextsDiffer(StripHexPrefixes(a), StripHexPrefixes(b));
    }
  }
}
