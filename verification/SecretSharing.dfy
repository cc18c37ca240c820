/** XOR secret sharing in erasable memory: internal/security/memzero.go and
    secret_share.go. Random bytes are parameters; None is a failed read. */
module SecretSharing {
  import opened Common

  type Octets = seq<bv8>

  function Zeroes(n: nat): Octets {
    seq(n, _ => 0)
  }

  // ----- memzero.go

  /** Nothing is left in the array. A method of which every new array is blank
      leaves no copy of a secret behind. */
  ghost predicate Blank(a: array<bv8>)
    reads a
  {
    a[..] == Zeroes(a.Length)
  }

  method SecureZero(b: array<bv8>)
    modifies b
    ensures Blank(b)
    ensures forall a: array<bv8> :: fresh(a) ==> Blank(a)
  {
    for i := 0 to b.Length
      invariant forall k :: 0 <= k < i ==> b[k] == 0
      invariant forall a: array<bv8> :: fresh(a) ==> Blank(a)
    {
      b[i] := 0;
    }
  }

  /** Copies and erases the source, which may be the destination; nothing happens,
      and the source panics, when the lengths differ. */
  method SecureCopy(dst: array<bv8>, src: array<bv8>) returns (panicked: bool)
    modifies dst, src
    ensures panicked <==> dst.Length != src.Length
    ensures panicked ==> dst[..] == old(dst[..]) && src[..] == old(src[..])
    ensures !panicked ==> Blank(src) && (dst != src ==> dst[..] == old(src[..]))
  {
    if dst.Length != src.Length {
      return true;
    }
    for i := 0 to dst.Length
      invariant src[..] == old(src[..]) && dst[..i] == src[..i]
    {
      dst[i] := src[i];
    }
    SecureZero(src);
    return false;
  }

  lemma OrOfXor(r: bv8, x: bv8, y: bv8)
    ensures r | (x ^ y) == 0 <==> r == 0 && x == y
  {
  }

  /** The constant-time comparison decides equality. */
  method SecureCompare(a: array<bv8>, b: array<bv8>) returns (equal: bool)
    ensures equal <==> a[..] == b[..]
  {
    if a.Length != b.Length {
      return false;
    }
    var result: bv8 := 0;
    for i := 0 to a.Length
      invariant result == 0 <==> a[..i] == b[..i]
    {
      OrOfXor(result, a[i], b[i]);
      result := result | (a[i] ^ b[i]);
      assert a[..i + 1] == a[..i] + [a[i]] && b[..i + 1] == b[..i] + [b[i]];
    }
    assert a[..a.Length] == a[..] && b[..b.Length] == b[..];
    return result == 0;
  }

  /** rand.Read: fills the buffer with the given bytes. */
  method RandRead(b: array<bv8>, bytes: Octets)
    requires |bytes| == b.Length
    modifies b
    ensures b[..] == bytes
    ensures forall a: array<bv8> :: fresh(a) ==> Blank(a)
  {
    for i := 0 to b.Length
      invariant b[..i] == bytes[..i]
      invariant forall a: array<bv8> :: fresh(a) ==> Blank(a)
    {
      b[i] := bytes[i];
    }
  }

  // ----- shares as values

  function XorBytes(x: bv8, y: bv8, z: bv8): bv8 {
    x ^ y ^ z
  }

  function Xor3(a: Octets, b: Octets, c: Octets): (r: Octets)
    requires |a| == |b| == |c|
    ensures |r| == |a| && forall i :: 0 <= i < |a| ==> r[i] == XorBytes(a[i], b[i], c[i])
  {
    seq(|a|, i requires 0 <= i < |a| => XorBytes(a[i], b[i], c[i]))
  }

  datatype Triple = Triple(s1: Octets, s2: Octets, s3: Octets) {
    predicate Even() {
      |s1| == |s2| == |s3|
    }

    function Combined(): Octets
      requires Even()
    {
      Xor3(s1, s2, s3)
    }

    function View(position: nat): Octets {
      if position == 1 then s1 else if position == 2 then s2 else s3
    }
  }

  function Split(secret: Octets, r1: Octets, r2: Octets): Triple
    requires |r1| == |r2| == |secret|
  {
    Triple(r1, r2, Xor3(secret, r1, r2))
  }

  predicate Readable(r: Option<Octets>, size: nat) {
    r.Some? ==> |r.value| == size
  }

  /** Refresh: new shares of the same secret if both random reads succeed. */
  function Refreshed(t: Triple, r1: Option<Octets>, r2: Option<Octets>): Triple
    requires t.Even() && Readable(r1, |t.s1|) && Readable(r2, |t.s1|)
  {
    if r1.Some? && r2.Some? then Split(t.Combined(), r1.value, r2.value) else t
  }

  lemma XorCancels(s: bv8, a: bv8, b: bv8)
    ensures a ^ b ^ (s ^ a ^ b) == s
  {
  }

  lemma Xor3Involutive(s: Octets, a: Octets, b: Octets)
    requires |s| == |a| == |b|
    ensures Xor3(s, a, Xor3(s, a, b)) == b
  {
    forall i | 0 <= i < |s| ensures Xor3(s, a, Xor3(s, a, b))[i] == b[i] {
      XorTwice(s[i] ^ a[i], b[i]);
    }
  }

  lemma XorTwice(x: bv8, y: bv8)
    ensures x ^ (x ^ y) == y
  {
  }

  lemma Xor3Commutes(s: Octets, a: Octets, b: Octets)
    requires |s| == |a| == |b|
    ensures Xor3(s, a, b) == Xor3(s, b, a)
  {
    forall i | 0 <= i < |s| ensures Xor3(s, a, b)[i] == Xor3(s, b, a)[i] {
      XorSwaps(s[i], a[i], b[i]);
    }
  }

  lemma XorSwaps(s: bv8, a: bv8, b: bv8)
    ensures s ^ a ^ b == s ^ b ^ a
  {
  }

  lemma Xor3Solves(s: Octets, a: Octets, b: Octets, c: Octets)
    requires |s| == |a| == |b| == |c|
    ensures Xor3(s, a, b) == c <==> b == Xor3(s, a, c)
  {
    hide Xor3;
    Xor3Involutive(s, a, b);
    Xor3Involutive(s, a, c);
  }

  /** Combining undoes splitting, whatever the random bytes. */
  lemma CombinedOfSplit(secret: Octets, r1: Octets, r2: Octets)
    requires |r1| == |r2| == |secret|
    ensures Split(secret, r1, r2).Even() && Split(secret, r1, r2).Combined() == secret
  {
    forall i | 0 <= i < |secret| ensures Split(secret, r1, r2).Combined()[i] == secret[i] {
      XorCancels(secret[i], r1[i], r2[i]);
    }
  }

  datatype Attempt = Attempt(r1: Option<Octets>, r2: Option<Octets>)

  predicate Fits(script: seq<Attempt>, size: nat) {
    forall i :: 0 <= i < |script| ==> Readable(script[i].r1, size) && Readable(script[i].r2, size)
  }

  function RunRefreshes(t: Triple, script: seq<Attempt>): (r: Triple)
    requires t.Even() && Fits(script, |t.s1|)
    ensures r.Even() && |r.s1| == |t.s1|
  {
    if script == [] then t
    else
      var before := RunRefreshes(t, script[..|script| - 1]);
      Refreshed(before, script[|script| - 1].r1, script[|script| - 1].r2)
  }

  /** Any run of successful and failed refreshes keeps the secret. */
  lemma {:induction false} RefreshesKeepSecret(t: Triple, script: seq<Attempt>)
    requires t.Even() && Fits(script, |t.s1|)
    ensures RunRefreshes(t, script).Combined() == t.Combined()
  {
    if script != [] {
      var last := script[|script| - 1];
      RefreshesKeepSecret(t, script[..|script| - 1]);
      if last.r1.Some? && last.r2.Some? {
        CombinedOfSplit(RunRefreshes(t, script[..|script| - 1]).Combined(), last.r1.value, last.r2.value);
      }
    }
  }

  /** The random bytes under which positions p and q of the split show a and b. */
  function Explanation(secret: Octets, p: nat, q: nat, a: Octets, b: Octets): (Octets, Octets)
    requires |a| == |b| == |secret| && p != q && 1 <= p <= 3 && 1 <= q <= 3
  {
    var first := if p == 1 then a else if q == 1 then b else Xor3(secret, a, b);
    var second := if p == 2 then a else if q == 2 then b else Xor3(secret, a, b);
    (first, second)
  }

  /** Any two shares fit every secret, each in exactly one way. */
  lemma TwoSharesFitEverySecret(secret: Octets, p: nat, q: nat, a: Octets, b: Octets, r1: Octets, r2: Octets)
    requires |a| == |b| == |r1| == |r2| == |secret| && p != q && 1 <= p <= 3 && 1 <= q <= 3
    ensures Split(secret, r1, r2).View(p) == a && Split(secret, r1, r2).View(q) == b <==>
            (r1, r2) == Explanation(secret, p, q, a, b)
  {
    hide Xor3;
    Xor3Commutes(secret, r1, r2);
    Xor3Commutes(secret, a, b);
    if p == 3 {
      Xor3Solves(secret, r1, r2, a);
      Xor3Solves(secret, r2, r1, a);
      Xor3Commutes(secret, a, if q == 1 then r1 else r2);
    } else if q == 3 {
      Xor3Solves(secret, r1, r2, b);
      Xor3Solves(secret, r2, r1, b);
      Xor3Commutes(secret, b, if p == 1 then r1 else r2);
    }
  }

  // ----- shares in memory

  class SecretShares {
    var share1: array?<bv8>
    var share2: array?<bv8>
    var share3: array?<bv8>

    ghost predicate Live()
      reads this
    {
      share1 != null && share2 != null && share3 != null &&
      share1 != share2 && share1 != share3 && share2 != share3 &&
      share1.Length == share2.Length == share3.Length
    }

    ghost predicate Erased()
      reads this
    {
      share1 == null && share2 == null && share3 == null
    }

    ghost function Contents(): Triple
      requires Live()
      reads this, share1, share2, share3
    {
      Triple(share1[..], share2[..], share3[..])
    }

    constructor (s1: array<bv8>, s2: array<bv8>, s3: array<bv8>)
      ensures share1 == s1 && share2 == s2 && share3 == s3
      ensures forall a: array<bv8> :: fresh(a) ==> Blank(a)
    {
      share1, share2, share3 := s1, s2, s3;
    }

    /** nil on an empty secret or a failed random read, and then the secret is
        left alone; otherwise three fresh shares, and the secret is erased. */
    static method SplitSecret(secret: array<bv8>, r1: Option<Octets>, r2: Option<Octets>)
      returns (r: SecretShares?)
      requires Readable(r1, secret.Length) && Readable(r2, secret.Length)
      modifies secret
      ensures r == null <==> secret.Length == 0 || r1.None? || r2.None?
      ensures r == null ==> secret[..] == old(secret[..])
      ensures r != null ==> fresh(r) && r.Live() && fresh(r.share1) && fresh(r.share2) && fresh(r.share3)
      ensures r != null ==> r.Contents() == Split(old(secret[..]), r1.value, r2.value)
      ensures r != null ==> r.share1[..] == r1.value && r.share2[..] == r2.value
      ensures r != null ==> Blank(secret)
      ensures forall a: array<bv8> :: fresh(a) ==> Blank(a) || (r != null && a in {r.share1, r.share2, r.share3})
    {
      var size := secret.Length;
      if size == 0 {
        return null;
      }
      var share1, share2, share3 := SplitInto(secret, r1, r2);
      if share1 == null || share2 == null || share3 == null {
        return null;
      }
      SecureZero(secret);
      r := new SecretShares(share1, share2, share3);
    }

    /** The allocation, the two random reads and the XOR loop that SplitSecret
        and Refresh have in common. */
    static method SplitInto(secret: array<bv8>, r1: Option<Octets>, r2: Option<Octets>)
      returns (s1: array?<bv8>, s2: array?<bv8>, s3: array?<bv8>)
      requires Readable(r1, secret.Length) && Readable(r2, secret.Length)
      ensures if r1.None? || r2.None? then s1 == null && s2 == null && s3 == null
              else s1 != null && s2 != null && s3 != null && fresh(s1) && fresh(s2) && fresh(s3) &&
                   s1 != s2 && s1 != s3 && s2 != s3 &&
                   Triple(s1[..], s2[..], s3[..]) == Split(secret[..], r1.value, r2.value)
      ensures forall a: array<bv8> :: fresh(a) ==> Blank(a) || a in {s1, s2, s3}
    {
      var size := secret.Length;
      var share1, share2, share3 := new bv8[size], new bv8[size], new bv8[size];
      if r1.None? {
        Discard(share1, share2, share3);
        return null, null, null;
      }
      RandRead(share1, r1.value);
      if r2.None? {
        Discard(share1, share2, share3);
        return null, null, null;
      }
      RandRead(share2, r2.value);
      XorInto(share3, secret, share1, share2);
      return share1, share2, share3;
    }

    /** SecureFree on all three. */
    static method Discard(share1: array<bv8>, share2: array<bv8>, share3: array<bv8>)
      requires share1 != share2 && share1 != share3 && share2 != share3
      modifies share1, share2, share3
      ensures Blank(share1) && Blank(share2) && Blank(share3)
      ensures forall a: array<bv8> :: fresh(a) ==> Blank(a)
    {
      SecureZero(share1);
      SecureZero(share2);
      SecureZero(share3);
    }

    /** share3[i] = secret[i] ^ share1[i] ^ share2[i] */
    static method XorInto(share3: array<bv8>, secret: array<bv8>, share1: array<bv8>, share2: array<bv8>)
      requires share3.Length == secret.Length == share1.Length == share2.Length
      requires share3 != secret && share3 != share1 && share3 != share2
      modifies share3
      ensures share3[..] == Xor3(secret[..], share1[..], share2[..])
      ensures forall a: array<bv8> :: fresh(a) ==> Blank(a)
    {
      hide Blank, XorBytes;
      for i := 0 to share3.Length
        invariant forall a: array<bv8> :: fresh(a) ==> Blank(a)
        invariant forall k :: 0 <= k < i ==> share3[k] == XorBytes(secret[k], share1[k], share2[k])
      {
        share3[i] := XorBytes(secret[i], share1[i], share2[i]);
      }
    }

    /** nil once the shares are gone. */
    method Reconstruct() returns (result: array?<bv8>)
      requires Live() || Erased()
      ensures result == null <==> Erased()
      ensures result != null ==> fresh(result) && result[..] == Contents().Combined()
      ensures forall a: array<bv8> :: fresh(a) ==> Blank(a) || a == result
    {
      hide Blank, XorBytes;
      if share1 == null || share2 == null || share3 == null {
        return null;
      }
      var size := share1.Length;
      result := new bv8[size];
      for i := 0 to size
        invariant forall k :: 0 <= k < i ==> result[k] == XorBytes(share1[k], share2[k], share3[k])
        invariant forall a: array<bv8> :: fresh(a) ==> Blank(a) || a == result
      {
        result[i] := XorBytes(share1[i], share2[i], share3[i]);
      }
    }

    /** An error leaves the buffer alone. */
    method ReconstructInto(dst: array<bv8>) returns (ok: bool)
      requires Live() || Erased()
      requires dst != share1 && dst != share2 && dst != share3
      modifies dst
      ensures ok <==> Live() && dst.Length == share1.Length
      ensures dst[..] == if ok then Contents().Combined() else old(dst[..])
    {
      if share1 == null || share2 == null || share3 == null {
        return false;
      }
      if dst.Length != share1.Length {
        return false;
      }
      for i := 0 to dst.Length
        invariant forall k :: 0 <= k < i ==> dst[k] == XorBytes(share1[k], share2[k], share3[k])
      {
        dst[i] := XorBytes(share1[i], share2[i], share3[i]);
      }
      return true;
    }

    /** Success swaps in fresh shares of the same secret and erases the old
        arrays; failure changes nothing. Either way the reconstructed secret is
        erased, and so is every other array made on the way. */
    method Refresh(r1: Option<Octets>, r2: Option<Octets>) returns (ok: bool)
      requires Live() || Erased()
      requires Live() ==> Readable(r1, share1.Length) && Readable(r2, share1.Length)
      modifies this, share1, share2, share3
      ensures ok <==> old(Live()) && r1.Some? && r2.Some?
      ensures !ok ==> unchanged(this) && (Live() ==> Contents() == old(Contents()))
      ensures old(Live()) ==> Live() && Contents() == Refreshed(old(Contents()), r1, r2) &&
                              Contents().Combined() == old(Contents().Combined())
      ensures ok ==> fresh(share1) && fresh(share2) && fresh(share3)
      ensures ok ==> share1[..] == r1.value && share2[..] == r2.value
      ensures ok ==> Blank(old(share1)) && Blank(old(share2)) && Blank(old(share3))
      ensures forall a: array<bv8> :: fresh(a) ==> Blank(a) || (ok && a in {share1, share2, share3})
    {
      var secret := Reconstruct();
      if secret == null {
        return false;
      }
      ghost var value := secret[..];
      var new1, new2, new3 := SplitInto(secret, r1, r2);
      if new1 == null || new2 == null || new3 == null {
        SecureZero(secret);
        return false;
      }
      var old1, old2, old3 := share1, share2, share3;
      share1, share2, share3 := new1, new2, new3;
      Discard(old1, old2, old3);
      SecureZero(secret);
      CombinedOfSplit(value, r1.value, r2.value);
      return true;
    }

    /** Erases the arrays and drops them. */
    method Zeroize()
      requires Live() || Erased()
      modifies this, share1, share2, share3
      ensures Erased()
      ensures old(Live()) ==> Blank(old(share1)) && Blank(old(share2)) && Blank(old(share3))
    {
      if share1 != null {
        SecureZero(share1);
      }
      if share2 != null {
        SecureZero(share2);
      }
      if share3 != null {
        SecureZero(share3);
      }
      share1, share2, share3 := null, null, null;
    }

    method IsValid() returns (valid: bool)
      requires Live() || Erased()
      ensures valid <==> Live()
    {
      return share1 != null && share2 != null && share3 != null &&
        share1.Length == share2.Length && share2.Length == share3.Length;
    }
  }
}
