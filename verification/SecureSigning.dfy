/** Signing with a key that only exists as XOR shares (internal/security/secure_signer.go). */
module SecureSigning {
  import opened Common
  import opened SecretSharing

  const BITCOIN_CHAINS: set<string> := {"bitcoin", "bitcoin-mainnet", "bitcoin-testnet", "bitcoin-regtest"}

  const EVM_CHAINS: set<string> := {
    "ethereum", "ethereum-mainnet", "ethereum-goerli", "ethereum-sepolia",
    "bsc", "bsc-mainnet", "bsc-testnet", "bnb", "bnb-testnet",
    "polygon", "polygon-mainnet", "polygon-amoy",
    "arbitrum", "arbitrum-mainnet", "arbitrum-sepolia",
    "optimism", "optimism-mainnet", "optimism-sepolia",
    "base", "base-mainnet", "base-sepolia"}

  /** ECDSA: key and payload to a signature, or an error. */
  type Scheme = (Octets, Octets) -> Option<Octets>

  datatype Crypto = Crypto(bitcoin: Scheme, evm: Scheme)

  datatype Refreshing = Done | Failed | RefreshPanic

  datatype Outcome = Signed(signature: Octets) | CryptoError | AddressMismatch | Unsupported | NoKey | NilPanic

  function Ran(r: Option<Octets>): Outcome {
    match r
    case None => CryptoError
    case Some(s) => Signed(s)
  }

  /** Signing with a key in the open: what a signer should amount to. */
  function PlainSign(crypto: Crypto, key: Octets, keyAddress: string, chainID: string,
                     payload: Octets, address: string): Outcome {
    if keyAddress != address then AddressMismatch
    else if chainID in BITCOIN_CHAINS then Ran(crypto.bitcoin(key, payload))
    else if chainID in EVM_CHAINS then Ran(crypto.evm(key, payload))
    else Unsupported
  }

  function PlainSignHash(crypto: Crypto, key: Octets, keyAddress: string, chainID: string,
                         hash: Octets, address: string): Outcome {
    if keyAddress != address then AddressMismatch
    else if chainID !in EVM_CHAINS then Unsupported
    else Ran(crypto.evm(key, hash))
  }

  /** Which scheme signs for which chain: ECDSA as Bitcoin or as Ethereum does it. */
  lemma SchemeOf(crypto: Crypto, key: Octets, a: string, chainID: string, payload: Octets)
    ensures chainID in {"bitcoin", "bitcoin-mainnet", "bitcoin-testnet", "bitcoin-regtest"} ==>
              PlainSign(crypto, key, a, chainID, payload, a) == Ran(crypto.bitcoin(key, payload)) &&
              PlainSignHash(crypto, key, a, chainID, payload, a) == Unsupported
    ensures chainID in {"ethereum", "ethereum-mainnet", "ethereum-goerli", "ethereum-sepolia",
                        "bsc", "bsc-mainnet", "bsc-testnet", "bnb", "bnb-testnet",
                        "polygon", "polygon-mainnet", "polygon-amoy",
                        "arbitrum", "arbitrum-mainnet", "arbitrum-sepolia",
                        "optimism", "optimism-mainnet", "optimism-sepolia",
                        "base", "base-mainnet", "base-sepolia"} <==>
            PlainSignHash(crypto, key, a, chainID, payload, a) != Unsupported
    ensures PlainSignHash(crypto, key, a, chainID, payload, a) != Unsupported ==>
              PlainSign(crypto, key, a, chainID, payload, a) == PlainSignHash(crypto, key, a, chainID, payload, a) ==
                Ran(crypto.evm(key, payload))
    ensures PlainSign(crypto, key, a, chainID, payload, a) == Unsupported <==>
            chainID !in {"bitcoin", "bitcoin-mainnet", "bitcoin-testnet", "bitcoin-regtest"} &&
            PlainSignHash(crypto, key, a, chainID, payload, a) == Unsupported
  {
  }

  /** The address is checked before anything else. */
  lemma AddressChecked(crypto: Crypto, key: Octets, keyAddress: string, chainID: string, payload: Octets, address: string)
    ensures PlainSign(crypto, key, keyAddress, chainID, payload, address) == AddressMismatch <==> keyAddress != address
    ensures PlainSignHash(crypto, key, keyAddress, chainID, payload, address) == AddressMismatch <==> keyAddress != address
  {
  }

  class SecureSigner {
    var shares: SecretShares?
    const address: string
    const chainID: string

    ghost predicate Live()
      reads this, shares
    {
      shares != null && shares.Live()
    }

    /** The key, which no field of the signer holds. */
    ghost function Key(): Octets
      requires Live()
      reads this, shares, shares.share1, shares.share2, shares.share3
    {
      shares.Contents().Combined()
    }

    constructor (shares: SecretShares, address: string, chainID: string)
      ensures this.shares == shares && this.address == address && this.chainID == chainID
    {
      this.shares, this.address, this.chainID := shares, address, chainID;
    }

    /** Takes a 32-byte key over: on success the signer holds it and the caller's
        copy is erased; on failure the copy is left alone. */
    static method NewSecureSigner(privateKey: array<bv8>, address: string, chainID: string,
                                  r1: Option<Octets>, r2: Option<Octets>)
      returns (signer: SecureSigner?)
      requires Readable(r1, privateKey.Length) && Readable(r2, privateKey.Length)
      modifies privateKey
      ensures signer != null <==> privateKey.Length == 32 && address != "" && r1.Some? && r2.Some?
      ensures signer == null ==> privateKey[..] == old(privateKey[..])
      ensures signer != null ==> fresh(signer) && signer.Live() && fresh(signer.shares) &&
                                 fresh(signer.shares.share1) && fresh(signer.shares.share2) && fresh(signer.shares.share3)
      ensures signer != null ==> signer.Key() == old(privateKey[..]) && Blank(privateKey)
      ensures signer != null ==> signer.address == address && signer.chainID == chainID
    {
      if privateKey.Length != 32 || address == "" {
        return null;
      }
      ghost var key := privateKey[..];
      var shares := SecretShares.SplitSecret(privateKey, r1, r2);
      if shares == null {
        return null;
      }
      CombinedOfSplit(key, r1.value, r2.value);
      signer := new SecureSigner(shares, address, chainID);
    }

    /** A live signer signs as the plain key would; one whose shares pointer is
        gone dereferences nil unless the address is wrong. Whatever happens, no
        array made on the way still holds anything. */
    method Sign(crypto: Crypto, payload: Octets, address: string) returns (r: Outcome)
      requires shares == null || shares.Live() || shares.Erased()
      ensures Live() ==> r == PlainSign(crypto, Key(), this.address, chainID, payload, address)
      ensures !Live() ==> r == if this.address != address then AddressMismatch
                               else if shares == null then NilPanic else NoKey
      ensures forall a: array<bv8> :: fresh(a) ==> Blank(a)
    {
      if this.address != address {
        return AddressMismatch;
      }
      if shares == null {
        return NilPanic;
      }
      var privateKey := shares.Reconstruct();
      if privateKey == null {
        return NoKey;
      }
      if chainID in BITCOIN_CHAINS {
        r := Ran(crypto.bitcoin(privateKey[..], payload));
      } else if chainID in EVM_CHAINS {
        r := Ran(crypto.evm(privateKey[..], payload));
      } else {
        r := Unsupported;
      }
      SecureZero(privateKey);
    }

    method SignHash(crypto: Crypto, hash: Octets, address: string) returns (r: Outcome)
      requires shares == null || shares.Live() || shares.Erased()
      ensures Live() ==> r == PlainSignHash(crypto, Key(), this.address, chainID, hash, address)
      ensures !Live() ==> r == if this.address != address then AddressMismatch
                               else if chainID !in EVM_CHAINS then Unsupported
                               else if shares == null then NilPanic else NoKey
      ensures forall a: array<bv8> :: fresh(a) ==> Blank(a)
    {
      if this.address != address {
        return AddressMismatch;
      }
      if chainID !in EVM_CHAINS {
        return Unsupported;
      }
      if shares == null {
        return NilPanic;
      }
      var privateKey := shares.Reconstruct();
      if privateKey == null {
        return NoKey;
      }
      r := Ran(crypto.evm(privateKey[..], hash));
      SecureZero(privateKey);
    }

    /** The share arrays, as far as there are any. */
    ghost function Arrays(): set<array<bv8>>
      reads this, shares
    {
      if shares == null then {} else set a: array<bv8> | a in [shares.share1, shares.share2, shares.share3]
    }

    /** Never changes the key of a live signer, whether it succeeds or not; without
        shares it dereferences nil. */
    method Refresh(r1: Option<Octets>, r2: Option<Octets>) returns (r: Refreshing)
      requires shares == null || shares.Live() || shares.Erased()
      requires Live() ==> Readable(r1, shares.share1.Length) && Readable(r2, shares.share1.Length)
      modifies shares, Arrays()
      ensures r == if shares == null then RefreshPanic else if old(Live()) && r1.Some? && r2.Some? then Done else Failed
      ensures old(Live()) ==> Live() && Key() == old(Key()) && shares.share1.Length == old(shares.share1.Length)
      ensures r == Done ==> fresh(Arrays())
      ensures shares != null && r != Done ==> unchanged(shares)
      ensures forall a: array<bv8> :: fresh(a) ==> Blank(a) || (r == Done && a in Arrays())
    {
      if shares == null {
        return RefreshPanic;
      }
      var ok := shares.Refresh(r1, r2);
      r := if ok then Done else Failed;
    }

    /** After any run of refreshes, failed ones among them, the signer signs as the
        key it was made from. */
    method SignAfterRefreshes(crypto: Crypto, script: seq<Attempt>, payload: Octets, address: string) returns (r: Outcome)
      requires Live() && Fits(script, shares.share1.Length)
      modifies shares, Arrays()
      ensures r == PlainSign(crypto, old(Key()), this.address, chainID, payload, address)
      ensures Live() && Key() == old(Key())
    {
      for i := 0 to |script|
        invariant Live() && Key() == old(Key()) && shares.share1.Length == old(shares.share1.Length)
        invariant Arrays() == old(Arrays()) || fresh(Arrays())
      {
        var _ := Refresh(script[i].r1, script[i].r2);
      }
      r := Sign(crypto, payload, address);
    }

    /** Erases the key; a second call does nothing. */
    method Zeroize()
      requires shares == null || Live()
      modifies this, shares, Arrays()
      ensures shares == null
      ensures old(Live()) ==> old(shares).Erased()
      ensures forall a :: a in old(Arrays()) ==> Blank(a)
    {
      if shares != null {
        shares.Zeroize();
        shares := null;
      }
    }

    method IsValid() returns (valid: bool)
      requires shares == null || shares.Live() || shares.Erased()
      ensures valid <==> Live() && address != ""
    {
      if shares == null {
        return false;
      }
      valid := shares.IsValid();
      valid := valid && address != "";
    }
  }
}
