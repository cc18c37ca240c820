/** What a developer session may sign for, and which signers it is given
    (internal/app/dev_session.go). */
module DevPolicy {
  import opened Common
  import opened Positional
  import opened Text

  // ----- which chains may be signed for

  function TestnetName(chainID: int): Option<string> {
    match chainID
    case 5 => Some("goerli")
    case 11155111 => Some("sepolia")
    case 97 => Some("bsc-testnet")
    case 80001 => Some("mumbai")
    case 421613 => Some("arbitrum-goerli")
    case 420 => Some("optimism-goerli")
    case 84531 => Some("base-goerli")
    case _ => None
  }

  function MainnetName(chainID: int): Option<string> {
    match chainID
    case 1 => Some("ethereum")
    case 56 => Some("bsc")
    case 137 => Some("polygon")
    case 42161 => Some("arbitrum")
    case 10 => Some("optimism")
    case 8453 => Some("base")
    case _ => None
  }

  /** chainIDToNetworkName */
  function NetworkName(chainID: int): string {
    match TestnetName(chainID)
    case Some(name) => name
    case None =>
      match MainnetName(chainID)
      case Some(name) => name
      case None => "chain-" + Decimal(chainID)
  }

  function KnownName(chainID: int): Option<string> {
    if TestnetName(chainID).Some? then TestnetName(chainID) else MainnetName(chainID)
  }

  /** The names, written out; any other chain is named by its number. */
  lemma NamesExactly(n: int)
    ensures NetworkName(1) == "ethereum" && NetworkName(56) == "bsc" && NetworkName(137) == "polygon"
    ensures NetworkName(42161) == "arbitrum" && NetworkName(10) == "optimism" && NetworkName(8453) == "base"
    ensures NetworkName(5) == "goerli" && NetworkName(11155111) == "sepolia" && NetworkName(97) == "bsc-testnet"
    ensures NetworkName(80001) == "mumbai" && NetworkName(421613) == "arbitrum-goerli"
    ensures NetworkName(420) == "optimism-goerli" && NetworkName(84531) == "base-goerli"
    ensures n !in {1, 56, 137, 42161, 10, 8453, 5, 11155111, 97, 80001, 421613, 420, 84531} ==>
              NetworkName(n) == "chain-" + Decimal(n)
  {
    hide Decimal;
  }

  lemma KnownNamesInjective(a: int, b: int)
    requires KnownName(a).Some? && KnownName(a) == KnownName(b)
    ensures a == b
  {
    var name := KnownName(a).value;
    assert |name| >= 3;
  }

  lemma KnownNamesArePlain(a: int)
    requires KnownName(a).Some?
    ensures !("chain-" <= KnownName(a).value)
  {
    assert KnownName(a).value[0] != 'c';
  }

  /** No two chain ids share a network name, so trusting a name trusts one chain. */
  lemma NetworkNameInjective(a: int, b: int)
    ensures NetworkName(a) == NetworkName(b) <==> a == b
  {
    hide Decimal, KnownName;
    if NetworkName(a) == NetworkName(b) {
      NameCases(a);
      NameCases(b);
      if KnownName(a).Some? && KnownName(b).Some? {
        KnownNamesInjective(a, b);
      } else if KnownName(a).Some? {
        KnownNamesArePlain(a);
      } else if KnownName(b).Some? {
        KnownNamesArePlain(b);
      } else {
        assert Decimal(a) == NetworkName(a)[6..] == NetworkName(b)[6..] == Decimal(b);
        ParseOfDecimal(a);
        ParseOfDecimal(b);
      }
    }
  }

  lemma NameCases(a: int)
    ensures NetworkName(a) == if KnownName(a).Some? then KnownName(a).value else "chain-" + Decimal(a)
  {
  }

  /** Whether SignTransaction goes on for a chain: never for a mainnet, otherwise
      if its name is trusted. */
  predicate ChainAllowed(chainID: int, trusted: seq<string>) {
    MainnetName(chainID).None? && NetworkName(chainID) in trusted
  }

  /** Each name of a test network trusts its own chain, whatever else is asked for. */
  lemma TrustedChain(c: int)
    ensures ChainAllowed(c, ["goerli"]) <==> c == 5
    ensures ChainAllowed(c, ["sepolia"]) <==> c == 11155111
    ensures ChainAllowed(c, ["bsc-testnet"]) <==> c == 97
    ensures ChainAllowed(c, ["mumbai"]) <==> c == 80001
    ensures ChainAllowed(c, ["arbitrum-goerli"]) <==> c == 421613
    ensures ChainAllowed(c, ["optimism-goerli"]) <==> c == 420
    ensures ChainAllowed(c, ["base-goerli"]) <==> c == 84531
  {
    OneTrusted(c, 5, "goerli");
    OneTrusted(c, 11155111, "sepolia");
    OneTrusted(c, 97, "bsc-testnet");
    OneTrusted(c, 80001, "mumbai");
    OneTrusted(c, 421613, "arbitrum-goerli");
    OneTrusted(c, 420, "optimism-goerli");
    OneTrusted(c, 84531, "base-goerli");
  }

  lemma OneTrusted(c: int, n: int, name: string)
    requires NetworkName(n) == name && MainnetName(n).None?
    ensures ChainAllowed(c, [name]) <==> c == n
  {
    NetworkNameInjective(c, n);
    hide NetworkName, MainnetName;
  }

  /** Any other chain is trusted by its number; a mainnet never is, not even by its name. */
  lemma OtherChains(c: int, n: int, trusted: seq<string>)
    ensures c in {1, 56, 137, 42161, 10, 8453} <==> MainnetName(c).Some?
    ensures c in {1, 56, 137, 42161, 10, 8453} ==> !ChainAllowed(c, trusted)
    ensures n !in {1, 56, 137, 42161, 10, 8453, 5, 11155111, 97, 80001, 421613, 420, 84531} ==>
              (ChainAllowed(c, ["chain-" + Decimal(n)]) <==> c == n)
  {
    hide Decimal;
    NetworkNameInjective(c, n);
    NameCases(n);
  }

  /** A list trusts what its names trust. */
  lemma TrustedByOne(c: int, trusted: seq<string>)
    ensures ChainAllowed(c, trusted) <==> exists i :: 0 <= i < |trusted| && ChainAllowed(c, [trusted[i]])
  {
    hide NetworkName;
    if ChainAllowed(c, trusted) {
      var i :| 0 <= i < |trusted| && trusted[i] == NetworkName(c);
      assert ChainAllowed(c, [trusted[i]]);
    }
  }

  // ----- which chains have an adapter that takes their transactions

  /** chainIDToAdapterID */
  function AdapterID(chainID: int): string {
    match chainID
    case 1 => "ethereum"
    case 56 => "bsc"
    case 137 => "polygon"
    case 42161 => "arbitrum"
    case 10 => "optimism"
    case 8453 => "base"
    case 5 => "ethereum-goerli"
    case 11155111 => "ethereum-sepolia"
    case 97 => "bsc-testnet"
    case 80001 => "polygon-mumbai"
    case 421613 => "arbitrum-goerli"
    case 420 => "optimism-goerli"
    case 84531 => "base-goerli"
    case _ => "ethereum-" + Decimal(chainID)
  }

  /** Service.GetAdapter: the network id of the EVM adapter made for an adapter id.
      AdapterID gives no id of a Bitcoin adapter. */
  function NetworkOf(adapterID: string): Option<int> {
    if adapterID == "ethereum" then Some(1)
    else if adapterID == "ethereum-goerli" then Some(5)
    else if adapterID == "ethereum-sepolia" then Some(11155111)
    else if adapterID in {"bsc", "bsc-mainnet", "bnb"} then Some(56)
    else if adapterID in {"bsc-testnet", "bnb-testnet"} then Some(97)
    else if adapterID in {"polygon", "polygon-mainnet"} then Some(137)
    else if adapterID in {"arbitrum", "arbitrum-mainnet"} then Some(42161)
    else if adapterID in {"optimism", "optimism-mainnet"} then Some(10)
    else if adapterID in {"base", "base-mainnet"} then Some(8453)
    else if adapterID in {"avalanche", "avax", "avalanche-mainnet"} then Some(43114)
    else None
  }

  /** networkIDToChainID: the adapter id such an adapter signs for. */
  function AdapterChain(networkID: int): string {
    match networkID
    case 5 => "ethereum-goerli"
    case 11155111 => "ethereum-sepolia"
    case 56 => "bnb"
    case 97 => "bnb-testnet"
    case 137 => "polygon"
    case 42161 => "arbitrum"
    case 10 => "optimism"
    case 8453 => "base"
    case 43114 => "avalanche"
    case _ => "ethereum"
  }

  /** A transaction for the chain gets through its adapter to the signer. */
  predicate AdapterTakes(chainID: int) {
    var id := AdapterID(chainID);
    NetworkOf(id).Some? && AdapterChain(NetworkOf(id).value) == id
  }

  const ADAPTED: set<int> := {1, 137, 42161, 10, 8453, 5, 11155111}

  const TABLED: set<int> := {1, 56, 137, 42161, 10, 8453, 5, 11155111, 97, 80001, 421613, 420, 84531}

  lemma KnownIDs(id: string)
    requires NetworkOf(id).Some? && id != "" && id[0] == 'e'
    ensures id == "ethereum" || (|id| > 9 && (id[9] == 'g' || id[9] == 's'))
  {
  }

  /** An id made of a number is none that the service knows. */
  lemma NumberedUnknown(chainID: int)
    ensures NetworkOf("ethereum-" + Decimal(chainID)) == None
  {
    hide NetworkOf, Decimal;
    var digits := Decimal(chainID);
    var id := "ethereum-" + digits;
    DecimalStart(chainID);
    assert |id| > 9 && id[0] == 'e' && id[9] == digits[0];
    if NetworkOf(id).Some? {
      KnownIDs(id);
      assert false;
    }
  }

  lemma DecimalStart(n: int)
    ensures Decimal(n) != "" && (Decimal(n)[0] == '-' || '0' <= Decimal(n)[0] <= '9')
  {
    var digits := Natural(Ten, if n < 0 then -n else n);
    ParseOfNatural(Ten, if n < 0 then -n else n);
    assert digits != "" && DigitVal(digits[0]) < 10;
  }

  /** The adapter service makes an adapter of the chain itself for nine of the chains and
      none for the other four; of the nine, two sign under an id that is not the one asked for. */
  lemma AdaptersExactly(c: int)
    ensures c in {1, 137, 42161, 10, 8453, 5, 11155111} ==>
              NetworkOf(AdapterID(c)) == Some(c) && AdapterChain(c) == AdapterID(c)
    ensures c in {56, 97} ==> NetworkOf(AdapterID(c)) == Some(c) && AdapterChain(c) != AdapterID(c)
    ensures c in {80001, 421613, 420, 84531} ==> NetworkOf(AdapterID(c)) == None
  {
    hide Decimal;
    if c in {1, 137, 42161, 10, 8453, 5, 11155111} {
      AdapterTakesExactly(c);
    }
  }

  /** The ids that no adapter takes, and what the two mismatched adapters sign under. */
  lemma UntakenIDs()
    ensures AdapterID(56) == "bsc" && AdapterChain(56) == "bnb"
    ensures AdapterID(97) == "bsc-testnet" && AdapterChain(97) == "bnb-testnet"
    ensures AdapterID(80001) == "polygon-mumbai" && AdapterID(421613) == "arbitrum-goerli"
    ensures AdapterID(420) == "optimism-goerli" && AdapterID(84531) == "base-goerli"
  {
  }

  /** The service's other names for the chains. */
  lemma OtherNames()
    ensures NetworkOf("bsc-mainnet") == NetworkOf("bnb") == Some(56) && NetworkOf("bnb-testnet") == Some(97)
    ensures NetworkOf("polygon-mainnet") == Some(137) && NetworkOf("arbitrum-mainnet") == Some(42161)
    ensures NetworkOf("optimism-mainnet") == Some(10) && NetworkOf("base-mainnet") == Some(8453)
    ensures NetworkOf("avalanche") == NetworkOf("avax") == NetworkOf("avalanche-mainnet") == Some(43114)
    ensures AdapterChain(43114) == "avalanche"
  {
  }

  lemma AdapterTakesExactly(chainID: int)
    ensures AdapterTakes(chainID) <==> chainID in ADAPTED
  {
    if chainID !in TABLED {
      NumberedUnknown(chainID);
    }
  }

  /** The only chains a transaction gets past the policy and the adapter for are Goerli
      and Sepolia; two of the four networks trusted by default are not among them. */
  lemma SignableExactly(chainID: int, trusted: seq<string>)
    ensures ChainAllowed(chainID, trusted) && AdapterTakes(chainID) <==>
            chainID in {5, 11155111} && NetworkName(chainID) in trusted
  {
    AdapterTakesExactly(chainID);
  }

  // ----- CreateSession: configuration and signers

  const MINUTE: int := 60_000_000_000

  const DEFAULT_TRUSTED: seq<string> := ["sepolia", "goerli", "bsc-testnet", "mumbai"]

  lemma DefaultTrust(c: int)
    ensures ChainAllowed(c, DEFAULT_TRUSTED) <==> c in {11155111, 5, 97, 80001}
  {
    TrustedChain(c);
    hide NetworkName;
  }

  function ClampMinutes(minutes: int): int {
    if minutes <= 0 then 30 else if minutes > 120 then 120 else minutes
  }

  /** A row of the address book; ownKey says that the key derived for it is valid
      and belongs to its address, splits that the random reads succeed when the
      signer splits it. */
  datatype Row = Row(coinType: nat, address: string, ownKey: bool, splits: bool)

  predicate Usable(r: Row) {
    r.coinType in {60, 714, 966} && r.ownKey && r.address != "" && r.splits
  }

  /** A session lasts what was asked for, from one minute to two hours, half an hour
      when nothing was. */
  lemma ClampExactly(minutes: int)
    ensures 0 < minutes <= 120 ==> ClampMinutes(minutes) * MINUTE == minutes * 60_000_000_000
    ensures minutes <= 0 ==> ClampMinutes(minutes) * MINUTE == 1_800_000_000_000
    ensures minutes > 120 ==> ClampMinutes(minutes) * MINUTE == 7_200_000_000_000
  {
  }

  /** Ethereum, BNB and Polygon rows are used; each of the other reasons skips a row. */
  lemma UsableExactly(r: Row)
    ensures Usable(r) <==> (r.coinType == 60 || r.coinType == 714 || r.coinType == 966) && r.ownKey && r.splits && r.address != ""
  {
  }

  /** signers gives, for the address of every usable row, the last such row. */
  ghost predicate LastRows(rows: seq<Row>, signers: map<string, nat>) {
    (forall k :: k in signers ==>
       signers[k] < |rows| && Usable(rows[signers[k]]) && Lower(rows[signers[k]].address) == k) &&
    (forall i :: 0 <= i < |rows| && Usable(rows[i]) ==>
       Lower(rows[i].address) in signers && i <= signers[Lower(rows[i].address)])
  }

  /** A signer is made for every usable row and stored under the lowercased
      address; a later row with the same address replaces it. */
  method LoadSigners(rows: seq<Row>) returns (signers: map<string, nat>)
    ensures LastRows(rows, signers)
  {
    signers := map[];
    for i := 0 to |rows|
      invariant LastRows(rows[..i], signers)
    {
      assert rows[..i + 1] == rows[..i] + [rows[i]];
      if Usable(rows[i]) {
        signers := signers[Lower(rows[i].address) := i];
      }
    }
    assert rows[..|rows|] == rows;
  }

  /** Every signer that was made can still be reached, and so will be erased with
      the session, exactly when no two usable rows have the same address. */
  lemma NoSignerLostIffDistinct(rows: seq<Row>, signers: map<string, nat>)
    requires LastRows(rows, signers)
    ensures (forall i :: 0 <= i < |rows| && Usable(rows[i]) ==> i in signers.Values) <==>
            (forall i, j :: 0 <= i < j < |rows| && Usable(rows[i]) && Usable(rows[j]) ==>
               Lower(rows[i].address) != Lower(rows[j].address))
  {
    hide Usable, Lower;
    if forall i, j :: 0 <= i < j < |rows| && Usable(rows[i]) && Usable(rows[j]) ==>
         Lower(rows[i].address) != Lower(rows[j].address) {
      forall i | 0 <= i < |rows| && Usable(rows[i]) ensures i in signers.Values {
        var k := Lower(rows[i].address);
        assert signers[k] == i;
      }
    }
    if forall i :: 0 <= i < |rows| && Usable(rows[i]) ==> i in signers.Values {
      forall i, j | 0 <= i < j < |rows| && Usable(rows[i]) && Usable(rows[j])
        ensures Lower(rows[i].address) != Lower(rows[j].address)
      {
        var k :| k in signers && signers[k] == i;
        assert j <= signers[Lower(rows[j].address)];
      }
    }
  }
}
