/** The token list of a balance query: touched tokens
    (internal/provider/touched_tokens.go), the curated list
    (common_tokens.go) and the wallet's addresses (balance_addresses.go). */
module Tokens {
  import opened Common
  import opened Text

  datatype CommonToken = CommonToken(symbol: string, address: string, decimals: int)

  datatype TokenRef = TokenRef(address: string, network: string, symbol: string, decimals: int)

  /** Aliases of a network, in the format of one provider, to the internal id. */
  function NormalizeNetwork(network: string): string {
    match network
    case "arb-mainnet" => "arbitrum-mainnet"
    case "opt-mainnet" => "optimism-mainnet"
    case "arb-sepolia" => "arbitrum-sepolia"
    case "opt-sepolia" => "optimism-sepolia"
    case _ => network
  }

  /** The four aliases and what they stand for; every other id stands for itself. */
  lemma AliasesExactly(network: string)
    ensures NormalizeNetwork("arb-mainnet") == "arbitrum-mainnet" && NormalizeNetwork("opt-mainnet") == "optimism-mainnet"
    ensures NormalizeNetwork("arb-sepolia") == "arbitrum-sepolia" && NormalizeNetwork("opt-sepolia") == "optimism-sepolia"
    ensures network !in {"arb-mainnet", "opt-mainnet", "arb-sepolia", "opt-sepolia"} ==> NormalizeNetwork(network) == network
  {
  }

  // ----- merging the curated list with touched tokens

  type Curated = map<string, seq<CommonToken>>

  function CommonTokensFor(table: Curated, network: string): seq<CommonToken> {
    var n := NormalizeNetwork(network);
    if n in table then table[n] else []
  }

  function Addresses(ts: seq<CommonToken>): set<string> {
    set t | t in ts :: Lower(t.address)
  }

  function AsCommon(e: TokenRef): CommonToken {
    CommonToken(e.symbol, Lower(e.address), e.decimals)
  }

  /** The list after the touched tokens in order: those of other networks and
      those whose address is there already are skipped. */
  function Extended(base: seq<CommonToken>, network: string, extra: seq<TokenRef>): seq<CommonToken> {
    if extra == [] then base
    else
      var front, e := Extended(base, network, extra[..|extra| - 1]), extra[|extra| - 1];
      if NormalizeNetwork(e.network) != network || Lower(e.address) in Addresses(front) then front
      else front + [AsCommon(e)]
  }

  function Merged(table: Curated, network: string, extra: seq<TokenRef>): seq<CommonToken> {
    Extended(CommonTokensFor(table, NormalizeNetwork(network)), NormalizeNetwork(network), extra)
  }

  method MergeTokensForNetwork(table: Curated, network: string, extra: seq<TokenRef>)
    returns (out: seq<CommonToken>)
    ensures out == Merged(table, network, extra)
  {
    var normalized := NormalizeNetwork(network);
    out := CommonTokensFor(table, normalized);
    ghost var base := out;
    var seen: set<string> := {};
    for i := 0 to |out|
      invariant seen == Addresses(out[..i])
    {
      assert out[..i + 1] == out[..i] + [out[i]];
      seen := seen + {Lower(out[i].address)};
    }
    assert out[..|out|] == out;
    for i := 0 to |extra|
      invariant out == Extended(base, normalized, extra[..i]) && seen == Addresses(out)
    {
      var e := extra[i];
      assert extra[..i + 1][..i] == extra[..i];
      if NormalizeNetwork(e.network) == normalized {
        var addr := Lower(e.address);
        if addr !in seen {
          seen := seen + {addr};
          LowerIdempotent(e.address);
          out := out + [CommonToken(e.symbol, addr, e.decimals)];
        }
      }
    }
    assert extra[..|extra|] == extra;
  }

  /** t is one of the touched tokens of the network. */
  ghost predicate TouchedOn(network: string, extra: seq<TokenRef>, t: CommonToken) {
    exists e :: e in extra && NormalizeNetwork(e.network) == network && t == CommonToken(e.symbol, Lower(e.address), e.decimals)
  }

  /** The curated tokens come first and unchanged; every later one is a touched
      token of the network, in lower case, whose address occurs nowhere before it;
      and every touched token of the network is represented. */
  lemma {:induction false} ExtendedExact(base: seq<CommonToken>, network: string, extra: seq<TokenRef>)
    ensures base <= Extended(base, network, extra)
    ensures forall i :: |base| <= i < |Extended(base, network, extra)| ==>
              TouchedOn(network, extra, Extended(base, network, extra)[i])
    ensures forall i, j :: 0 <= i < j < |Extended(base, network, extra)| && |base| <= j ==>
              Lower(Extended(base, network, extra)[i].address) != Lower(Extended(base, network, extra)[j].address)
    ensures forall e :: e in extra && NormalizeNetwork(e.network) == network ==>
              Lower(e.address) in Addresses(Extended(base, network, extra))
  {
    hide NormalizeNetwork, Lower;
    if extra != [] {
      var front, e := extra[..|extra| - 1], extra[|extra| - 1];
      ExtendedExact(base, network, front);
      assert extra == front + [e];
      var list, all := Extended(base, network, front), Extended(base, network, extra);
      LowerIdempotent(e.address);
      forall i | |base| <= i < |all| ensures TouchedOn(network, extra, all[i]) {
        if i < |list| {
          assert all[i] == list[i] && TouchedOn(network, front, list[i]);
          var e' :| e' in front && NormalizeNetwork(e'.network) == network && list[i] == AsCommon(e');
          assert e' in extra;
        } else {
          assert e in extra;
        }
      }
      if all != list {
        assert all == list + [AsCommon(e)];
        assert Addresses(all) == Addresses(list) + {Lower(e.address)};
        forall i | 0 <= i < |list| ensures Lower(list[i].address) != Lower(e.address) {
          assert Lower(list[i].address) in Addresses(list);
        }
      }
    }
  }

  lemma NormalizeIdempotent(network: string)
    ensures NormalizeNetwork(NormalizeNetwork(network)) == NormalizeNetwork(network)
  {
  }

  /** The merged list starts with what the table has for the network under its internal id. */
  lemma CuratedFirst(table: Curated, network: string, extra: seq<TokenRef>)
    ensures NormalizeNetwork(network) in table ==> table[NormalizeNetwork(network)] <= Merged(table, network, extra)
    ensures NormalizeNetwork(network) !in table ==>
              forall i :: 0 <= i < |Merged(table, network, extra)| ==>
                TouchedOn(NormalizeNetwork(network), extra, Merged(table, network, extra)[i])
  {
    hide NormalizeNetwork, Extended, TouchedOn;
    NormalizeIdempotent(network);
    ExtendedExact(CommonTokensFor(table, NormalizeNetwork(network)), NormalizeNetwork(network), extra);
  }

  /** Another touched token only ever adds to the end of the list. */
  lemma MergedGrows(table: Curated, network: string, extra: seq<TokenRef>, e: TokenRef)
    ensures Merged(table, network, extra) <= Merged(table, network, extra + [e])
  {
    assert (extra + [e])[..|extra|] == extra;
  }

  // ----- the touched-token store

  datatype Contents = Contents(tokens: map<string, seq<TokenRef>>, lastScanned: map<string, nat>)

  function TokensOf(c: Contents, user: string): seq<TokenRef> {
    if user in c.tokens then c.tokens[user] else []
  }

  /** Where the scan of a network stopped, 0 if it never started. */
  function Cursor(c: Contents, network: string): nat {
    var n := NormalizeNetwork(network);
    if n in c.lastScanned then c.lastScanned[n] else 0
  }

  lemma NeverScanned(c: Contents, network: string)
    ensures NormalizeNetwork(network) !in c.lastScanned ==> Cursor(c, network) == 0
  {
  }

  /** The token is recorded: same network, same address up to case. */
  predicate Known(c: Contents, user: string, tok: TokenRef) {
    exists i :: 0 <= i < |TokensOf(c, user)| && SameToken(TokensOf(c, user)[i], tok)
  }

  predicate SameToken(e: TokenRef, tok: TokenRef) {
    e.network == NormalizeNetwork(tok.network) && Lower(e.address) == Lower(tok.address)
  }

  function Stored(tok: TokenRef): TokenRef {
    tok.(address := Lower(tok.address), network := NormalizeNetwork(tok.network))
  }

  class TouchedTokenStore {
    var mem: Contents
    var disk: Contents

    constructor (file: Contents)
      ensures mem == file && disk == file
    {
      mem, disk := file, file;
    }

    method Save(saved: bool) returns (ok: bool)
      modifies `disk
      ensures ok == saved && disk == if saved then mem else old(disk)
    {
      if saved {
        disk := mem;
      }
      return saved;
    }

    /** Records a token unless it is known. A failed save is reported but not
        rolled back; so after a call that reports success the token is known in
        memory, and it is on disk exactly if it was new, or had been on disk. */
    method AddToken(user: string, tok: TokenRef, saved: bool) returns (ok: bool)
      modifies this
      ensures ok <==> old(Known(mem, user, tok)) || saved
      ensures mem == if old(Known(mem, user, tok)) then old(mem)
                     else old(mem).(tokens := old(mem).tokens[user := TokensOf(old(mem), user) + [Stored(tok)]])
      ensures !old(Known(mem, user, tok)) ==>
                TokensOf(mem, user) == TokensOf(old(mem), user) +
                  [TokenRef(Lower(tok.address), NormalizeNetwork(tok.network), tok.symbol, tok.decimals)] &&
                mem.lastScanned == old(mem.lastScanned) && forall u :: u != user ==> TokensOf(mem, u) == TokensOf(old(mem), u)
      ensures disk == if !old(Known(mem, user, tok)) && saved then mem else old(disk)
      ensures Known(mem, user, tok)
      ensures ok ==> (Known(disk, user, tok) <==> !old(Known(mem, user, tok)) || old(Known(disk, user, tok)))
    {
      hide NormalizeNetwork, Lower;
      var t := Stored(tok);
      LowerIdempotent(tok.address);
      assert NormalizeNetwork(t.network) == t.network by { NormalizeIdempotent(tok.network); }
      var existing := TokensOf(mem, user);
      for i := 0 to |existing|
        invariant forall k :: 0 <= k < i ==> !SameToken(existing[k], tok)
      {
        if existing[i].network == t.network && Lower(existing[i].address) == t.address {
          assert SameToken(TokensOf(mem, user)[i], tok);
          return true;
        }
      }
      mem := mem.(tokens := mem.tokens[user := existing + [t]]);
      assert SameToken(TokensOf(mem, user)[|existing|], tok);
      ok := Save(saved);
    }

    /** Every alias of the network reads the new cursor from now on, every other
        network the one it had. */
    method SetLastScannedBlock(network: string, block: nat, saved: bool) returns (ok: bool)
      modifies this
      ensures forall n :: Cursor(mem, n) == if NormalizeNetwork(n) == NormalizeNetwork(network) then block else Cursor(old(mem), n)
      ensures mem == old(mem).(lastScanned := old(mem).lastScanned[NormalizeNetwork(network) := block])
      ensures ok == saved && disk == if saved then mem else old(disk)
    {
      mem := mem.(lastScanned := mem.lastScanned[NormalizeNetwork(network) := block]);
      ok := Save(saved);
    }
  }

  /** A known token is in the balance query of every alias of its network. */
  lemma KnownTokenIsQueried(table: Curated, c: Contents, user: string, tok: TokenRef, queried: string)
    requires Known(c, user, tok) && NormalizeNetwork(queried) == NormalizeNetwork(tok.network)
    ensures Lower(tok.address) in Addresses(Merged(table, queried, TokensOf(c, user)))
  {
    hide NormalizeNetwork, Lower, Addresses;
    var i :| 0 <= i < |TokensOf(c, user)| && SameToken(TokensOf(c, user)[i], tok);
    var e := TokensOf(c, user)[i];
    NormalizeIdempotent(tok.network);
    ExtendedExact(CommonTokensFor(table, NormalizeNetwork(queried)), NormalizeNetwork(queried), TokensOf(c, user));
    assert e in TokensOf(c, user);
  }

  /** Retrying after a failed save reports success without writing. */
  method RetryExample(user: string, tok: TokenRef) returns (first: bool, retry: bool)
    ensures !first && retry
  {
    var s := new TouchedTokenStore(Contents(map[], map[]));
    first := s.AddToken(user, tok, false);
    assert !Known(s.disk, user, tok);
    retry := s.AddToken(user, tok, true);
    assert !Known(s.disk, user, tok);
  }

  // ----- grouping wallet addresses

  datatype WalletAddressEntry = WalletAddressEntry(address: string, coinName: string)

  datatype AddressWithNetworks = AddressWithNetworks(address: string, networks: seq<string>)

  type Pair = (string, string)

  /** The (address, network) pairs of the entries whose coin is on an EVM network. */
  function Resolvable(entries: seq<WalletAddressEntry>, network: string -> Option<string>): seq<Pair> {
    if entries == [] then []
    else
      var front, e := Resolvable(entries[..|entries| - 1], network), entries[|entries| - 1];
      match network(e.coinName)
      case None => front
      case Some(n) => front + [(e.address, n)]
  }

  /** Addresses in the order in which they first appear. */
  function Order(pairs: seq<Pair>): seq<string> {
    if pairs == [] then []
    else
      var front, a := Order(pairs[..|pairs| - 1]), pairs[|pairs| - 1].0;
      if a in front then front else front + [a]
  }

  function NetworksOf(pairs: seq<Pair>, a: string): seq<string> {
    if pairs == [] then []
    else
      var front, p := NetworksOf(pairs[..|pairs| - 1], a), pairs[|pairs| - 1];
      if p.0 == a then front + [p.1] else front
  }

  /** Pairs and networks come in the order of the entries. */
  lemma {:induction false} ResolvableInOrder(a: seq<WalletAddressEntry>, b: seq<WalletAddressEntry>, e: WalletAddressEntry,
                                             network: string -> Option<string>)
    ensures Resolvable(a + b, network) == Resolvable(a, network) + Resolvable(b, network)
    ensures Resolvable([e], network) == if network(e.coinName).Some? then [(e.address, network(e.coinName).value)] else []
  {
    assert [e][..0] == [];
    if b == [] {
      assert a + b == a;
    } else {
      var front := b[..|b| - 1];
      ResolvableInOrder(a, front, e, network);
      assert (a + b)[..|a + b| - 1] == a + front;
    }
  }

  lemma {:induction false} NetworksInOrder(p: seq<Pair>, q: seq<Pair>, x: Pair, a: string)
    ensures NetworksOf(p + q, a) == NetworksOf(p, a) + NetworksOf(q, a)
    ensures NetworksOf([x], a) == if x.0 == a then [x.1] else []
  {
    assert [x][..0] == [];
    if q == [] {
      assert p + q == p;
    } else {
      var front := q[..|q| - 1];
      NetworksInOrder(p, front, x, a);
      assert (p + q)[..|p + q| - 1] == p + front;
    }
  }

  function Grouped(pairs: seq<Pair>): seq<AddressWithNetworks> {
    seq(|Order(pairs)|, i requires 0 <= i < |Order(pairs)| =>
      AddressWithNetworks(Order(pairs)[i], NetworksOf(pairs, Order(pairs)[i])))
  }

  /** order and networksByAddr as they stand after the given pairs. */
  ghost predicate Collected(pairs: seq<Pair>, order: seq<string>, networksByAddr: map<string, seq<string>>) {
    order == Order(pairs) && (forall a :: a in networksByAddr <==> a in order) &&
    (forall a :: NetworksOf(pairs, a) == if a in networksByAddr then networksByAddr[a] else [])
  }

  lemma CollectedStep(pairs: seq<Pair>, order: seq<string>, m: map<string, seq<string>>, p: Pair)
    requires Collected(pairs, order, m)
    ensures Collected(pairs + [p], if p.0 in m then order else order + [p.0],
                      m[p.0 := (if p.0 in m then m[p.0] else []) + [p.1]])
  {
    var next := pairs + [p];
    assert next[..|pairs|] == pairs;
    assert Order(next) == if p.0 in Order(pairs) then Order(pairs) else Order(pairs) + [p.0];
    forall a ensures NetworksOf(next, a) == if p.0 == a then NetworksOf(pairs, a) + [p.1] else NetworksOf(pairs, a) {
    }
    hide Order, NetworksOf;
  }

  method CollectBalanceAddresses(entries: seq<WalletAddressEntry>, network: string -> Option<string>)
    returns (out: seq<AddressWithNetworks>)
    ensures out == Grouped(Resolvable(entries, network))
    ensures var pairs := Resolvable(entries, network);
            |out| == |Order(pairs)| &&
            forall i :: 0 <= i < |out| ==> out[i].address == Order(pairs)[i] && out[i].networks == NetworksOf(pairs, out[i].address)
  {
    var order: seq<string> := [];
    var networksByAddr: map<string, seq<string>> := map[];
    ghost var pairs: seq<Pair> := [];
    for i := 0 to |entries|
      invariant pairs == Resolvable(entries[..i], network) && Collected(pairs, order, networksByAddr)
    {
      hide Collected;
      var e := entries[i];
      assert entries[..i + 1][..i] == entries[..i];
      var resolved := network(e.coinName);
      if resolved.Some? {
        CollectedStep(pairs, order, networksByAddr, (e.address, resolved.value));
        if e.address !in networksByAddr {
          order := order + [e.address];
        }
        var soFar := if e.address in networksByAddr then networksByAddr[e.address] else [];
        networksByAddr := networksByAddr[e.address := soFar + [resolved.value]];
        pairs := pairs + [(e.address, resolved.value)];
      }
    }
    assert entries[..|entries|] == entries;
    GroupedFields(pairs);
    out := Gather(order, networksByAddr, pairs);
    hide *;
  }

  method Gather(order: seq<string>, networksByAddr: map<string, seq<string>>, ghost pairs: seq<Pair>)
    returns (out: seq<AddressWithNetworks>)
    requires Collected(pairs, order, networksByAddr)
    ensures out == Grouped(pairs)
  {
    hide Order, NetworksOf;
    out := [];
    for i := 0 to |order|
      invariant out == Grouped(pairs)[..i]
    {
      out := out + [AddressWithNetworks(order[i], networksByAddr[order[i]])];
    }
  }

  lemma GroupedFields(pairs: seq<Pair>)
    ensures |Grouped(pairs)| == |Order(pairs)|
    ensures forall i :: 0 <= i < |Order(pairs)| ==>
              Grouped(pairs)[i].address == Order(pairs)[i] &&
              Grouped(pairs)[i].networks == NetworksOf(pairs, Grouped(pairs)[i].address)
  {
    hide Order, NetworksOf;
  }

  /** Where an address first appears, |pairs| if it does not. */
  function FirstIndex(pairs: seq<Pair>, a: string): (i: nat)
    ensures i <= |pairs| && (i < |pairs| ==> pairs[i].0 == a)
    ensures forall k :: 0 <= k < i ==> pairs[k].0 != a
  {
    if pairs == [] then 0 else if pairs[0].0 == a then 0 else 1 + FirstIndex(pairs[1..], a)
  }

  lemma FirstIndexStep(front: seq<Pair>, p: Pair, a: string)
    ensures FirstIndex(front + [p], a) ==
            if FirstIndex(front, a) < |front| || p.0 == a then FirstIndex(front, a) else |front| + 1
  {
    var pairs := front + [p];
    var i := FirstIndex(front, a);
    assert forall k :: 0 <= k < |front| ==> pairs[k] == front[k];
    assert pairs[|front|] == p;
    if i < |front| || p.0 == a {
      assert pairs[i].0 == a;
    }
  }

  /** The groups come in the order of first appearance, one for each address that appears. */
  lemma {:induction false} OrderExact(pairs: seq<Pair>)
    ensures forall a :: a in Order(pairs) <==> FirstIndex(pairs, a) < |pairs|
    ensures forall i, j :: 0 <= i < j < |Order(pairs)| ==>
              FirstIndex(pairs, Order(pairs)[i]) < FirstIndex(pairs, Order(pairs)[j])
  {
    hide FirstIndex;
    if pairs == [] {
      assert forall a :: FirstIndex(pairs, a) >= 0;
    } else {
      var front, p := pairs[..|pairs| - 1], pairs[|pairs| - 1];
      OrderExact(front);
      assert pairs == front + [p];
      forall a ensures FirstIndex(pairs, a) ==
                       if FirstIndex(front, a) < |front| || p.0 == a then FirstIndex(front, a) else |front| + 1 {
        FirstIndexStep(front, p, a);
      }
      var o, all := Order(front), Order(pairs);
      forall i, j | 0 <= i < j < |all| ensures FirstIndex(pairs, all[i]) < FirstIndex(pairs, all[j]) {
        assert o[i] in o;
        assert j < |o| ==> o[j] in o;
      }
    }
  }

  /** Grouping keeps every resolvable pair as often as it occurs. */
  lemma {:induction false} PairsConserved(pairs: seq<Pair>, a: string, n: string)
    ensures multiset(NetworksOf(pairs, a))[n] == multiset(pairs)[(a, n)]
    ensures a !in Order(pairs) ==> NetworksOf(pairs, a) == []
  {
    if pairs != [] {
      var front, p := pairs[..|pairs| - 1], pairs[|pairs| - 1];
      PairsConserved(front, a, n);
      assert pairs == front + [p];
    }
  }
}
