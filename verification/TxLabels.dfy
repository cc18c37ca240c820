/** Transaction labels (internal/txlabels/store.go): a map keyed by the flattened
    string "network:txHash", saved to a file that a failed save leaves alone. */
module TxLabels {
  import opened Common
  import opened Calls
  import opened Text

  datatype TxLabel = TxLabel(name: string, category: string, notes: string, createdAt: int, updatedAt: int)

  datatype LabelEntry = LabelEntry(network: string, txHash: string, txLabel: TxLabel)

  datatype Problem = NetworkRequired | HashRequired | NameRequired | NameTooLong | NotesTooLong
                   | NotFound | SaveFailed

  datatype Draft = Draft(name: string, category: string, notes: string)

  function MakeKey(network: string, txHash: string): string {
    network + ":" + txHash
  }

  function Check(network: string, txHash: string, d: Draft): Option<Problem> {
    if network == "" then Some(NetworkRequired)
    else if txHash == "" then Some(HashRequired)
    else if d.name == "" then Some(NameRequired)
    else if |d.name| > 100 then Some(NameTooLong)
    else if |d.notes| > 500 then Some(NotesTooLong)
    else None
  }

  /** Which labels pass, and what is wrong with the others: the first of the checks that fails. */
  lemma CheckExact(n: string, h: string, d: Draft)
    ensures Check(n, h, d) == None <==> n != "" && h != "" && 0 < |d.name| <= 100 && |d.notes| <= 500
    ensures Check(n, h, d) == Some(NetworkRequired) <==> n == ""
    ensures Check(n, h, d) == Some(HashRequired) <==> n != "" && h == ""
    ensures Check(n, h, d) == Some(NameRequired) <==> n != "" && h != "" && d.name == ""
    ensures Check(n, h, d) == Some(NameTooLong) <==> n != "" && h != "" && |d.name| > 100
    ensures Check(n, h, d) == Some(NotesTooLong) <==> n != "" && h != "" && 0 < |d.name| <= 100 && |d.notes| > 500
  {
  }

  /** The label an upsert stores: an existing label keeps its creation time. */
  function Upserted(existing: Option<TxLabel>, d: Draft, now: int): TxLabel {
    TxLabel(d.name, d.category, d.notes, if existing.Some? then existing.value.createdAt else now, now)
  }

  // ----- calls on a map with any kind of key

  datatype Op<K> = Set(key: K, problem: Option<Problem>, draft: Draft, now: int) | Delete(key: K)

  /** The labels after a call, and the error it returned. */
  function Effect<K>(labels: map<K, TxLabel>, op: Op<K>, saved: bool): (map<K, TxLabel>, Option<Problem>) {
    match op
    case Set(key, problem, d, now) =>
      if problem.Some? then (labels, problem)
      else if !saved then (labels, Some(SaveFailed))
      else (labels[key := Upserted(Find(labels, key), d, now)], None)
    case Delete(key) =>
      if key !in labels then (labels, Some(NotFound))
      else if !saved then (labels, Some(SaveFailed))
      else (labels - {key}, None)
  }

  datatype Call<K> = Call(op: Op<K>, saved: bool)

  function Made<K>(labels: map<K, TxLabel>, c: Call<K>): (map<K, TxLabel>, bool) {
    var (next, err) := Effect(labels, c.op, c.saved);
    (next, err == None)
  }

  // ----- the flattened key against the pair

  type Pair = (string, string)

  function Flat(p: Pair): string {
    MakeKey(p.0, p.1)
  }

  predicate PlainNetworks(m: map<Pair, TxLabel>) {
    forall p :: p in m ==> ':' !in p.0
  }

  /** A key with a plain network splits back into its parts in one way. */
  lemma KeySplits(network: string, txHash: string)
    ensures Cut(MakeKey(network, txHash), ':') == Some((network, txHash)) <==> ':' !in network
  {
    if ':' !in network {
      CutOfConcat(network, ':', txHash);
    }
  }

  lemma FlatInjective(p: Pair, q: Pair)
    requires ':' !in p.0 && ':' !in q.0
    ensures Flat(p) == Flat(q) <==> p == q
  {
    if Flat(p) == Flat(q) {
      SeparatorInjective(p.0, q.0, ':', p.1, q.1);
    }
  }

  /** Two different networks share a key for some hashes exactly when one
      of them, with the colon, starts the other. */
  lemma NetworksCollide(n: string, n': string)
    requires n != n'
    ensures (exists h, h' :: MakeKey(n, h) == MakeKey(n', h')) <==> n + ":" <= n' + ":" || n' + ":" <= n + ":"
  {
    var a, b := n + ":", n' + ":";
    if a <= b {
      assert MakeKey(n, b[|a|..]) == MakeKey(n', "");
    } else if b <= a {
      assert MakeKey(n, "") == MakeKey(n', a[|b|..]);
    } else {
      forall h, h' ensures MakeKey(n, h) != MakeKey(n', h') {
        SharedKeyMeansPrefix(n, n', h, h');
      }
    }
  }

  lemma SharedKeyMeansPrefix(n: string, n': string, h: string, h': string)
    ensures MakeKey(n, h) == MakeKey(n', h') ==> n + ":" <= n' + ":" || n' + ":" <= n + ":"
  {
    var a, b := n + ":", n' + ":";
    var key, key' := MakeKey(n, h), MakeKey(n', h');
    assert key[..|a|] == a && key'[..|b|] == b;
    if |a| <= |b| {
      assert key'[..|a|] == b[..|a|];
    } else {
      assert key[..|b|] == a[..|b|];
    }
  }

  /** flat holds, under the flattened keys, exactly the labels of pairs. */
  ghost predicate Flattens(pairs: map<Pair, TxLabel>, flat: map<string, TxLabel>) {
    PlainNetworks(pairs) &&
    (forall p :: p in pairs ==> Flat(p) in flat && flat[Flat(p)] == pairs[p]) &&
    (forall k :: k in flat ==> exists p :: p in pairs && Flat(p) == k)
  }

  function FlatOp(op: Op<Pair>): Op<string> {
    match op
    case Set(p, problem, d, now) => Set(Flat(p), problem, d, now)
    case Delete(p) => Delete(Flat(p))
  }

  lemma EffectFlattens(pairs: map<Pair, TxLabel>, flat: map<string, TxLabel>, op: Op<Pair>, saved: bool)
    requires Flattens(pairs, flat) && ':' !in op.key.0
    ensures Effect(flat, FlatOp(op), saved).1 == Effect(pairs, op, saved).1
    ensures Flattens(Effect(pairs, op, saved).0, Effect(flat, FlatOp(op), saved).0)
  {
    hide Flat, Upserted;
    KeysCorrespond(pairs, flat, op.key);
    if saved {
      match op
      case Set(p, problem, d, now) =>
        SetFlattens(pairs, flat, p, Upserted(Find(pairs, p), d, now));
      case Delete(p) =>
        DeleteFlattens(pairs, flat, p);
        assert p !in pairs ==> pairs - {p} == pairs;
    }
  }

  lemma KeysCorrespond(pairs: map<Pair, TxLabel>, flat: map<string, TxLabel>, p: Pair)
    requires Flattens(pairs, flat) && ':' !in p.0
    ensures Flat(p) in flat <==> p in pairs
    ensures Find(flat, Flat(p)) == Find(pairs, p)
  {
    hide Flat;
    if Flat(p) in flat {
      var q :| q in pairs && Flat(q) == Flat(p);
      FlatInjective(p, q);
    }
  }

  lemma SetFlattens(pairs: map<Pair, TxLabel>, flat: map<string, TxLabel>, p: Pair, l: TxLabel)
    requires Flattens(pairs, flat) && ':' !in p.0
    ensures Flattens(pairs[p := l], flat[Flat(p) := l])
  {
    hide Flat;
    forall q | q in pairs ensures Flat(q) == Flat(p) <==> q == p {
      FlatInjective(q, p);
    }
    forall k | k in flat && k != Flat(p) ensures exists q :: q in pairs[p := l] && Flat(q) == k {
      var q :| q in pairs && Flat(q) == k;
      assert q in pairs[p := l];
    }
    assert p in pairs[p := l];
  }

  lemma DeleteFlattens(pairs: map<Pair, TxLabel>, flat: map<string, TxLabel>, p: Pair)
    requires Flattens(pairs, flat) && ':' !in p.0
    ensures Flattens(pairs - {p}, flat - {Flat(p)})
  {
    hide Flat;
    forall q | q in pairs ensures Flat(q) == Flat(p) <==> q == p {
      FlatInjective(q, p);
    }
    forall k | k in flat && k != Flat(p) ensures exists q :: q in pairs - {p} && Flat(q) == k {
      var q :| q in pairs && Flat(q) == k;
      assert q in pairs - {p};
    }
  }

  function FlatCalls(calls: seq<Call<Pair>>): (r: seq<Call<string>>)
    ensures |r| == |calls|
  {
    seq(|calls|, i requires 0 <= i < |calls| => Call(FlatOp(calls[i].op), calls[i].saved))
  }

  /** Over any run of calls on plain networks, the flattened map holds exactly the
      labels of a map keyed by pairs. */
  lemma {:induction false} RunFlattens(calls: seq<Call<Pair>>)
    requires forall i :: 0 <= i < |calls| ==> ':' !in calls[i].op.key.0
    ensures Flattens(Run(Made<Pair>, map[], calls), Run(Made<string>, map[], FlatCalls(calls)))
  {
    hide Flattens;
    if calls == [] {
      assert FlatCalls(calls) == [];
      EmptyFlattens();
    } else {
      var front, last := calls[..|calls| - 1], calls[|calls| - 1];
      RunFlattens(front);
      assert FlatCalls(calls)[..|calls| - 1] == FlatCalls(front);
      EffectFlattens(Run(Made<Pair>, map[], front), Run(Made<string>, map[], FlatCalls(front)), last.op, last.saved);
    }
  }

  lemma EmptyFlattens()
    ensures Flattens(map[], map[])
  {
  }

  /** However often a label is set again, it keeps the time it was created,
      until a delete of its key. */
  lemma {:induction false} RunKeepsCreation<K>(labels: map<K, TxLabel>, calls: seq<Call<K>>, key: K)
    requires key in labels
    requires forall i :: 0 <= i < |calls| ==> calls[i].op != Delete(key)
    ensures key in Run(Made<K>, labels, calls) && Run(Made<K>, labels, calls)[key].createdAt == labels[key].createdAt
  {
    if calls != [] {
      RunKeepsCreation(labels, calls[..|calls| - 1], key);
    }
  }

  /** A call that cannot have changed the label under the key. */
  predicate Spares<K(==)>(c: Call<K>, key: K) {
    c.op.key != key || !c.saved || (c.op.Set? && c.op.problem.Some?)
  }

  /** What is read under a key is what was last set there, since when only calls on
      other keys and failing calls were made. */
  lemma {:induction false} LastSetIsRead<K>(labels: map<K, TxLabel>, calls: seq<Call<K>>, k: nat, key: K, d: Draft, now: int)
    requires k < |calls| && calls[k] == Call(Set(key, None, d, now), true)
    requires forall j :: k < j < |calls| ==> Spares(calls[j], key)
    ensures var end := Run(Made<K>, labels, calls);
            key in end && Draft(end[key].name, end[key].category, end[key].notes) == d && end[key].updatedAt == now
  {
    var n := |calls| - 1;
    if k < n {
      assert Spares(calls[n], key);
      LastSetIsRead(labels, calls[..n], k, key, d, now);
    }
  }

  /** A new label is created at the time of the call that sets it. */
  lemma FirstSetCreates<K>(labels: map<K, TxLabel>, front: seq<Call<K>>, key: K, d: Draft, now: int)
    requires key !in Run(Made<K>, labels, front)
    ensures var end := Run(Made<K>, labels, front + [Call(Set(key, None, d, now), true)]);
            key in end && end[key].createdAt == now
  {
    assert (front + [Call(Set(key, None, d, now), true)])[..|front|] == front;
  }

  /** A deleted label is not found again until the key is set. */
  lemma {:induction false} DeletedIsGone<K>(labels: map<K, TxLabel>, front: seq<Call<K>>, key: K, rest: seq<Call<K>>)
    requires forall i :: 0 <= i < |rest| ==> rest[i].op.Set? ==> Spares(rest[i], key)
    ensures key !in Run(Made<K>, Run(Made<K>, labels, front + [Call(Delete(key), true)]), rest)
  {
    if rest == [] {
      assert (front + [Call(Delete(key), true)])[..|front|] == front;
    } else {
      DeletedIsGone(labels, front, key, rest[..|rest| - 1]);
    }
  }

  /** A call that returned an error might as well not have been made. */
  lemma ErrorsInvisible<K>(labels: map<K, TxLabel>, calls: seq<Call<K>>)
    ensures Run(Made<K>, labels, Completed(Made<K>, labels, calls)) == Run(Made<K>, labels, calls)
  {
    FailedCallsInvisible(Made<K>, labels, calls);
  }

  // ----- listings

  ghost predicate ListsNetwork(r: seq<LabelEntry>, network: string, labels: map<string, TxLabel>) {
    (forall e :: e in r <==> e.network == network && MakeKey(network, e.txHash) in labels &&
                             e.txLabel == labels[MakeKey(network, e.txHash)]) &&
    forall i, j :: 0 <= i < j < |r| ==> r[i] != r[j]
  }

  /** ListAll cuts each key at its first colon. */
  ghost predicate ListsAll(r: seq<LabelEntry>, labels: map<string, TxLabel>) {
    (forall e :: e in r <==> ':' !in e.network && MakeKey(e.network, e.txHash) in labels &&
                             e.txLabel == labels[MakeKey(e.network, e.txHash)]) &&
    forall i, j :: 0 <= i < j < |r| ==> r[i] != r[j]
  }

  /** With plain networks the full listing is exactly the pairs. */
  lemma ListAllIsPairs(pairs: map<Pair, TxLabel>, flat: map<string, TxLabel>, r: seq<LabelEntry>)
    requires Flattens(pairs, flat) && ListsAll(r, flat)
    ensures forall e :: e in r <==> (e.network, e.txHash) in pairs && e.txLabel == pairs[(e.network, e.txHash)]
  {
    forall e ensures e in r <==> (e.network, e.txHash) in pairs && e.txLabel == pairs[(e.network, e.txHash)] {
      EntryOfPair(pairs, flat, e);
    }
  }

  lemma EntryOfPair(pairs: map<Pair, TxLabel>, flat: map<string, TxLabel>, e: LabelEntry)
    requires Flattens(pairs, flat)
    ensures (e.network, e.txHash) in pairs && e.txLabel == pairs[(e.network, e.txHash)] <==>
            ':' !in e.network && MakeKey(e.network, e.txHash) in flat &&
            e.txLabel == flat[MakeKey(e.network, e.txHash)]
  {
    var p := (e.network, e.txHash);
    if ':' !in e.network && Flat(p) in flat {
      var q :| q in pairs && Flat(q) == Flat(p);
      FlatInjective(p, q);
    }
    assert Flat(p) == MakeKey(e.network, e.txHash);
  }

  /** Listing one plain network is filtering the full listing. */
  lemma ListByNetworkIsFilter(labels: map<string, TxLabel>, network: string, one: seq<LabelEntry>, all: seq<LabelEntry>)
    requires ':' !in network && ListsNetwork(one, network, labels) && ListsAll(all, labels)
    ensures forall e :: e in one <==> e in all && e.network == network
  {
  }

  /** A network with a colon in it lists nothing under its own name in the full listing. */
  lemma ColonNetworkExample(l: TxLabel, all: seq<LabelEntry>)
    requires ListsAll(all, map[MakeKey("a:b", "c") := l])
    ensures LabelEntry("a:b", "c", l) !in all && LabelEntry("a", "b:c", l) in all
  {
    assert MakeKey("a:b", "c") == MakeKey("a", "b:c");
    assert "a:b"[1] == ':';
  }

  // ----- the store

  class TxLabelStore {
    var labels: map<string, TxLabel>
    var file: Option<map<string, TxLabel>>

    ghost predicate InSync()
      reads this
    {
      labels == if file.None? then map[] else file.value
    }

    /** Load: the decrypted file, or no labels when there is none. */
    constructor (file: Option<map<string, TxLabel>>)
      ensures InSync() && this.file == file
    {
      labels := if file.None? then map[] else file.value;
      this.file := file;
    }

    method Save(saved: bool)
      modifies `file
      ensures file == if saved then Some(labels) else old(file)
    {
      if saved {
        file := Some(labels);
      }
    }

    method SetLabel(network: string, txHash: string, d: Draft, now: int, saved: bool)
      returns (r: Result<TxLabel, Problem>)
      modifies this
      ensures var op := Set(MakeKey(network, txHash), Check(network, txHash, d), d, now);
              var (next, err) := Effect(old(labels), op, saved);
              labels == next && file == (if err == None then Some(next) else old(file)) &&
              r == if err == None then Ok(next[MakeKey(network, txHash)]) else Err(err.value)
      ensures r.Ok? <==> saved && network != "" && txHash != "" && 0 < |d.name| <= 100 && |d.notes| <= 500
      ensures r.Ok? ==>
                var key := MakeKey(network, txHash);
                labels == old(labels)[key := r.value] &&
                r.value == TxLabel(d.name, d.category, d.notes,
                                   if key in old(labels) then old(labels)[key].createdAt else now, now)
      ensures r.Err? ==> labels == old(labels) && file == old(file)
      ensures old(InSync()) ==> InSync()
    {
      if Check(network, txHash, d).Some? {
        return Err(Check(network, txHash, d).value);
      }
      var key := MakeKey(network, txHash);
      var existing := Find(labels, key);
      var txLabel := Upserted(existing, d, now);
      labels := labels[key := txLabel];
      Save(saved);
      if !saved {
        if existing.Some? {
          labels := labels[key := existing.value];
        } else {
          labels := labels - {key};
        }
        return Err(SaveFailed);
      }
      return Ok(txLabel);
    }

    method DeleteLabel(network: string, txHash: string, saved: bool) returns (r: Option<Problem>)
      modifies this
      ensures var (next, err) := Effect(old(labels), Delete(MakeKey(network, txHash)), saved);
              labels == next && r == err && file == if err == None then Some(next) else old(file)
      ensures var key := MakeKey(network, txHash);
              (r == None <==> key in old(labels) && saved) && (r == Some(NotFound) <==> key !in old(labels)) &&
              labels == if r == None then old(labels) - {key} else old(labels)
      ensures old(InSync()) ==> InSync()
    {
      var key := MakeKey(network, txHash);
      if key !in labels {
        return Some(NotFound);
      }
      var oldLabel := labels[key];
      labels := labels - {key};
      Save(saved);
      if !saved {
        labels := labels[key := oldLabel];
        return Some(SaveFailed);
      }
      return None;
    }

    /** Finds exactly the label of the pair, in any map of pairs that the store stands for. */
    method GetLabel(network: string, txHash: string) returns (r: Option<TxLabel>)
      ensures r == Find(labels, MakeKey(network, txHash))
      ensures ':' !in network ==> forall pairs :: Flattens(pairs, labels) ==> r == Find(pairs, (network, txHash))
    {
      forall pairs | Flattens(pairs, labels) && ':' !in network
        ensures Find(labels, MakeKey(network, txHash)) == Find(pairs, (network, txHash))
      {
        KeysCorrespond(pairs, labels, (network, txHash));
      }
      return Find(labels, MakeKey(network, txHash));
    }

    method ListByNetwork(network: string) returns (r: seq<LabelEntry>)
      ensures ListsNetwork(r, network, labels)
    {
      r := [];
      var prefix := network + ":";
      var todo := labels.Keys;
      while todo != {}
        invariant todo <= labels.Keys
        invariant forall e :: e in r <==> e.network == network && MakeKey(network, e.txHash) in labels.Keys - todo &&
                                          e.txLabel == labels[MakeKey(network, e.txHash)]
        invariant forall i, j :: 0 <= i < j < |r| ==> r[i] != r[j]
        decreases |todo|
      {
        var key :| key in todo;
        if prefix <= key {
          var txHash := key[|prefix|..];
          assert MakeKey(network, txHash) == key;
          r := r + [LabelEntry(network, txHash, labels[key])];
        }
        todo := todo - {key};
        assert forall h :: MakeKey(network, h) == key ==> prefix <= key && h == key[|prefix|..];
      }
    }

    method ListAll() returns (r: seq<LabelEntry>)
      ensures ListsAll(r, labels)
    {
      r := [];
      var todo := labels.Keys;
      while todo != {}
        invariant todo <= labels.Keys
        invariant forall e :: e in r <==> ':' !in e.network && MakeKey(e.network, e.txHash) in labels.Keys - todo &&
                                          e.txLabel == labels[MakeKey(e.network, e.txHash)]
        invariant forall i, j :: 0 <= i < j < |r| ==> r[i] != r[j]
        decreases |todo|
      {
        var key :| key in todo;
        var parts := Cut(key, ':');
        forall n, h | ':' !in n && MakeKey(n, h) == key ensures parts == Some((n, h)) {
          KeySplits(n, h);
        }
        if parts.Some? {
          r := r + [LabelEntry(parts.value.0, parts.value.1, labels[key])];
        }
        todo := todo - {key};
      }
    }
  }
}
