/** ERC-7730 descriptors: parsing (internal/clearsign/descriptor.go), the lookup
    index (registry.go), field formats (format.go) and all-or-nothing rendering
    (resolve.go). */
module ClearSigning {
  import opened Common
  import opened Positional
  import opened Text
  import opened Units
  import opened Paths
  import Signatures

  datatype Deployment = Deployment(chainID: int, address: string)

  /** "always" or another string, a bool, nothing, or anything else. */
  datatype Visibility = Absent | Text(s: string) | Flag(b: bool) | OtherKind

  datatype DisplayField = DisplayField(path: string, caption: string, format: string,
                                       params: map<string, Value>, visible: Visibility)

  datatype DisplayFormat = DisplayFormat(intent: string, fields: seq<DisplayField>,
                                         signature: string, selector: string)

  datatype Descriptor = Descriptor(owner: string, contractName: string, deployments: seq<Deployment>,
                                   formats: map<string, Option<DisplayFormat>>)

  // ----- ParseDescriptor, after JSON decoding

  function Filled(keccak4: string -> seq<Byte>, sig: string, f: Option<DisplayFormat>): Option<DisplayFormat> {
    match f
    case None => None
    case Some(d) => Some(d.(signature := sig, selector := Signatures.SelectorForSignature(keccak4, sig)))
  }

  function Lowered(d: Deployment): Deployment {
    d.(address := Lower(d.address))
  }

  /** Lowercases the deployments in place and fills in every format's selector. */
  method ParseDescriptor(keccak4: string -> seq<Byte>, owner: string, contractName: string,
                         deployments: array<Deployment>, formats: map<string, Option<DisplayFormat>>)
    returns (d: Descriptor)
    modifies deployments
    ensures d.owner == owner && d.contractName == contractName && d.deployments == deployments[..]
    ensures forall i :: 0 <= i < deployments.Length ==> deployments[i] == Lowered(old(deployments[i]))
    ensures forall i :: 0 <= i < deployments.Length ==>
              deployments[i].chainID == old(deployments[i].chainID) && deployments[i].address == Lower(old(deployments[i].address))
    ensures d.formats == map sig | sig in formats :: Filled(keccak4, sig, formats[sig])
    ensures forall sig :: sig in formats && formats[sig].Some? ==>
              d.formats[sig] == Some(DisplayFormat(formats[sig].value.intent, formats[sig].value.fields, sig,
                                                   Signatures.SelectorForSignature(keccak4, sig)))
    ensures forall sig :: sig in formats && formats[sig].None? ==> d.formats[sig] == None
  {
    for i := 0 to deployments.Length
      invariant forall k :: 0 <= k < i ==> deployments[k] == Lowered(old(deployments[k]))
      invariant forall k :: i <= k < deployments.Length ==> deployments[k] == old(deployments[k])
    {
      deployments[i] := Lowered(deployments[i]);
    }
    var filled: map<string, Option<DisplayFormat>> := map[];
    var todo := formats.Keys;
    while todo != {}
      invariant todo <= formats.Keys && filled.Keys == formats.Keys - todo
      invariant forall sig :: sig in filled ==> filled[sig] == Filled(keccak4, sig, formats[sig])
      decreases |todo|
    {
      var sig :| sig in todo;
      filled := filled[sig := Filled(keccak4, sig, formats[sig])];
      todo := todo - {sig};
    }
    d := Descriptor(owner, contractName, deployments[..], filled);
  }

  // ----- the index and the scan it stands for

  datatype LookupKey = LookupKey(chainID: int, address: string, selector: string)

  datatype LookupEntry = LookupEntry(format: DisplayFormat, descriptor: Descriptor)

  function KeyFor(chainID: int, address: string, selector: string): LookupKey {
    LookupKey(chainID, Lower(address), Lower(selector))
  }

  /** Keys agree exactly for the same chain and, up to case, the same address and selector. */
  lemma KeyForExact(c: int, a: string, s: string, c': int, a': string, s': string)
    ensures KeyFor(c, a, s) == KeyFor(c', a', s') <==> c == c' && Lower(a) == Lower(a') && Lower(s) == Lower(s')
  {
  }

  predicate Indexed(f: Option<DisplayFormat>) {
    f.Some? && f.value.selector != ""
  }

  /** The i-th deployment and the format under sig put entry e at the key. */
  predicate Provides(d: Descriptor, i: nat, sig: string, key: LookupKey, e: LookupEntry) {
    i < |d.deployments| && sig in d.formats && Indexed(d.formats[sig]) &&
    key == KeyFor(d.deployments[i].chainID, d.deployments[i].address, d.formats[sig].value.selector) &&
    e == LookupEntry(d.formats[sig].value, d)
  }

  ghost predicate EntryOf(d: Descriptor, key: LookupKey, e: LookupEntry) {
    exists i: nat, sig :: Provides(d, i, sig, key, e)
  }

  ghost predicate Covers(d: Option<Descriptor>, key: LookupKey) {
    d.Some? && exists e :: EntryOf(d.value, key, e)
  }

  // The same on the fields of a descriptor.

  /** The contract is one of the descriptor's deployments, whatever the letter case. */
  ghost predicate DeployedAt(d: Descriptor, chainID: int, address: string) {
    exists i :: 0 <= i < |d.deployments| && d.deployments[i].chainID == chainID &&
                Lower(d.deployments[i].address) == Lower(address)
  }

  /** The descriptor has the format, with the selector up to letter case. */
  ghost predicate HasFormat(d: Descriptor, f: DisplayFormat, selector: string) {
    f.selector != "" && Lower(f.selector) == Lower(selector) && exists sig :: sig in d.formats && d.formats[sig] == Some(f)
  }

  ghost predicate HasSomeFormat(d: Descriptor, selector: string) {
    exists f :: HasFormat(d, f, selector)
  }

  lemma EntryOnFields(d: Descriptor, chainID: int, address: string, selector: string, e: LookupEntry)
    ensures EntryOf(d, KeyFor(chainID, address, selector), e) <==>
            e.descriptor == d && DeployedAt(d, chainID, address) && HasFormat(d, e.format, selector)
  {
    hide Lower;
    var key := KeyFor(chainID, address, selector);
    if EntryOf(d, key, e) {
      var i: nat, sig :| Provides(d, i, sig, key, e);
    }
    if e.descriptor == d && DeployedAt(d, chainID, address) && HasFormat(d, e.format, selector) {
      var i :| 0 <= i < |d.deployments| && d.deployments[i].chainID == chainID && Lower(d.deployments[i].address) == Lower(address);
      var sig :| sig in d.formats && d.formats[sig] == Some(e.format);
      assert Provides(d, i, sig, key, e);
    }
  }

  lemma CoversOnFields(d: Descriptor, chainID: int, address: string, selector: string)
    ensures Covers(Some(d), KeyFor(chainID, address, selector)) <==>
            DeployedAt(d, chainID, address) && HasSomeFormat(d, selector)
  {
    hide KeyFor, EntryOf, DeployedAt, HasFormat;
    var key := KeyFor(chainID, address, selector);
    if Covers(Some(d), key) {
      var e :| EntryOf(d, key, e);
      EntryOnFields(d, chainID, address, selector, e);
    }
    if DeployedAt(d, chainID, address) && HasSomeFormat(d, selector) {
      var f :| HasFormat(d, f, selector);
      EntryOnFields(d, chainID, address, selector, LookupEntry(f, d));
    }
  }

  /** The entry is a format of the last descriptor deployed there that has the selector. */
  ghost predicate Serves(ds: seq<Option<Descriptor>>, chainID: int, address: string, selector: string, e: LookupEntry) {
    exists j :: 0 <= j < |ds| && ds[j] == Some(e.descriptor) &&
      DeployedAt(e.descriptor, chainID, address) && HasFormat(e.descriptor, e.format, selector) &&
      forall k :: j < k < |ds| && ds[k].Some? ==> !(DeployedAt(ds[k].value, chainID, address) && HasSomeFormat(ds[k].value, selector))
  }

  lemma ServedOnFields(ds: seq<Option<Descriptor>>, chainID: int, address: string, selector: string, j: nat, e: LookupEntry)
    requires LastCover(ds, KeyFor(chainID, address, selector)) == Some(j) && EntryOf(ds[j].value, KeyFor(chainID, address, selector), e)
    ensures Serves(ds, chainID, address, selector, e)
  {
    hide KeyFor, EntryOf, DeployedAt, HasFormat, HasSomeFormat;
    EntryOnFields(ds[j].value, chainID, address, selector, e);
    forall k | j < k < |ds| && ds[k].Some?
      ensures !(DeployedAt(ds[k].value, chainID, address) && HasSomeFormat(ds[k].value, selector))
    {
      CoversOnFields(ds[k].value, chainID, address, selector);
    }
  }

  lemma UnservedOnFields(ds: seq<Option<Descriptor>>, chainID: int, address: string, selector: string)
    requires LastCover(ds, KeyFor(chainID, address, selector)) == None
    ensures forall d :: Some(d) in ds ==> !(DeployedAt(d, chainID, address) && HasSomeFormat(d, selector))
  {
    hide KeyFor, Covers, DeployedAt, HasSomeFormat;
    forall d | Some(d) in ds ensures !(DeployedAt(d, chainID, address) && HasSomeFormat(d, selector)) {
      var j :| 0 <= j < |ds| && ds[j] == Some(d);
      CoversOnFields(d, chainID, address, selector);
    }
  }

  /** Scanning the descriptor list from the end for one that covers the key. */
  ghost function LastCover(ds: seq<Option<Descriptor>>, key: LookupKey): (r: Option<nat>)
    ensures r.Some? ==> r.value < |ds| && Covers(ds[r.value], key)
    ensures forall j :: 0 <= j < |ds| && (r.Some? ==> j > r.value) ==> !Covers(ds[j], key)
  {
    if ds == [] then None
    else if Covers(ds[|ds| - 1], key) then Some(|ds| - 1)
    else LastCover(ds[..|ds| - 1], key)
  }

  /** The index holds an entry of the last covering descriptor, for exactly the covered keys. */
  ghost predicate Agrees(ds: seq<Option<Descriptor>>, index: map<LookupKey, LookupEntry>) {
    forall key :: AgreesAt(ds, index, key)
  }

  /** Keys provided by the first i deployments with every format, and by the i-th
      with the formats in done. */
  ghost predicate Visited(d: Descriptor, i: nat, done: set<string>, key: LookupKey) {
    exists k: nat, sig, e :: Provides(d, k, sig, key, e) && (k < i || (k == i && sig in done))
  }

  ghost predicate Extends(d: Descriptor, i: nat, done: set<string>,
                          base: map<LookupKey, LookupEntry>, index: map<LookupKey, LookupEntry>) {
    forall key ::
      if Visited(d, i, done, key) then key in index && EntryOf(d, key, index[key])
      else (key in base <==> key in index) && (key in base ==> index[key] == base[key])
  }

  lemma ExtendsByOne(d: Descriptor, i: nat, done: set<string>, sig: string, f: DisplayFormat,
                     base: map<LookupKey, LookupEntry>, index: map<LookupKey, LookupEntry>)
    requires i < |d.deployments| && sig in d.formats && d.formats[sig] == Some(f) && f.selector != ""
    requires Extends(d, i, done, base, index)
    ensures var dep := d.deployments[i];
            Extends(d, i, done + {sig}, base,
                    index[KeyFor(dep.chainID, dep.address, f.selector) := LookupEntry(f, d)])
  {
    var dep := d.deployments[i];
    var newKey, e := KeyFor(dep.chainID, dep.address, f.selector), LookupEntry(f, d);
    assert Provides(d, i, sig, newKey, e);
    forall key
      ensures Visited(d, i, done + {sig}, key) <==> Visited(d, i, done, key) || key == newKey
    {
      if key == newKey {
        assert Provides(d, i, sig, key, e);
      }
      if Visited(d, i, done, key) {
        var k: nat, s, e' :| Provides(d, k, s, key, e') && (k < i || (k == i && s in done));
        assert k < i || (k == i && s in done + {sig});
      }
    }
  }

  lemma ExtendsBySkip(d: Descriptor, i: nat, done: set<string>, sig: string,
                      base: map<LookupKey, LookupEntry>, index: map<LookupKey, LookupEntry>)
    requires sig in d.formats && !Indexed(d.formats[sig]) && Extends(d, i, done, base, index)
    ensures Extends(d, i, done + {sig}, base, index)
  {
    forall key ensures Visited(d, i, done + {sig}, key) <==> Visited(d, i, done, key) {
      if Visited(d, i, done, key) {
        var k: nat, s, e' :| Provides(d, k, s, key, e') && (k < i || (k == i && s in done));
        assert k < i || (k == i && s in done + {sig});
      }
    }
  }

  lemma ExtendsToNext(d: Descriptor, i: nat, base: map<LookupKey, LookupEntry>, index: map<LookupKey, LookupEntry>)
    requires Extends(d, i, d.formats.Keys, base, index)
    ensures Extends(d, i + 1, {}, base, index)
  {
    forall key ensures Visited(d, i + 1, {}, key) <==> Visited(d, i, d.formats.Keys, key) {
      if Visited(d, i + 1, {}, key) {
        var k: nat, s, e' :| Provides(d, k, s, key, e') && (k < i + 1 || (k == i + 1 && s in {}));
        assert k < i || (k == i && s in d.formats.Keys);
      }
      if Visited(d, i, d.formats.Keys, key) {
        var k: nat, s, e' :| Provides(d, k, s, key, e') && (k < i || (k == i && s in d.formats.Keys));
        assert k < i + 1;
      }
    }
  }

  lemma VisitedCovers(d: Descriptor, i: nat, done: set<string>, key: LookupKey)
    requires Visited(d, i, done, key)
    ensures Covers(Some(d), key)
  {
    var k: nat, sig, e :| Provides(d, k, sig, key, e) && (k < i || (k == i && sig in done));
    assert EntryOf(d, key, e);
  }

  ghost predicate AgreesAt(ds: seq<Option<Descriptor>>, index: map<LookupKey, LookupEntry>, key: LookupKey) {
    match LastCover(ds, key)
    case None => key !in index
    case Some(j) => key in index && EntryOf(ds[j].value, key, index[key])
  }

  lemma CoveredIffVisited(d: Descriptor, key: LookupKey)
    ensures Covers(Some(d), key) <==> Visited(d, |d.deployments|, {}, key)
  {
    var n := |d.deployments|;
    if Covers(Some(d), key) {
      var e :| EntryOf(d, key, e);
      var k: nat, sig :| Provides(d, k, sig, key, e);
      assert k < n;
    }
    if Visited(d, n, {}, key) {
      VisitedCovers(d, n, {}, key);
    }
  }

  lemma AgreesStepAt(before: seq<Option<Descriptor>>, last: Option<Descriptor>, base: map<LookupKey, LookupEntry>,
                     index: map<LookupKey, LookupEntry>, key: LookupKey)
    requires AgreesAt(before, base, key)
    requires last.None? ==> index == base
    requires last.Some? ==> Extends(last.value, |last.value.deployments|, {}, base, index)
    ensures AgreesAt(before + [last], index, key)
  {
    hide Covers, Visited, EntryOf;
    var ds := before + [last];
    assert ds[..|before|] == before;
    if last.Some? {
      CoveredIffVisited(last.value, key);
    } else {
      assert !Covers(last, key) by { NothingCovers(key); }
    }
  }

  lemma NothingCovers(key: LookupKey)
    ensures !Covers(None, key)
  {
  }

  lemma AgreesStep(ds: seq<Option<Descriptor>>, n: nat, base: map<LookupKey, LookupEntry>,
                   index: map<LookupKey, LookupEntry>)
    requires n < |ds| && Agrees(ds[..n], base)
    requires ds[n].None? ==> index == base
    requires ds[n].Some? ==> Extends(ds[n].value, |ds[n].value.deployments|, {}, base, index)
    ensures Agrees(ds[..n + 1], index)
  {
    hide AgreesAt, Extends;
    var before, after := ds[..n], ds[..n + 1];
    assert after == before + [ds[n]];
    forall key ensures AgreesAt(after, index, key) {
      assert AgreesAt(before, base, key);
      AgreesStepAt(before, ds[n], base, index, key);
    }
  }

  class Registry {
    const version: string
    const count: nat
    const index: map<LookupKey, LookupEntry>
    ghost const descriptors: seq<Option<Descriptor>>

    ghost predicate Valid() {
      Agrees(descriptors, index)
    }

    /** Map iteration visits a descriptor's formats in any order. */
    constructor (version: string, descriptors: seq<Option<Descriptor>>)
      ensures Valid()
      ensures this.version == version && this.count == |descriptors| && this.descriptors == descriptors
    {
      var built: map<LookupKey, LookupEntry> := map[];
      for n := 0 to |descriptors|
        invariant Agrees(descriptors[..n], built)
      {
        ghost var base := built;
        if descriptors[n].Some? {
          var d := descriptors[n].value;
          for i := 0 to |d.deployments|
            invariant Extends(d, i, {}, base, built)
          {
            built := IndexDeployment(d, i, base, built);
          }
        }
        AgreesStep(descriptors, n, base, built);
      }
      assert descriptors[..|descriptors|] == descriptors;
      this.version := version;
      this.count := |descriptors|;
      this.index := built;
      this.descriptors := descriptors;
    }

    static method IndexDeployment(d: Descriptor, i: nat, ghost base: map<LookupKey, LookupEntry>,
                                  before: map<LookupKey, LookupEntry>)
      returns (built: map<LookupKey, LookupEntry>)
      requires i < |d.deployments| && Extends(d, i, {}, base, before)
      ensures Extends(d, i + 1, {}, base, built)
    {
      hide Extends;
      built := before;
      var dep := d.deployments[i];
      var todo := d.formats.Keys;
      ghost var done: set<string> := {};
      while todo != {}
        invariant done + todo == d.formats.Keys
        invariant Extends(d, i, done, base, built)
        decreases |todo|
      {
        var sig :| sig in todo;
        var f := d.formats[sig];
        if f.None? || f.value.selector == "" {
          ExtendsBySkip(d, i, done, sig, base, built);
        } else {
          ExtendsByOne(d, i, done, sig, f.value, base, built);
          built := built[KeyFor(dep.chainID, dep.address, f.value.selector) := LookupEntry(f.value, d)];
        }
        todo, done := todo - {sig}, done + {sig};
      }
      assert done == d.formats.Keys;
      ExtendsToNext(d, i, base, built);
    }

    /** Succeeds exactly when some descriptor covers the lowercased triple, and
        returns an entry of the last one that does. */
    method Lookup(chainID: int, address: string, selector: string) returns (r: Option<LookupEntry>)
      requires Valid()
      ensures var key := KeyFor(chainID, address, selector);
              match LastCover(descriptors, key)
              case None => r == None
              case Some(j) => r.Some? && EntryOf(descriptors[j].value, key, r.value)
      ensures r == if KeyFor(chainID, address, selector) in index
                   then Some(index[KeyFor(chainID, address, selector)]) else None
      ensures r.Some? ==> Serves(descriptors, chainID, address, selector, r.value)
      ensures r.None? ==> forall d :: Some(d) in descriptors ==> !(DeployedAt(d, chainID, address) && HasSomeFormat(d, selector))
    {
      var key := KeyFor(chainID, address, selector);
      assert AgreesAt(descriptors, index, key);
      OnFields(chainID, address, selector);
      hide LastCover, EntryOf, KeyFor, Serves, DeployedAt, HasSomeFormat;
      if key !in index {
        return None;
      }
      return Some(index[key]);
    }

    lemma OnFields(chainID: int, address: string, selector: string)
      ensures var key := KeyFor(chainID, address, selector);
              match LastCover(descriptors, key)
              case None => forall d :: Some(d) in descriptors ==> !(DeployedAt(d, chainID, address) && HasSomeFormat(d, selector))
              case Some(j) => forall e :: EntryOf(descriptors[j].value, key, e) ==> Serves(descriptors, chainID, address, selector, e)
    {
      hide KeyFor, EntryOf, DeployedAt, HasSomeFormat, Serves;
      var key := KeyFor(chainID, address, selector);
      match LastCover(descriptors, key)
      case None => UnservedOnFields(descriptors, chainID, address, selector);
      case Some(j) =>
        forall e | EntryOf(descriptors[j].value, key, e) ensures Serves(descriptors, chainID, address, selector, e) {
          ServedOnFields(descriptors, chainID, address, selector, j, e);
        }
    }

    /** Renders decoded calldata through the matching descriptor. One row per
        visible field, in order, each rendered on its own; and nothing at all if
        there is no descriptor or some visible field cannot be rendered. */
    method Resolve(chainID: int, to: string, selector: string, decoded: map<string, Value>,
                   lookup: TokenLookup, env: Env)
      returns (r: Option<ResolvedIntent>)
      requires Valid()
      ensures var key := KeyFor(chainID, to, selector);
              r.Some? <==> key in index &&
                           forall f :: f in VisibleFields(index[key].format.fields) ==>
                             RenderField(f, decoded, lookup, env).Some?
      ensures r.Some? ==>
                var e := index[KeyFor(chainID, to, selector)];
                var shown := VisibleFields(e.format.fields);
                r.value.intent == e.format.intent && r.value.owner == e.descriptor.owner &&
                r.value.contractName == e.descriptor.contractName &&
                |r.value.fields| == |shown| &&
                forall i :: 0 <= i < |shown| ==> Some(r.value.fields[i]) == RenderField(shown[i], decoded, lookup, env)
      ensures r.Some? ==> exists e :: Serves(descriptors, chainID, to, selector, e) && Shows(r.value, e, decoded, lookup, env)
    {
      hide RenderField, Serves, DeployedAt, HasSomeFormat, LastCover, EntryOf, KeyFor;
      var found := Lookup(chainID, to, selector);
      if found.None? {
        return None;
      }
      var format, desc := found.value.format, found.value.descriptor;
      var fields: seq<ResolvedField> := [];
      ghost var shown: seq<DisplayField> := [];
      for i := 0 to |format.fields|
        invariant shown == VisibleFields(format.fields[..i])
        invariant |fields| == |shown|
        invariant forall k :: 0 <= k < |shown| ==> Some(fields[k]) == RenderField(shown[k], decoded, lookup, env)
      {
        var f := format.fields[i];
        assert format.fields[..i + 1] == format.fields[..i] + [f];
        VisibleStep(format.fields[..i], f);
        if IsVisible(f.visible) {
          var row := RenderRow(f, decoded, lookup, env);
          if row.None? {
            VisiblePrefix(format.fields, i, f);
            return None;
          }
          fields, shown := fields + [row.value], shown + [f];
        }
      }
      assert format.fields[..|format.fields|] == format.fields;
      r := Some(ResolvedIntent(format.intent, desc.owner, desc.contractName, fields));
      assert Shows(r.value, found.value, decoded, lookup, env);
    }
  }

  /** The intent is what the entry says, with a row for each visible field. */
  ghost predicate Shows(r: ResolvedIntent, e: LookupEntry, decoded: map<string, Value>, lookup: TokenLookup, env: Env) {
    var shown := VisibleFields(e.format.fields);
    r.intent == e.format.intent && r.owner == e.descriptor.owner && r.contractName == e.descriptor.contractName &&
    |r.fields| == |shown| &&
    forall i :: 0 <= i < |shown| ==> Some(r.fields[i]) == RenderField(shown[i], decoded, lookup, env)
  }

  /** Reordering the iteration over a descriptor's formats cannot change the index
      when no two of them have the same selector. */
  ghost predicate DistinctSelectors(d: Descriptor) {
    forall s, s' |
      s in d.formats && s' in d.formats && Indexed(d.formats[s]) && Indexed(d.formats[s']) &&
      Lower(d.formats[s].value.selector) == Lower(d.formats[s'].value.selector)
    :: s == s'
  }

  lemma IndexDetermined(ds: seq<Option<Descriptor>>, index: map<LookupKey, LookupEntry>,
                        index': map<LookupKey, LookupEntry>)
    requires Agrees(ds, index) && Agrees(ds, index')
    requires forall j :: 0 <= j < |ds| && ds[j].Some? ==> DistinctSelectors(ds[j].value)
    ensures index == index'
  {
    forall key ensures (key in index <==> key in index') && (key in index ==> index[key] == index'[key]) {
      var last := LastCover(ds, key);
      assert AgreesAt(ds, index, key) && AgreesAt(ds, index', key);
      if last.Some? {
        var d := ds[last.value].value;
        var i: nat, s :| Provides(d, i, s, key, index[key]);
        var i': nat, s' :| Provides(d, i', s', key, index'[key]);
        assert s == s';
      }
    }
  }

  // ----- field formats

  datatype TokenInfo = TokenInfo(symbol: string, decimals: int)

  type TokenLookup = Option<string -> Option<TokenInfo>>

  /** What the model leaves open: how %v prints an object, and calendar dates. */
  datatype Env = Env(showObject: map<string, Value> -> string, formatDate: string -> Option<string>)

  /** The %v verb. */
  function Show(v: Value, env: Env): string {
    match v
    case Str(s) => s
    case Other(text) => text
    case Obj(fields) => env.showObject(fields)
  }

  function ShortenAddress(s: string): string {
    if |s| <= 12 then s else s[..6] + "..." + s[|s| - 4..]
  }

  const UNKNOWN_TOKEN := " (unknown token)"

  function FormatTokenAmount(v: Value, params: map<string, Value>, resolve: string -> Option<Value>,
                             lookup: TokenLookup, env: Env): string {
    var amount := Show(v, env);
    var tokenPath := if "tokenPath" in params && params["tokenPath"].Str? then params["tokenPath"].s else "";
    if lookup.None? || tokenPath == "" then amount + UNKNOWN_TOKEN
    else
      match resolve(tokenPath)
      case None => amount + UNKNOWN_TOKEN
      case Some(token) =>
        match lookup.value(Lower(Show(token, env)))
        case None => amount + UNKNOWN_TOKEN
        case Some(info) => FormatUnits(amount, info.decimals) + " " + info.symbol
  }

  function FormatValue(v: Value, format: string, params: map<string, Value>,
                       resolve: string -> Option<Value>, lookup: TokenLookup, env: Env): Option<string> {
    if format == "" || format == "raw" then Some(Show(v, env))
    else if format == "addressName" then Some(ShortenAddress(Show(v, env)))
    else if format == "amount" then Some(FormatUnits(Show(v, env), 18))
    else if format == "tokenAmount" then Some(FormatTokenAmount(v, params, resolve, lookup, env))
    else if format == "date" then env.formatDate(Show(v, env))
    else if format == "enum" then
      var key := Show(v, env);
      if key in params then Some(Show(params[key], env)) else None
    else None
  }

  /** A known token's amount is shown exactly, up to the width the printer is good for:
      the number in front of the symbol reads back as the amount in base units. */
  lemma TokenAmountExact(v: Value, params: map<string, Value>, resolve: string -> Option<Value>,
                         lookup: string -> Option<TokenInfo>, env: Env, token: Value, info: TokenInfo)
    requires "tokenPath" in params && params["tokenPath"].Str? && params["tokenPath"].s != ""
    requires resolve(params["tokenPath"].s) == Some(token) && lookup(Lower(Show(token, env))) == Some(info)
    requires ParseInteger(Ten, Show(v, env)).Some?
    ensures var text := FormatValue(v, "tokenAmount", params, resolve, Some(lookup), env);
            text.Some? && exists amount ::
              text.value == amount + " " + info.symbol &&
              (ReadUnits(amount, Width(info.decimals)) == ParseInteger(Ten, Show(v, env)) <==>
                 Printable(ParseInteger(Ten, Show(v, env)).value, info.decimals))
  {
    hide ParseInteger, ReadUnits, FormatUnits, Printable;
    FormatUnitsExact(Show(v, env), info.decimals);
  }

  /** A native amount has 18 decimals. */
  lemma NativeAmountExact(v: Value, params: map<string, Value>, resolve: string -> Option<Value>, lookup: TokenLookup, env: Env)
    requires ParseInteger(Ten, Show(v, env)).Some?
    ensures var text := FormatValue(v, "amount", params, resolve, lookup, env);
            text.Some? && ReadUnits(text.value, 18) == ParseInteger(Ten, Show(v, env))
  {
    hide ParseInteger, ReadUnits, FormatUnits;
    FormatUnitsExact(Show(v, env), 18);
  }

  /** A short text stays; of a longer one the first six and the last four characters do. */
  lemma ShortenedShows(s: string)
    ensures |s| <= 12 ==> ShortenAddress(s) == s
    ensures |s| > 12 ==>
              var r := ShortenAddress(s);
              |r| == 13 && r[..6] == s[..6] && r[6..9] == "..." && r[9..] == s[|s| - 4..]
  {
  }

  /** What is formatted, and how, for the formats that print the value as it is or a
      word for it; and exactly which values cannot be formatted. */
  lemma FormatKinds(v: Value, format: string, params: map<string, Value>, resolve: string -> Option<Value>,
                    lookup: TokenLookup, env: Env)
    ensures var r := FormatValue(v, format, params, resolve, lookup, env);
            (format in {"", "raw"} ==> r == Some(Show(v, env))) &&
            (format == "addressName" ==> r == Some(ShortenAddress(Show(v, env)))) &&
            (format == "enum" && Show(v, env) in params ==> r == Some(Show(params[Show(v, env)], env))) &&
            (format == "date" ==> r == env.formatDate(Show(v, env))) &&
            (r == None <==> format !in {"", "raw", "addressName", "amount", "tokenAmount", "date", "enum"} ||
                            (format == "enum" && Show(v, env) !in params) ||
                            (format == "date" && env.formatDate(Show(v, env)) == None))
  {
  }

  /** Without a lookup, a token path, a value at it or a known token, the bare amount is
      shown as one of an unknown token. */
  lemma UnknownToken(v: Value, params: map<string, Value>, resolve: string -> Option<Value>, lookup: TokenLookup, env: Env)
    requires lookup.None? || "tokenPath" !in params || !params["tokenPath"].Str? || params["tokenPath"].s == "" ||
             resolve(params["tokenPath"].s) == None ||
             lookup.value(Lower(Show(resolve(params["tokenPath"].s).value, env))) == None
    ensures FormatValue(v, "tokenAmount", params, resolve, lookup, env) == Some(Show(v, env) + " (unknown token)")
  {
  }

  // ----- rows

  datatype ResolvedField = ResolvedField(caption: string, value: string)

  datatype ResolvedIntent = ResolvedIntent(intent: string, owner: string, contractName: string,
                                           fields: seq<ResolvedField>)

  predicate IsVisible(v: Visibility) {
    match v
    case Absent => true
    case Text(s) => s != "never"
    case Flag(b) => b
    case OtherKind => true
  }

  function VisibleFields(fields: seq<DisplayField>): seq<DisplayField> {
    if fields == [] then []
    else
      var front, last := VisibleFields(fields[..|fields| - 1]), fields[|fields| - 1];
      if IsVisible(last.visible) then front + [last] else front
  }

  /** Only "never" and false hide a field. */
  lemma HiddenExactly(v: Visibility)
    ensures !IsVisible(v) <==> v == Text("never") || v == Flag(false)
  {
  }

  /** The visible fields keep their order and number: a list shows what its parts show,
      and a single field shows itself or nothing. */
  lemma {:induction false} VisibleConcat(a: seq<DisplayField>, b: seq<DisplayField>, f: DisplayField)
    ensures VisibleFields(a + b) == VisibleFields(a) + VisibleFields(b)
    ensures VisibleFields([f]) == if f.visible == Text("never") || f.visible == Flag(false) then [] else [f]
  {
    VisibleSingle(f);
    assert VisibleFields([]) == [];
    hide VisibleFields, IsVisible;
    if b == [] {
      assert a + b == a;
    } else {
      var front, last := b[..|b| - 1], b[|b| - 1];
      VisibleConcat(a, front, f);
      VisibleStep(a + front, last);
      VisibleStep(front, last);
      assert b == front + [last] && a + b == (a + front) + [last];
    }
  }

  lemma VisibleSingle(f: DisplayField)
    ensures VisibleFields([f]) == if f.visible == Text("never") || f.visible == Flag(false) then [] else [f]
  {
    assert [f][..0] == [];
  }

  lemma VisibleStep(front: seq<DisplayField>, f: DisplayField)
    ensures VisibleFields(front + [f]) ==
            if IsVisible(f.visible) then VisibleFields(front) + [f] else VisibleFields(front)
  {
    assert (front + [f])[..|front|] == front;
  }

  lemma {:induction false} VisiblePrefix(fields: seq<DisplayField>, i: nat, f: DisplayField)
    requires i < |fields| && fields[i] == f && IsVisible(f.visible)
    ensures f in VisibleFields(fields)
    decreases |fields|
  {
    if i < |fields| - 1 {
      VisiblePrefix(fields[..|fields| - 1], i, f);
    }
  }

  /** One row: the path resolved, then formatted. */
  function RenderField(f: DisplayField, decoded: map<string, Value>, lookup: TokenLookup, env: Env): Option<ResolvedField> {
    match Paths.Resolve(decoded, f.path)
    case None => None
    case Some(raw) =>
      match FormatValue(raw, f.format, f.params, p => Paths.Resolve(decoded, p), lookup, env)
      case None => None
      case Some(text) => Some(ResolvedField(f.caption, text))
  }

  method RenderRow(f: DisplayField, decoded: map<string, Value>, lookup: TokenLookup, env: Env)
    returns (row: Option<ResolvedField>)
    ensures row == RenderField(f, decoded, lookup, env)
    ensures row.Some? ==>
              row.value.caption == f.caption && Paths.Resolve(decoded, f.path).Some? &&
              FormatValue(Paths.Resolve(decoded, f.path).value, f.format, f.params, p => Paths.Resolve(decoded, p), lookup, env) ==
                Some(row.value.value)
  {
    var raw := ResolvePath(decoded, f.path);
    if raw.None? {
      return None;
    }
    var resolve := (p: string) => Paths.Resolve(decoded, p);
    var rendered := FormatValue(raw.value, f.format, f.params, resolve, lookup, env);
    if rendered.None? {
      return None;
    }
    return Some(ResolvedField(f.caption, rendered.value));
  }
}
