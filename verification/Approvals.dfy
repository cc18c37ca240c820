/** Security fields of token approvals: enrichApproval and its memo of code probes
    (internal/provider/alchemy_client.go, approval_risk.go). */
module Approvals {
  import opened Common
  import opened Text

  datatype Risk = Red | Yellow | Green

  datatype Approval = Approval(network: string, spender: string, isUnlimited: bool)

  datatype Enriched = Enriched(spenderType: string, isEOA: bool, isMalicious: bool, risk: Risk)

  /** The registry of known spenders, with their categories, and the blocklist. */
  datatype Tables = Tables(known: (string, string) -> Option<string>, malicious: string -> bool)

  function ClassifyApprovalRisk(isUnlimited: bool, spenderKnown: bool, isEOA: bool, isMalicious: bool): Risk {
    if isMalicious || isEOA then Red
    else if spenderKnown then (if isUnlimited then Yellow else Green)
    else if isUnlimited then Red else Yellow
  }

  /** Green is a limited approval of a known spender that is neither malicious nor a plain
      account; red is one to either of these, or an unlimited one to an unknown contract. */
  lemma RiskExactly(unlimited: bool, known: bool, eoa: bool, malicious: bool)
    ensures ClassifyApprovalRisk(unlimited, known, eoa, malicious) == Green <==> known && !unlimited && !eoa && !malicious
    ensures ClassifyApprovalRisk(unlimited, known, eoa, malicious) == Red <==> malicious || eoa || (unlimited && !known)
  {
  }

  predicate IsTrimmed(c: char) {
    c == ' ' || '\t' <= c <= '\r'
  }

  /** strings.TrimSpace */
  function TrimSpace(s: string): string {
    if s != "" && IsTrimmed(s[0]) then TrimSpace(s[1..])
    else if s != "" && IsTrimmed(s[|s| - 1]) then TrimSpace(s[..|s| - 1])
    else s
  }

  predicate IsEmptyCode(code: string) {
    var c := TrimSpace(Lower(code));
    c == "" || c == "0x" || c == "0x0"
  }

  const BLANKS: set<char> := {' ', '\t', '\n', '\r', 11 as char, 12 as char}

  predicate Blank(s: string) {
    forall i :: 0 <= i < |s| ==> s[i] in BLANKS
  }

  lemma {:induction false} TrimSpaceSplits(s: string) returns (a: string, b: string)
    ensures Blank(a) && Blank(b) && s == a + TrimSpace(s) + b
    decreases |s|
  {
    a, b := "", "";
    assert Blank("");
    hide Blank;
    if s != "" && IsTrimmed(s[0]) {
      a, b := TrimSpaceSplits(s[1..]);
      Prepend(s, a, TrimSpace(s), b);
      a := [s[0]] + a;
    } else if s != "" && IsTrimmed(s[|s| - 1]) {
      a, b := TrimSpaceSplits(s[..|s| - 1]);
      Append(s, a, TrimSpace(s), b);
      b := b + [s[|s| - 1]];
    } else {
      assert "" + s + "" == s;
    }
  }

  lemma Prepend(s: string, a: string, x: string, b: string)
    requires s != "" && s[1..] == a + x + b && Blank(a) && s[0] in BLANKS
    ensures s == ([s[0]] + a) + x + b && Blank([s[0]] + a)
  {
    assert s == [s[0]] + s[1..];
  }

  lemma Append(s: string, a: string, x: string, b: string)
    requires s != "" && s[..|s| - 1] == a + x + b && Blank(b) && s[|s| - 1] in BLANKS
    ensures s == a + x + (b + [s[|s| - 1]]) && Blank(b + [s[|s| - 1]])
  {
    assert s == s[..|s| - 1] + [s[|s| - 1]];
  }

  lemma {:induction false} TrimFront(a: string, y: string)
    requires Blank(a)
    ensures TrimSpace(a + y) == TrimSpace(y)
  {
    if a == "" {
      assert a + y == y;
    } else {
      assert (a + y)[0] == a[0] && (a + y)[1..] == a[1..] + y;
      TrimFront(a[1..], y);
    }
  }

  lemma {:induction false} TrimBack(x: string, b: string)
    requires Blank(b) && x != "" && x[0] !in BLANKS
    ensures TrimSpace(x + b) == TrimSpace(x)
  {
    if b == "" {
      assert x + b == x;
    } else {
      var s, front := x + b, b[..|b| - 1];
      assert s[0] == x[0] && s[|s| - 1] == b[|b| - 1] && s[..|s| - 1] == x + front;
      TrimBack(x, front);
    }
  }

  lemma TrimNothing(x: string)
    requires x != "" ==> x[0] !in BLANKS && x[|x| - 1] !in BLANKS
    ensures TrimSpace(x) == x
  {
  }

  lemma TrimSpaceOf(a: string, x: string, b: string)
    requires Blank(a) && Blank(b) && (x != "" ==> x[0] !in BLANKS && x[|x| - 1] !in BLANKS)
    ensures TrimSpace(a + x + b) == x
  {
    hide Blank, TrimSpace;
    assert a + x + b == a + (x + b);
    TrimFront(a, x + b);
    TrimNothing(x);
    if x == "" {
      assert x + b == b == b + "";
      TrimFront(b, "");
    } else {
      TrimBack(x, b);
    }
  }

  /** Code is empty exactly when it is nothing, "0x" or "0x0", in either case of the
      letter and with white space around it. */
  lemma EmptyCodeExactly(code: string)
    ensures IsEmptyCode(code) <==>
            exists a, x, b :: Blank(a) && Blank(b) && x in {"", "0x", "0x0"} && Lower(code) == a + x + b
  {
    hide TrimSpace;
    var a, b := TrimSpaceSplits(Lower(code));
    if a', x, b' :| Blank(a') && Blank(b') && x in {"", "0x", "0x0"} && Lower(code) == a' + x + b' {
      TrimSpaceOf(a', x, b');
    }
  }

  /** Only a spender that is neither known nor blocklisted has its code looked at. */
  predicate Unknown(t: Tables, a: Approval) {
    t.known(a.network, a.spender).None? && !t.malicious(a.spender)
  }

  /** eth_getCode: the answer to the n-th probe; None is an error. */
  type Node = nat -> Option<string>

  class Enricher {
    const tables: Tables
    var eoaCache: map<string, bool>
    var probed: seq<string>

    /** The memo holds exactly what was probed, each spender once, with the
        verdict of its probe. */
    ghost predicate Valid(node: Node)
      reads this
    {
      (forall i, j :: 0 <= i < j < |probed| ==> probed[i] != probed[j]) &&
      (forall s :: s in eoaCache <==> s in probed) &&
      (forall i :: 0 <= i < |probed| ==> eoaCache[probed[i]] == Verdict(node, i))
    }

    constructor (tables: Tables, ghost node: Node)
      ensures Valid(node) && this.tables == tables && probed == []
    {
      this.tables := tables;
      eoaCache, probed := map[], [];
    }

    /** An error counts as a contract. */
    static predicate Verdict(node: Node, i: nat) {
      node(i).Some? && IsEmptyCode(node(i).value)
    }

    method Enrich(node: Node, a: Approval) returns (e: Enriched)
      requires Valid(node)
      modifies this
      ensures Valid(node) && old(probed) <= probed
      ensures probed == if Unknown(tables, a) && Lower(a.spender) !in old(probed) then old(probed) + [Lower(a.spender)]
                        else old(probed)
      ensures forall s :: s in old(eoaCache) ==> s in eoaCache && eoaCache[s] == old(eoaCache)[s]
      ensures Unknown(tables, a) ==> Lower(a.spender) in eoaCache
      ensures e.isMalicious == tables.malicious(a.spender)
      ensures e.isEOA <==> Unknown(tables, a) && eoaCache[Lower(a.spender)]
      ensures e.spenderType == var k := tables.known(a.network, a.spender);
                               if k.Some? then "known:" + k.value else if e.isEOA then "eoa" else "contract"
      ensures e.risk == ClassifyApprovalRisk(a.isUnlimited, tables.known(a.network, a.spender).Some?, e.isEOA, e.isMalicious)
    {
      var known := tables.known(a.network, a.spender);
      var malicious := tables.malicious(a.spender);
      var isEOA := false;
      var spenderType := "contract";
      if known.Some? {
        spenderType := "known:" + known.value;
      } else if !malicious {
        var sp := Lower(a.spender);
        if sp in eoaCache {
          isEOA := eoaCache[sp];
        } else {
          isEOA := Verdict(node, |probed|);
          eoaCache := eoaCache[sp := isEOA];
          probed := probed + [sp];
        }
        if isEOA {
          spenderType := "eoa";
        }
      }
      return Enriched(spenderType, isEOA, malicious, ClassifyApprovalRisk(a.isUnlimited, known.Some?, isEOA, malicious));
    }
  }

  /** s is an unknown spender of the first n approvals. */
  ghost predicate AskedFor(t: Tables, approvals: seq<Approval>, n: nat, s: string) {
    exists i :: 0 <= i < n && i < |approvals| && Unknown(t, approvals[i]) && Lower(approvals[i].spender) == s
  }

  /** The spenders probed are the unknown ones among the first n approvals. */
  ghost predicate ProbedSoFar(t: Tables, approvals: seq<Approval>, n: nat, probed: seq<string>) {
    forall s :: s in probed <==> AskedFor(t, approvals, n, s)
  }

  lemma ProbedStep(t: Tables, approvals: seq<Approval>, n: nat, probed: seq<string>, probed': seq<string>)
    requires n < |approvals| && ProbedSoFar(t, approvals, n, probed)
    requires var a := approvals[n];
             probed' == if Unknown(t, a) && Lower(a.spender) !in probed then probed + [Lower(a.spender)] else probed
    ensures ProbedSoFar(t, approvals, n + 1, probed')
  {
    hide Unknown, Lower;
    forall s ensures AskedFor(t, approvals, n + 1, s) <==>
                     AskedFor(t, approvals, n, s) || (Unknown(t, approvals[n]) && Lower(approvals[n].spender) == s) {
    }
  }

  /** The verdicts on the first n approvals are those of the memo. */
  ghost predicate Follows(t: Tables, approvals: seq<Approval>, es: seq<Enriched>, memo: map<string, bool>) {
    |es| <= |approvals| &&
    forall i :: 0 <= i < |es| ==>
      (Unknown(t, approvals[i]) ==> Lower(approvals[i].spender) in memo && es[i].isEOA == memo[Lower(approvals[i].spender)]) &&
      (t.malicious(approvals[i].spender) || es[i].isEOA ==> es[i].risk == Red)
  }

  lemma FollowsStep(t: Tables, approvals: seq<Approval>, es: seq<Enriched>, memo: map<string, bool>,
                    e: Enriched, memo': map<string, bool>)
    requires |es| < |approvals| && Follows(t, approvals, es, memo)
    requires forall s :: s in memo ==> s in memo' && memo'[s] == memo[s]
    requires var a := approvals[|es|];
             (Unknown(t, a) ==> Lower(a.spender) in memo' && e.isEOA == memo'[Lower(a.spender)]) &&
             (t.malicious(a.spender) || e.isEOA ==> e.risk == Red)
    ensures Follows(t, approvals, es + [e], memo')
  {
    hide Unknown, Lower;
  }

  /** Over a whole query each spender is probed at most once, known and blocklisted
      spenders never, and approvals to the same unknown spender get the same verdict,
      whatever the node would have answered to a second probe. */
  method EnrichAll(tables: Tables, node: Node, approvals: seq<Approval>)
    returns (es: seq<Enriched>, probed: seq<string>, memo: map<string, bool>)
    ensures |es| == |approvals| && Follows(tables, approvals, es, memo)
    ensures forall i, j :: 0 <= i < j < |probed| ==> probed[i] != probed[j]
    ensures forall s :: s in probed <==> AskedFor(tables, approvals, |approvals|, s)
    ensures forall i :: 0 <= i < |probed| ==> probed[i] in memo && memo[probed[i]] == Enricher.Verdict(node, i)
  {
    hide Unknown, Lower, IsEmptyCode;
    var enricher := new Enricher(tables, node);
    es := [];
    for n := 0 to |approvals|
      invariant fresh(enricher) && enricher.Valid(node) && enricher.tables == tables && |es| == n
      invariant ProbedSoFar(tables, approvals, n, enricher.probed)
      invariant Follows(tables, approvals, es, enricher.eoaCache)
    {
      hide ProbedSoFar, Follows, Enricher.Valid;
      ghost var before, asked := enricher.eoaCache, enricher.probed;
      var e := enricher.Enrich(node, approvals[n]);
      ProbedStep(tables, approvals, n, asked, enricher.probed);
      FollowsStep(tables, approvals, es, before, e, enricher.eoaCache);
      es := es + [e];
    }
    probed, memo := enricher.probed, enricher.eoaCache;
  }
}
