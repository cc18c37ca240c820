/** Reachable runs of two threads: what can happen when a session ends while a
    signing call is under way, and which chains transactions are signed for. */
module DevRace {
  import opened Common
  import opened Steps
  import opened Text
  import opened DevPolicy
  import opened DevSessions
  import opened DevInvariant
  import opened DevRuns
  import opened DevCalls

  function SampleSession(): DevSession {
    NewDevSession(0, 30, [], map["a" := "a"])
  }

  const MESSAGE: Request := Request(None, "a")

  lemma SampleCreated(start: State) returns (all: seq<Action>, s: State)
    requires start == Initial(2, 0)
    ensures Run(Next, start, all) == Some(s)
    ensures s == State(0, [Done(Some(Created)), Done(None)], {"t"}, {"t"}, map["t" := SampleSession()],
                       multiset{}, multiset{}, multiset{})
  {
    hide Run;
    assert Run(Next, start, []) == Some(start) by { RunEmpty(Next, start); }
    var a := Create(0, "t", 30, [], map["a" := "a"]);
    assert "a" in a.signers;
    s := Take(Next, start, [], start, a);
    assert s.threads == [CreateWant("t", SampleSession()), Done(None)];
    all, s := TakeStep(start, [] + [a], s, 0, true, "");
    assert s.threads == [CreateIn("t", SampleSession()), Done(None)];
    all, s := TakeStep(start, all, s, 0, true, "");
    assert s.threads == [Done(Some(Created)), Done(None)];
  }

  lemma SampleAsked(start: State, req: Request) returns (all: seq<Action>, s: State)
    requires start == Initial(2, 0)
    ensures Run(Next, start, all) == Some(s) && s.threads == [GetWant("t", req), Done(None)]
    ensures s.now == 0 && s.live == {"t"} && s.objects == map["t" := SampleSession()]
  {
    hide Run, Advance, SampleSession;
    all, s := SampleCreated(start);
    s := Take(Next, start, all, s, Sign(0, "t", req));
    all := all + [Sign(0, "t", req)];
  }

  /** Thread 0 has fetched its signer. */
  lemma SampleFetched(start: State, req: Request) returns (all: seq<Action>, s: State)
    requires start == Initial(2, 0) && req.address == "a"
    requires req.chainID.Some? ==> ChainAllowed(req.chainID.value, DEFAULT_TRUSTED)
    ensures Run(Next, start, all) == Some(s) && s.threads == [SignReady("t", req, "a"), Done(None)]
    ensures s.now == 0 && s.live == {"t"} && s.objects == map["t" := SampleSession()]
  {
    hide Run, ChainAllowed, Advance, Next;
    all, s := SampleAsked(start, req);
    all, s := LookupPhase(start, all, s, 0, "t", req, true);
    assert s.threads == [GetFound("t", req), Done(None)];
    all, s := TouchPhase(start, all, s, 0, "t", req, true);
    assert s.threads == [Policy("t", req), Done(None)];
    assert s.objects == map["t" := SampleSession()];
    all, s := FindPhase(start, all, s, 0, "t", req, true);
    assert Lower("a") == "a";
    assert Chosen(SampleSession(), "t", req) == SignReady("t", req, "a");
  }

  /** Thread 0 has made its copy of the key. */
  lemma SampleHeld(start: State, req: Request) returns (all: seq<Action>, s: State)
    requires start == Initial(2, 0) && req.address == "a" && Reaches(req)
    requires req.chainID.Some? ==> ChainAllowed(req.chainID.value, DEFAULT_TRUSTED)
    ensures Run(Next, start, all) == Some(s) && s.threads == [KeyHeld("t", req), Done(None)]
    ensures s.now == 0 && s.live == {"t"} && s.objects == map["t" := SampleSession()]
  {
    hide Run, ChainAllowed, Reaches;
    all, s := SampleFetched(start, req);
    all, s := TakeStep(start, all, s, 0, true, "");
    assert s.threads == [SharesRead("t", req), Done(None)];
    all, s := TakeStep(start, all, s, 0, true, "");
    assert s.threads == [KeyHeld("t", req), Done(None)];
  }

  /** Thread 1 ends the session, wherever thread 0 is without a lock. */
  lemma SampleEnded(start: State, actions: seq<Action>, s0: State, pc: Pc) returns (all: seq<Action>, s: State)
    requires Run(Next, start, actions) == Some(s0) && s0.threads == [pc, Done(None)] && HoldsNothing(pc)
    requires s0.live == {"t"} && s0.objects == map["t" := SampleSession()]
    ensures Run(Next, start, all) == Some(s) && s.threads == [pc, Done(Some(Ended))]
    ensures s.objects == map["t" := AfterErasure(SampleSession())]
  {
    hide Run;
    s := Take(Next, start, actions, s0, End(1, "t"));
    all := actions + [End(1, "t")];
    assert s.threads == [pc, EndWant("t", false)];
    all, s := EndPhase(start, all, s, 1, "t", false);
    assert s.threads == [pc, Done(Some(Ended))];
  }

  lemma ReachedBy(s: State, actions: seq<Action>)
    requires Run(Next, Initial(2, 0), actions) == Some(s)
    ensures Reachable(s)
  {
  }

  /** A signer fetched before EndSession is used after it: the signature call
      dereferences nil. */
  lemma SignAfterEndExample() returns (s: State)
    ensures Reachable(s) && |s.threads| == 2 && s.threads[0] == Done(Some(NilPanic)) && s.threads[1] == Done(Some(Ended))
  {
    hide Run, Reachable;
    var start := Initial(2, 0);
    var all;
    all, s := SampleFetched(start, MESSAGE);
    all, s := SampleEnded(start, all, s, SignReady("t", MESSAGE, "a"));
    assert Lower("a") == "a";
    all, s := TakeStep(start, all, s, 0, true, "");
    ReachedBy(s, all);
  }

  /** A copy of the key made before EndSession signs after it: the session has been
      erased, and another signature is about to be made. */
  lemma KeyOutlivesErasureExample() returns (s: State)
    ensures Reachable(s) && s.threads == [KeyHeld("t", MESSAGE), Done(Some(Ended))] && s.wipes["t"] == 1
    ensures Next(s, Step(0, true, "")).Some?
    ensures Next(s, Step(0, true, "")).value.signatures["t"] == s.signatures["t"] + 1
  {
    hide Run, Reachable, Inv;
    var start := Initial(2, 0);
    var all;
    all, s := SampleHeld(start, MESSAGE);
    all, s := SampleEnded(start, all, s, KeyHeld("t", MESSAGE));
    ReachedBy(s, all);
    ReachableInv(s);
    WipesOf(s);
    var _, _ := TakeStep(start, all, s, 0, true, "");
    assert CanAcquire(s.threads, s.threads[0]);
  }

  /** The step signs a transaction for the chain. */
  ghost predicate SignsFor(s: State, tid: nat, ok: bool, pick: Token, chainID: int) {
    tid < |s.threads| && s.threads[tid].KeyHeld? && s.threads[tid].req.chainID == Some(chainID) &&
    Next(s, Step(tid, ok, pick)).Some? && Next(s, Step(tid, ok, pick)).value.signatures != s.signatures
  }

  /** In a session that trusts one of the two test networks, only steps for that one sign. */
  lemma TrustedChainSigned(s: State, tid: nat, ok: bool, pick: Token, chainID: int)
    requires Reachable(s) && SignsFor(s, tid, ok, pick, chainID)
    ensures s.threads[tid].token in s.objects
    ensures var trusted := s.objects[s.threads[tid].token].trusted;
            (trusted == ["sepolia"] ==> chainID == 11155111) && (trusted == ["goerli"] ==> chainID == 5)
  {
    hide Reachable, ChainAllowed;
    OnlyAllowedChainsSigned(s, tid, ok, pick);
    TrustedChain(chainID);
  }

  lemma SampleSigns(chainID: int) returns (s: State)
    requires chainID in {5, 11155111}
    ensures Reachable(s) && SignsFor(s, 0, true, "", chainID)
  {
    hide Run, Reachable;
    var start, req := Initial(2, 0), Request(Some(chainID), "a");
    SignableExactly(chainID, DEFAULT_TRUSTED);
    var all;
    all, s := SampleHeld(start, req);
    ReachedBy(s, all);
    assert CanAcquire(s.threads, s.threads[0]);
    assert (s.signatures + multiset{"t"})["t"] == s.signatures["t"] + 1;
  }

  /** Transactions are signed for Goerli and Sepolia, and for no other chain ever. */
  lemma SignedChainsExactly(chainID: int)
    ensures (exists s, tid: nat, ok, pick :: Reachable(s) && SignsFor(s, tid, ok, pick, chainID)) <==>
            chainID in {5, 11155111}
  {
    hide Reachable, Next;
    if chainID in {5, 11155111} {
      var s := SampleSigns(chainID);
    }
    if s, tid: nat, ok, pick :| Reachable(s) && SignsFor(s, tid, ok, pick, chainID) {
      OnlyAllowedChainsSigned(s, tid, ok, pick);
    }
  }
}
