/** Safety and progress of the developer sessions over whole runs. */
module DevRuns {
  import opened Common
  import opened Steps
  import opened Text
  import opened DevPolicy
  import opened DevSessions
  import opened DevInvariant

  // ----- runs

  lemma {:induction false} RunKeepsInv(s: State, actions: seq<Action>)
    requires Inv(s) && Run(Next, s, actions).Some?
    ensures Inv(Run(Next, s, actions).value)
  {
    hide Inv, Next;
    if actions != [] {
      RunKeepsInv(s, actions[..|actions| - 1]);
      NextKeepsInv(Run(Next, s, actions[..|actions| - 1]).value, actions[|actions| - 1]);
    }
  }

  lemma {:induction false} InitialInv(threads: nat, now: int)
    ensures Inv(Initial(threads, now))
  {
    var s := Initial(threads, now);
    forall t ensures Pending(s.threads, t) == 0 {
      NonePending(s.threads, t);
    }
  }

  ghost predicate Reachable(s: State) {
    exists threads: nat, now, actions :: Run(Next, Initial(threads, now), actions) == Some(s)
  }

  lemma ReachableInv(s: State)
    requires Reachable(s)
    ensures Inv(s)
  {
    hide Inv;
    var threads: nat, now, actions :| Run(Next, Initial(threads, now), actions) == Some(s);
    InitialInv(threads, now);
    RunKeepsInv(Initial(threads, now), actions);
  }

  /** In every interleaving a stored session is taken out of the map at most once
      and erased at most once; and one that is out of the map is either erased, or
      some thread is on its way to erase it. */
  lemma RemovedAndErasedOnce(s: State, t: Token)
    requires Reachable(s)
    ensures s.removals[t] <= 1 && s.wipes[t] <= 1
    ensures s.removals[t] == 1 <==> t in s.objects && t !in s.live
    ensures s.wipes[t] == 1 <==> t in s.objects && s.objects[t].signers.None?
    ensures s.removals[t] == 1 && s.wipes[t] == 0 ==> exists i :: 0 <= i < |s.threads| && Wiping(s.threads[i]) == Some(t)
    ensures forall i, j :: 0 <= i < j < |s.threads| && Wiping(s.threads[i]) == Some(t) ==> Wiping(s.threads[j]) != Some(t)
  {
    ReachableInv(s);
    forall i, j | 0 <= i < j < |s.threads| && Wiping(s.threads[i]) == Some(t) ensures Wiping(s.threads[j]) != Some(t) {
      assert !Clash(s.threads[i], s.threads[j]);
    }
  }

  /** SignCount is the number of signatures made, less those whose threads have not
      yet come to count them; when no thread is on the way, it is exact. */
  lemma SignCountExact(s: State, t: Token)
    requires Reachable(s) && t in s.objects
    ensures s.objects[t].signCount + Pending(s.threads, t) == s.signatures[t]
    ensures (forall i :: 0 <= i < |s.threads| ==> Counting(s.threads[i]) != Some(t)) ==> s.objects[t].signCount == s.signatures[t]
  {
    ReachableInv(s);
    if forall i :: 0 <= i < |s.threads| ==> Counting(s.threads[i]) != Some(t) {
      NonePending(s.threads, t);
    }
  }

  /** A transaction is only ever signed for Goerli or Sepolia, and only when the
      session trusts the name. */
  lemma OnlyAllowedChainsSigned(s: State, tid: nat, ok: bool, pick: Token)
    requires Reachable(s) && Next(s, Step(tid, ok, pick)).Some?
    requires Next(s, Step(tid, ok, pick)).value.signatures != s.signatures
    ensures s.threads[tid].KeyHeld?
    ensures var req := s.threads[tid].req;
            req.chainID.Some? ==>
              req.chainID.value in {5, 11155111} && s.threads[tid].token in s.objects &&
              ChainAllowed(req.chainID.value, s.objects[s.threads[tid].token].trusted)
  {
    ReachableInv(s);
    hide Inv, Reachable, ChainAllowed, AdapterTakes, Lower, Refusal;
    OwnThread(s, tid);
    var req := s.threads[tid].req;
    if req.chainID.Some? {
      SignableExactly(req.chainID.value, s.objects[s.threads[tid].token].trusted);
    }
  }

  // A removed session and an erased session stay that way.

  ghost predicate Gone(s: State, t: Token) {
    t in s.used && t !in s.live && forall i :: 0 <= i < |s.threads| ==> Making(s.threads[i]) != Some(t)
  }

  lemma NextKeepsGone(s: State, a: Action, t: Token)
    requires Gone(s, t) && Next(s, a).Some?
    ensures Gone(Next(s, a).value, t)
  {
    var s' := Next(s, a).value;
    if a.Step? {
      GoneStep(s, a.tid, s.threads[a.tid], a.ok, a.pick, t);
    }
  }

  lemma GoneStep(s: State, tid: nat, pc: Pc, ok: bool, pick: Token, t: Token)
    requires Gone(s, t) && tid < |s.threads| && pc == s.threads[tid] && Advance(s, tid, pc, ok, pick).Some?
    ensures Gone(Advance(s, tid, pc, ok, pick).value, t)
  {
    assert Making(pc) != Some(t);
    MakingStep(s, tid, pc, ok, pick, t);
    ObjectStep(s, tid, pc, ok, pick, t);
    hide Advance;
  }

  lemma {:induction false} GoneForever(s: State, actions: seq<Action>, t: Token)
    requires Gone(s, t) && Run(Next, s, actions).Some?
    ensures Gone(Run(Next, s, actions).value, t)
  {
    hide Gone, Next;
    if actions != [] {
      GoneForever(s, actions[..|actions| - 1], t);
      NextKeepsGone(Run(Next, s, actions[..|actions| - 1]).value, actions[|actions| - 1], t);
    }
  }

  /** A token that has been taken out of the map never reappears. */
  lemma RemovedNeverReappears(s: State, actions: seq<Action>, t: Token)
    requires Reachable(s) && s.removals[t] == 1 && Run(Next, s, actions).Some?
    ensures t !in Run(Next, s, actions).value.live
  {
    ReachableInv(s);
    forall i | 0 <= i < |s.threads| ensures Making(s.threads[i]) != Some(t) {
      assert ThreadOk(s, s.threads[i]);
    }
    assert Gone(s, t);
    hide Inv, Next, Run;
    GoneForever(s, actions, t);
  }

  ghost predicate Erased(s: State, t: Token) {
    t in s.objects && s.objects[t].signers.None? && t in s.used &&
    forall i :: 0 <= i < |s.threads| ==> Making(s.threads[i]) != Some(t)
  }

  lemma NextKeepsErased(s: State, a: Action, t: Token)
    requires Erased(s, t) && Next(s, a).Some?
    ensures Erased(Next(s, a).value, t)
  {
    if a.Step? {
      ErasedStep(s, a.tid, s.threads[a.tid], a.ok, a.pick, t);
    }
  }

  lemma ErasedStep(s: State, tid: nat, pc: Pc, ok: bool, pick: Token, t: Token)
    requires Erased(s, t) && tid < |s.threads| && pc == s.threads[tid] && Advance(s, tid, pc, ok, pick).Some?
    ensures Erased(Advance(s, tid, pc, ok, pick).value, t)
  {
    assert Making(pc) != Some(t);
    MakingStep(s, tid, pc, ok, pick, t);
    ObjectStep(s, tid, pc, ok, pick, t);
    hide Advance;
  }

  /** Only the thread moves, and it does not start to make a session. */
  lemma MakingStep(s: State, tid: nat, pc: Pc, ok: bool, pick: Token, t: Token)
    requires tid < |s.threads| && pc == s.threads[tid] && Making(pc) != Some(t) && Advance(s, tid, pc, ok, pick).Some?
    ensures var s' := Advance(s, tid, pc, ok, pick).value;
            s'.threads == s.threads[tid := s'.threads[tid]] && Making(s'.threads[tid]) != Some(t)
  {
    hide Lower, Reaches, ChainAllowed, Refusal;
  }

  /** A session that is not being made keeps its place and never gets its signers back. */
  lemma ObjectStep(s: State, tid: nat, pc: Pc, ok: bool, pick: Token, t: Token)
    requires tid < |s.threads| && Making(pc) != Some(t) && Advance(s, tid, pc, ok, pick).Some?
    ensures var s' := Advance(s, tid, pc, ok, pick).value;
            (t in s.objects <==> t in s'.objects) && s'.used == s.used && (t !in s.live ==> t !in s'.live) &&
            (t in s.objects && s.objects[t].signers.None? ==> s'.objects[t].signers.None?)
  {
    PlaceStep(s, tid, pc, ok, pick, t);
    if t in s.objects {
      SignersStep(s, tid, pc, ok, pick, t);
    }
    hide Advance;
  }

  lemma PlaceStep(s: State, tid: nat, pc: Pc, ok: bool, pick: Token, t: Token)
    requires tid < |s.threads| && Making(pc) != Some(t) && Advance(s, tid, pc, ok, pick).Some?
    ensures var s' := Advance(s, tid, pc, ok, pick).value;
            (t in s.objects <==> t in s'.objects) && s'.used == s.used && (t !in s.live ==> t !in s'.live)
  {
    hide Lower, Reaches, ChainAllowed, Refusal;
  }

  lemma SignersStep(s: State, tid: nat, pc: Pc, ok: bool, pick: Token, t: Token)
    requires tid < |s.threads| && Making(pc) != Some(t) && Advance(s, tid, pc, ok, pick).Some?
    requires t in s.objects && t in Advance(s, tid, pc, ok, pick).value.objects
    ensures s.objects[t].signers.None? ==> Advance(s, tid, pc, ok, pick).value.objects[t].signers.None?
  {
    hide Lower, Reaches, ChainAllowed, Refusal;
  }

  lemma {:induction false} ErasedForever(s: State, actions: seq<Action>, t: Token)
    requires Erased(s, t) && Run(Next, s, actions).Some?
    ensures Erased(Run(Next, s, actions).value, t)
  {
    hide Erased, Next;
    if actions != [] {
      ErasedForever(s, actions[..|actions| - 1], t);
      NextKeepsErased(Run(Next, s, actions[..|actions| - 1]).value, actions[|actions| - 1], t);
    }
  }

  // Threads with a copy of a key.

  predicate HoldsKey(pc: Pc, t: Token) {
    pc.KeyHeld? && pc.token == t
  }

  function Holding(threads: seq<Pc>, t: Token): nat {
    if threads == [] then 0
    else Holding(threads[..|threads| - 1], t) + (if HoldsKey(threads[|threads| - 1], t) then 1 else 0)
  }

  lemma {:induction false} HoldingUpdate(threads: seq<Pc>, i: nat, pc: Pc, t: Token)
    requires i < |threads|
    ensures Holding(threads[i := pc], t) + (if HoldsKey(threads[i], t) then 1 else 0) ==
            Holding(threads, t) + (if HoldsKey(pc, t) then 1 else 0)
  {
    var n := |threads| - 1;
    if i < n {
      HoldingUpdate(threads[..n], i, pc, t);
      assert threads[i := pc][..n] == threads[..n][i := pc];
    } else {
      assert threads[i := pc][..n] == threads[..n];
    }
  }

  lemma {:induction false} SomeHolder(threads: seq<Pc>, t: Token) returns (i: nat)
    requires Holding(threads, t) > 0
    ensures i < |threads| && HoldsKey(threads[i], t)
  {
    var n := |threads| - 1;
    if HoldsKey(threads[n], t) {
      i := n;
    } else {
      i := SomeHolder(threads[..n], t);
    }
  }

  /** Erased, with every signer zeroized and every fetched one known to the session. */
  ghost predicate Zeroized(s: State, t: Token) {
    Inv(s) && Erased(s, t)
  }

  lemma ZeroizedStep(s: State, tid: nat, pc: Pc, ok: bool, pick: Token, t: Token)
    requires tid < |s.threads| && pc == s.threads[tid] && ThreadOk(s, pc) && Advance(s, tid, pc, ok, pick).Some?
    requires t in s.objects && s.objects[t].emptied == s.objects[t].keys
    ensures var s' := Advance(s, tid, pc, ok, pick).value;
            s'.threads == s.threads[tid := s'.threads[tid]] &&
            s'.signatures[t] + (if HoldsKey(s'.threads[tid], t) then 1 else 0) <=
            s.signatures[t] + (if HoldsKey(pc, t) then 1 else 0) &&
            s.signatures[t] <= s'.signatures[t]
  {
    hide Lower, Reaches, ChainAllowed, Refusal, Permitted;
  }

  lemma ZeroizedNext(s: State, a: Action, t: Token)
    requires Zeroized(s, t) && Next(s, a).Some?
    ensures var s' := Next(s, a).value;
            s.signatures[t] <= s'.signatures[t] &&
            s'.signatures[t] + Holding(s'.threads, t) <= s.signatures[t] + Holding(s.threads, t)
  {
    hide Holding;
    if a.Step? {
      StoredOk(s, t);
      assert s.objects[t].emptied == s.objects[t].keys;
      OwnThread(s, a.tid);
      hide Inv, Advance;
      ZeroizedStep(s, a.tid, s.threads[a.tid], a.ok, a.pick, t);
      HoldingUpdate(s.threads, a.tid, Next(s, a).value.threads[a.tid], t);
    } else if !a.Tick? {
      HoldingUpdate(s.threads, a.tid, Next(s, a).value.threads[a.tid], t);
    }
  }

  lemma {:induction false} ZeroizedRun(s: State, actions: seq<Action>, t: Token)
    requires Zeroized(s, t) && Run(Next, s, actions).Some?
    ensures var later := Run(Next, s, actions).value;
            Zeroized(later, t) && s.signatures[t] <= later.signatures[t] &&
            later.signatures[t] + Holding(later.threads, t) <= s.signatures[t] + Holding(s.threads, t)
  {
    hide Inv, Erased, Next, Holding;
    RunKeepsInv(s, actions);
    ErasedForever(s, actions, t);
    if actions != [] {
      var front := actions[..|actions| - 1];
      ZeroizedRun(s, front, t);
      ZeroizedNext(Run(Next, s, front).value, actions[|actions| - 1], t);
    }
  }

  lemma WipedIsErased(s: State, t: Token)
    requires Reachable(s) && s.wipes[t] == 1
    ensures Zeroized(s, t)
  {
    ReachableInv(s);
    forall i | 0 <= i < |s.threads| ensures Making(s.threads[i]) != Some(t) {
      assert ThreadOk(s, s.threads[i]);
    }
  }

  /** Once a session has been erased, no key of it is reconstructed any more, however
      the run goes on: the signatures still to come are at most as many as the threads
      that hold a copy of a key at that moment. Every signer lookup fails with "address
      not found", a signer fetched before fails or dereferences nil, and shares read
      before give no key. */
  lemma NoKeyAfterErasure(s: State, actions: seq<Action>, tid: nat, ok: bool, pick: Token, t: Token)
    requires Reachable(s) && s.wipes[t] == 1 && Run(Next, s, actions).Some?
    ensures var later := Run(Next, s, actions).value;
            s.signatures[t] <= later.signatures[t] &&
            later.signatures[t] + Holding(later.threads, t) <= s.signatures[t] + Holding(s.threads, t)
    ensures var later := Run(Next, s, actions).value;
            tid < |later.threads| && CanAcquire(later.threads, later.threads[tid]) ==>
              var pc, r := later.threads[tid], Advance(later, tid, later.threads[tid], ok, pick);
              (pc.FindIn? && pc.token == t ==> r.Some? && r.value.threads[tid] == Done(Some(AddressNotFound))) &&
              (pc.SignReady? && pc.token == t ==>
                 r.Some? && r.value.threads[tid] ==
                   Done(Some(if Reaches(pc.req) && pc.controls == pc.req.address then NilPanic else SigningFailed))) &&
              (pc.SharesRead? && pc.token == t ==> r.Some? && r.value.threads[tid] == Done(Some(SigningFailed)))
  {
    WipedIsErased(s, t);
    hide Next, Run, CanAcquire, Holding, Reaches;
    ZeroizedRun(s, actions, t);
    var later := Run(Next, s, actions).value;
    StoredOk(later, t);
    if tid < |later.threads| {
      OwnThread(later, tid);
    }
    hide Inv;
  }

  /** The signatures of an erased session stay as they are in every continuation
      exactly when no thread holds a copy of one of its keys. */
  lemma SignaturesFixedIff(s: State, t: Token)
    requires Reachable(s) && s.wipes[t] == 1
    ensures (forall actions :: Run(Next, s, actions).Some? ==> Run(Next, s, actions).value.signatures[t] == s.signatures[t])
            <==> Holding(s.threads, t) == 0
  {
    WipedIsErased(s, t);
    hide Inv, Erased, Next, Run, Holding;
    if Holding(s.threads, t) == 0 {
      forall actions | Run(Next, s, actions).Some?
        ensures Run(Next, s, actions).value.signatures[t] == s.signatures[t]
      {
        ZeroizedRun(s, actions, t);
      }
    } else {
      var i := SomeHolder(s.threads, t);
      HolderCanSign(s, i, t);
    }
  }

  lemma HolderCanSign(s: State, i: nat, t: Token)
    requires i < |s.threads| && HoldsKey(s.threads[i], t)
    ensures exists actions ::
              Run(Next, s, actions).Some? && Run(Next, s, actions).value.signatures[t] == s.signatures[t] + 1
  {
    RunEmpty(Next, s);
    hide Run;
    assert CanAcquire(s.threads, s.threads[i]);
    var after := Take(Next, s, [], s, Step(i, true, ""));
    assert Run(Next, s, [] + [Step(i, true, "")]) == Some(after);
  }

  /** What EndSession answers when another thread has removed the session first; a lookup
      that found it overdue says so all the same. */
  lemma RemovedFirst(s: State, tid: nat, t: Token, expired: bool, ok: bool, pick: Token)
    requires tid < |s.threads| && s.threads[tid] == EndIn(t, expired) && t !in s.live
    ensures Advance(s, tid, s.threads[tid], ok, pick) ==
            Some(Goto(s, tid, Done(Some(if expired then SessionExpired else NotFound))))
  {
  }

  /** A call dereferences nil exactly when it is about to sign, with a signer of the
      address asked for, for a chain whose adapter lets it through, and the signer has
      been zeroized; which it is once the session has been erased. */
  lemma NilPanicIff(s: State, tid: nat, ok: bool, pick: Token)
    requires Reachable(s)
    ensures var r := Next(s, Step(tid, ok, pick));
            r.Some? ==>
              tid < |s.threads| && tid < |r.value.threads| &&
              var pc := s.threads[tid];
              (r.value.threads[tid] == Done(Some(NilPanic)) <==>
                 pc.SignReady? && Reaches(pc.req) && pc.controls == pc.req.address &&
                 pc.token in s.objects && Lower(pc.req.address) in s.objects[pc.token].dropped) &&
              (pc.SignReady? && s.wipes[pc.token] == 1 ==>
                 pc.token in s.objects && Lower(pc.req.address) in s.objects[pc.token].dropped)
  {
    ReachableInv(s);
    if Next(s, Step(tid, ok, pick)).Some? {
      OwnThread(s, tid);
      if s.threads[tid].SignReady? {
        StoredOk(s, s.threads[tid].token);
      }
      WipesOf(s);
      hide Inv, Advance, Reachable;
      assert Next(s, Step(tid, ok, pick)) == Advance(s, tid, s.threads[tid], ok, pick);
      hide Next;
      PanicsIff(s, tid, s.threads[tid], ok, pick);
    }
  }

  lemma PanicsIff(s: State, tid: nat, pc: Pc, ok: bool, pick: Token)
    requires tid < |s.threads| && Advance(s, tid, pc, ok, pick).Some?
    requires pc == s.threads[tid]
    ensures var s' := Advance(s, tid, pc, ok, pick).value;
            tid < |s'.threads| &&
            (s'.threads[tid] == Done(Some(NilPanic)) <==>
               pc.SignReady? && Reaches(pc.req) && pc.controls == pc.req.address &&
               pc.token in s.objects && Lower(pc.req.address) in s.objects[pc.token].dropped)
  {
    hide Reaches, Lower;
  }

  lemma WipesOf(s: State)
    requires Inv(s)
    ensures forall t :: s.wipes[t] == if t in s.objects && s.objects[t].signers.None? then 1 else 0
  {
  }

  /** While some thread is inside a call, some step is possible. */
  lemma SomeStepPossible(s: State, busy: nat) returns (a: Action)
    requires Reachable(s) && busy < |s.threads| && !s.threads[busy].Done?
    ensures a.Step? && Next(s, a).Some?
  {
    ReachableInv(s);
    var i := NoDeadlock(s.threads, busy);
    hide Inv;
    OwnThread(s, i);
    assert CanAcquire(s.threads, s.threads[i]) by { RunnableAcquires(s.threads, i); }
    hide CanAcquire, ThreadOk, Runnable;
    var pick := Choice(s, i);
    a := Step(i, true, pick);
  }

  /** The map entry to visit next, so that the thread can go on. */
  lemma Choice(s: State, i: nat) returns (pick: string)
    requires Inv(s) && i < |s.threads| && !s.threads[i].Done?
    ensures Advance(s, i, s.threads[i], true, pick).Some?
  {
    OwnThread(s, i);
    pick := "";
    var pc := s.threads[i];
    if pc.SweepIn? {
      if t :| t in s.live && t in s.objects && pc.at > s.objects[t].expiresAt {
        pick := t;
      }
    } else if pc.WipeIn? || pc.SweepWipeIn? {
      StoredOk(s, pc.token);
      var o := s.objects[pc.token];
      if key :| key in o.keys && key !in o.emptied {
        pick := key;
      }
    }
    hide Inv;
  }

  lemma RunnableAcquires(threads: seq<Pc>, i: nat)
    requires Runnable(threads, i)
    ensures CanAcquire(threads, threads[i])
  {
    forall j | 0 <= j < |threads| ensures !Conflict(threads[j], threads[i]) {
      assert !HeldUp(threads[j], threads[i]);
    }
  }
}
