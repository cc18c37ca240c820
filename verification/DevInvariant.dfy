/** What every step of the developer sessions keeps: exclusion, tables, counts and debts. */
module DevInvariant {
  import opened Common
  import opened Steps
  import opened Text
  import opened DevPolicy
  import opened DevSessions

  // ----- what every step keeps

  function Making(pc: Pc): Option<Token> {
    if pc.CreateWant? || pc.CreateIn? then Some(pc.token) else None
  }

  /** The session the thread has taken out of the map and still has to erase. */
  function Wiping(pc: Pc): Option<Token> {
    if pc.WipeWant? || pc.WipeIn? then Some(pc.token) else None
  }

  /** The session the cleanup has erased and still has to take out of the map. */
  function Deleting(pc: Pc): Option<Token> {
    if pc.SweepDelete? then Some(pc.token) else None
  }

  /** The session whose SignCount still lacks a signature of this thread. */
  function Counting(pc: Pc): Option<Token> {
    if pc.CountWant? || pc.CountIn? || pc.CountRead? then Some(pc.token) else None
  }

  function Pending(threads: seq<Pc>, t: Token): nat {
    if threads == [] then 0
    else Pending(threads[..|threads| - 1], t) + (if Counting(threads[|threads| - 1]) == Some(t) then 1 else 0)
  }

  lemma {:induction false} PendingUpdate(threads: seq<Pc>, i: nat, pc: Pc, t: Token)
    requires i < |threads|
    ensures Pending(threads[i := pc], t) + (if Counting(threads[i]) == Some(t) then 1 else 0) ==
            Pending(threads, t) + (if Counting(pc) == Some(t) then 1 else 0)
  {
    var n := |threads| - 1;
    if i < n {
      PendingUpdate(threads[..n], i, pc, t);
      assert threads[i := pc][..n] == threads[..n][i := pc];
    } else {
      assert threads[i := pc][..n] == threads[..n];
    }
  }

  lemma {:induction false} NonePending(threads: seq<Pc>, t: Token)
    requires forall i :: 0 <= i < |threads| ==> Counting(threads[i]) != Some(t)
    ensures Pending(threads, t) == 0
  {
    if threads != [] {
      NonePending(threads[..|threads| - 1], t);
    }
  }

  predicate Shared(a: Option<Token>, b: Option<Token>) {
    a.Some? && a == b
  }

  /** Two threads cannot be at these places at the same time. */
  predicate Clash(p: Pc, q: Pc) {
    (MgrW(p) && (MgrW(q) || MgrR(q))) ||
    Shared(SessW(p), SessW(q)) || Shared(SessW(p), SessR(q)) ||
    Shared(Making(p), Making(q)) || Shared(Wiping(p), Wiping(q))
  }

  ghost predicate Pairs(threads: seq<Pc>) {
    forall i, j :: 0 <= i < |threads| && 0 <= j < |threads| && i != j ==> !Clash(threads[i], threads[j])
  }

  predicate SessionOk(o: DevSession) {
    0 < o.expiresAt - o.createdAt <= 120 * MINUTE &&
    o.dropped <= o.emptied <= o.keys &&
    (if o.signers.Some? then o.signers.value.Keys == o.keys else o.dropped == o.keys)
  }

  ghost predicate ThreadOk(s: State, pc: Pc) {
    match pc
    case CreateWant(t, made) => t in s.used && t !in s.objects && made.signers.Some? && made.signCount == 0 && SessionOk(made)
    case CreateIn(t, made) => t in s.used && t !in s.objects && made.signers.Some? && made.signCount == 0 && SessionOk(made)
    case GetFound(t, _) => t in s.objects
    case UseWant(t, _) => t in s.objects
    case UseIn(t, _) => t in s.objects
    case Policy(t, _) => t in s.objects
    case FindWant(t, req) => t in s.objects && Permitted(s, t, req)
    case FindIn(t, req) => t in s.objects && Permitted(s, t, req)
    case SignReady(t, req, _) => t in s.objects && Permitted(s, t, req) && Lower(req.address) in s.objects[t].keys
    case SharesRead(t, req) =>
      t in s.objects && Permitted(s, t, req) && Reaches(req) && Lower(req.address) in s.objects[t].keys
    case KeyHeld(t, req) => t in s.objects && Permitted(s, t, req) && Reaches(req)
    case CountWant(t) => t in s.objects
    case CountIn(t) => t in s.objects
    case CountRead(t, n) => t in s.objects && n == s.objects[t].signCount
    case WipeWant(t, _) => t in s.objects && t !in s.live && s.objects[t].signers.Some?
    case WipeIn(t, _) => t in s.objects && t !in s.live && s.objects[t].signers.Some?
    case SweepWipeWant(_, t) => t in s.objects && t in s.live && s.objects[t].signers.Some?
    case SweepWipeIn(_, t) => t in s.objects && t in s.live && s.objects[t].signers.Some?
    case SweepDelete(_, t) => t in s.objects && t in s.live && s.objects[t].signers.None?
    case _ => true
  }

  predicate Permitted(s: State, t: Token, req: Request)
    requires t in s.objects
  {
    req.chainID.Some? ==> ChainAllowed(req.chainID.value, s.objects[t].trusted)
  }

  ghost predicate ThreadsOk(s: State) {
    forall i :: 0 <= i < |s.threads| ==> ThreadOk(s, s.threads[i])
  }

  ghost predicate TablesOk(s: State) {
    s.live <= s.objects.Keys <= s.used &&
    (forall t :: t in s.objects ==> SessionOk(s.objects[t])) &&
    (forall t :: s.removals[t] == if t in s.objects && t !in s.live then 1 else 0) &&
    (forall t :: s.wipes[t] == if t in s.objects && s.objects[t].signers.None? then 1 else 0)
  }

  ghost predicate CountsOk(s: State) {
    forall t :: s.signatures[t] == (if t in s.objects then s.objects[t].signCount else 0) + Pending(s.threads, t)
  }

  /** Whoever took a session out of the map is about to erase it, and the cleanup
      is about to take out what it erased. */
  ghost predicate DebtsOk(s: State) {
    forall t :: t in s.objects ==>
      (t !in s.live && s.objects[t].signers.Some? ==> exists i :: 0 <= i < |s.threads| && Wiping(s.threads[i]) == Some(t)) &&
      (t in s.live && s.objects[t].signers.None? ==> exists i :: 0 <= i < |s.threads| && Deleting(s.threads[i]) == Some(t))
  }

  ghost predicate Inv(s: State) {
    Pairs(s.threads) && ThreadsOk(s) && TablesOk(s) && CountsOk(s) && DebtsOk(s)
  }

  lemma PairsUpdate(threads: seq<Pc>, tid: nat, pc: Pc)
    requires Pairs(threads) && tid < |threads|
    requires forall j :: 0 <= j < |threads| && j != tid ==> !Clash(pc, threads[j]) && !Clash(threads[j], pc)
    ensures Pairs(threads[tid := pc])
  {
    hide Clash;
  }

  /** pc' holds no more than pc does. */
  predicate NoMore(pc': Pc, pc: Pc) {
    (MgrW(pc') ==> MgrW(pc)) && (MgrR(pc') ==> MgrR(pc)) &&
    (SessW(pc').Some? ==> SessW(pc') == SessW(pc)) && (SessR(pc').Some? ==> SessR(pc') == SessR(pc)) &&
    (Making(pc').Some? ==> Making(pc') == Making(pc)) && (Wiping(pc').Some? ==> Wiping(pc') == Wiping(pc))
  }

  lemma PairsRelease(threads: seq<Pc>, tid: nat, pc: Pc)
    requires Pairs(threads) && tid < |threads| && NoMore(pc, threads[tid])
    ensures Pairs(threads[tid := pc])
  {
    forall j | 0 <= j < |threads| && j != tid ensures !Clash(pc, threads[j]) && !Clash(threads[j], pc) {
      assert !Clash(threads[tid], threads[j]) && !Clash(threads[j], threads[tid]);
    }
    PairsUpdate(threads, tid, pc);
  }

  /** pc' holds what pc waited for, and what pc held. */
  predicate Acquires(pc': Pc, pc: Pc) {
    (MgrW(pc') ==> MgrW(pc) || WantsMgrW(pc)) && (MgrR(pc') ==> MgrR(pc) || WantsMgrR(pc)) &&
    (SessW(pc').Some? ==> SessW(pc') == SessW(pc) || SessW(pc') == WantsSessW(pc)) &&
    (SessR(pc').Some? ==> SessR(pc') == SessR(pc) || SessR(pc') == WantsSessR(pc)) &&
    (Making(pc').Some? ==> Making(pc') == Making(pc)) && (Wiping(pc').Some? ==> Wiping(pc') == Wiping(pc))
  }

  lemma PairsAcquire(threads: seq<Pc>, tid: nat, pc: Pc)
    requires Pairs(threads) && tid < |threads| && CanAcquire(threads, threads[tid]) && Acquires(pc, threads[tid])
    ensures Pairs(threads[tid := pc])
  {
    forall j | 0 <= j < |threads| && j != tid ensures !Clash(pc, threads[j]) && !Clash(threads[j], pc) {
      assert !Clash(threads[tid], threads[j]) && !Clash(threads[j], threads[tid]);
      assert !Conflict(threads[j], threads[tid]);
    }
    PairsUpdate(threads, tid, pc);
  }

  /** A step that moves one thread and leaves the debts and the counts alone. */
  lemma MoveKeepsInv(s: State, tid: nat, pc: Pc)
    requires Inv(s) && tid < |s.threads| && Pairs(s.threads[tid := pc]) && ThreadOk(s, pc)
    requires var oldPc := s.threads[tid];
             Wiping(pc) == Wiping(oldPc) && Deleting(pc) == Deleting(oldPc) && Counting(pc) == Counting(oldPc)
    ensures Inv(Goto(s, tid, pc))
  {
    hide Pairs, SessionOk, ThreadOk, Pending;
    var s' := Goto(s, tid, pc);
    forall i | 0 <= i < |s.threads| ensures ThreadOk(s', s'.threads[i]) {
      MoveThread(s, tid, pc, s'.threads[i]);
    }
    PendingSame(s.threads, tid, pc);
    DebtsMove(s, tid, pc);
    hide ThreadsOk, DebtsOk;
  }

  lemma MoveThread(s: State, tid: nat, pc: Pc, other: Pc)
    requires tid < |s.threads| && ThreadOk(s, other)
    ensures ThreadOk(Goto(s, tid, pc), other)
  {
  }

  lemma DebtsMove(s: State, tid: nat, pc: Pc)
    requires DebtsOk(s) && tid < |s.threads|
    requires Wiping(pc) == Wiping(s.threads[tid]) && Deleting(pc) == Deleting(s.threads[tid])
    ensures DebtsOk(Goto(s, tid, pc))
  {
    var s' := Goto(s, tid, pc);
    forall t | t in s.objects
      ensures t !in s.live && s.objects[t].signers.Some? ==> exists i :: 0 <= i < |s'.threads| && Wiping(s'.threads[i]) == Some(t)
      ensures t in s.live && s.objects[t].signers.None? ==> exists i :: 0 <= i < |s'.threads| && Deleting(s'.threads[i]) == Some(t)
    {
      if t !in s.live && s.objects[t].signers.Some? {
        var i :| 0 <= i < |s.threads| && Wiping(s.threads[i]) == Some(t);
        assert Wiping(s'.threads[i]) == Some(t);
      }
      if t in s.live && s.objects[t].signers.None? {
        var i :| 0 <= i < |s.threads| && Deleting(s.threads[i]) == Some(t);
        assert Deleting(s'.threads[i]) == Some(t);
      }
    }
  }

  /** While a thread holds the manager lock, a session in the map still has its
      signers, unless the thread is the cleanup that has just erased them. */
  lemma LiveIsWhole(s: State, tid: nat, t: Token)
    requires Inv(s) && tid < |s.threads| && MgrW(s.threads[tid]) && Deleting(s.threads[tid]) != Some(t) && t in s.live
    ensures t in s.objects && s.objects[t].signers.Some?
  {
    forall i | 0 <= i < |s.threads| ensures Deleting(s.threads[i]) != Some(t) {
      assert i != tid ==> !Clash(s.threads[tid], s.threads[i]);
    }
  }

  lemma Parts(s: State, tid: nat)
    requires Inv(s) && tid < |s.threads|
    ensures Pairs(s.threads) && ThreadsOk(s) && ThreadOk(s, s.threads[tid]) && TablesOk(s) && CountsOk(s) && DebtsOk(s)
    ensures forall j :: 0 <= j < |s.threads| && j != tid ==>
              ThreadOk(s, s.threads[j]) && !Clash(s.threads[tid], s.threads[j]) && !Clash(s.threads[j], s.threads[tid])
  {
  }

  lemma ThreadsAfter(s: State, s': State, tid: nat, pc: Pc)
    requires tid < |s.threads| && s'.threads == s.threads[tid := pc] && ThreadOk(s', pc)
    requires forall j :: 0 <= j < |s.threads| && j != tid ==> ThreadOk(s', s.threads[j])
    ensures ThreadsOk(s')
  {
    hide ThreadOk;
  }

  lemma PendingSame(threads: seq<Pc>, tid: nat, pc: Pc)
    requires tid < |threads| && Counting(pc) == Counting(threads[tid])
    ensures forall t :: Pending(threads[tid := pc], t) == Pending(threads, t)
  {
    forall t ensures Pending(threads[tid := pc], t) == Pending(threads, t) {
      PendingUpdate(threads, tid, pc, t);
    }
  }

  // Debts, one session at a time.

  ghost predicate Owes(threads: seq<Pc>, t: Token) {
    exists i :: 0 <= i < |threads| && Wiping(threads[i]) == Some(t)
  }

  ghost predicate OwesDelete(threads: seq<Pc>, t: Token) {
    exists i :: 0 <= i < |threads| && Deleting(threads[i]) == Some(t)
  }

  /** A step that settles or takes on at most the debt of t keeps all others. */
  lemma DebtsAfter(s: State, s': State, tid: nat, pc: Pc, t: Token)
    requires DebtsOk(s) && tid < |s.threads| && s'.threads == s.threads[tid := pc]
    requires Wiping(s.threads[tid]) in {None, Some(t)} && Deleting(s.threads[tid]) in {None, Some(t)}
    requires forall u :: u in s'.objects && u != t ==>
               u in s.objects && (u in s'.live <==> u in s.live) && s'.objects[u].signers == s.objects[u].signers
    requires t in s'.objects ==>
               (t !in s'.live && s'.objects[t].signers.Some? ==> Wiping(pc) == Some(t)) &&
               (t in s'.live && s'.objects[t].signers.None? ==> Deleting(pc) == Some(t))
    ensures DebtsOk(s')
  {
    forall u | u in s'.objects
      ensures u !in s'.live && s'.objects[u].signers.Some? ==> Owes(s'.threads, u)
      ensures u in s'.live && s'.objects[u].signers.None? ==> OwesDelete(s'.threads, u)
    {
      if u == t {
        assert s'.threads[tid] == pc;
      } else {
        OthersKeep(s.threads, tid, pc, t, u);
      }
    }
  }

  lemma OthersKeep(threads: seq<Pc>, tid: nat, pc: Pc, t: Token, u: Token)
    requires tid < |threads| && u != t
    requires Wiping(threads[tid]) in {None, Some(t)} && Deleting(threads[tid]) in {None, Some(t)}
    ensures Owes(threads, u) ==> Owes(threads[tid := pc], u)
    ensures OwesDelete(threads, u) ==> OwesDelete(threads[tid := pc], u)
  {
    if i :| 0 <= i < |threads| && Wiping(threads[i]) == Some(u) {
      assert threads[tid := pc][i] == threads[i];
    }
    if i :| 0 <= i < |threads| && Deleting(threads[i]) == Some(u) {
      assert threads[tid := pc][i] == threads[i];
    }
  }

  // One lemma per step that changes more than the place of a thread.

  lemma InsertThread(s: State, tid: nat, t: Token, made: DevSession, pc: Pc)
    requires tid < |s.threads| && t !in s.objects && ThreadOk(s, pc) && !Clash(CreateIn(t, made), pc)
    ensures ThreadOk(Inserted(s, tid, t, made), pc)
  {
  }

  lemma InsertKeepsInv(s: State, tid: nat)
    requires Inv(s) && tid < |s.threads| && s.threads[tid].CreateIn?
    ensures Inv(Inserted(s, tid, s.threads[tid].token, s.threads[tid].made))
  {
    Parts(s, tid);
    var CreateIn(t, made) := s.threads[tid];
    var s', pc := Inserted(s, tid, t, made), Done(Some(Created));
    PairsRelease(s.threads, tid, pc);
    PendingSame(s.threads, tid, pc);
    DebtsAfter(s, s', tid, pc, t);
    forall j | 0 <= j < |s.threads| && j != tid ensures ThreadOk(s', s.threads[j]) {
      InsertThread(s, tid, t, made, s.threads[j]);
    }
    ThreadsAfter(s, s', tid, pc);
    InsertTables(s, tid);
    hide Pairs, ThreadsOk, TablesOk, DebtsOk, SessionOk;
    NotCounting(s, t);
    assert CountsOk(s');
  }

  lemma NotCounting(s: State, t: Token)
    requires ThreadsOk(s) && t !in s.objects
    ensures Pending(s.threads, t) == 0
  {
    forall i | 0 <= i < |s.threads| ensures Counting(s.threads[i]) != Some(t) {
      assert ThreadOk(s, s.threads[i]);
    }
    NonePending(s.threads, t);
  }

  lemma InsertTables(s: State, tid: nat)
    requires TablesOk(s) && tid < |s.threads| && s.threads[tid].CreateIn? && ThreadOk(s, s.threads[tid])
    ensures TablesOk(Inserted(s, tid, s.threads[tid].token, s.threads[tid].made))
  {
  }

  lemma UseKeepsInv(s: State, tid: nat)
    requires Inv(s) && tid < |s.threads| && s.threads[tid].UseIn?
    ensures s.threads[tid].token in s.objects
    ensures Inv(Used(Goto(s, tid, Policy(s.threads[tid].token, s.threads[tid].req)), s.threads[tid].token))
  {
    Parts(s, tid);
    var pc := Policy(s.threads[tid].token, s.threads[tid].req);
    PairsRelease(s.threads, tid, pc);
    MoveKeepsInv(s, tid, pc);
    TouchKeepsInv(Goto(s, tid, pc), pc.token);
  }

  lemma TouchKeepsInv(s: State, t: Token)
    requires Inv(s) && t in s.objects
    ensures Inv(Used(s, t))
  {
    StoredOk(s, t);
    SessionOkTouched(s.objects[t], s.now);
    AmendKeepsInv(s, t, s.objects[t].(lastUsed := s.now));
  }

  lemma StoredOk(s: State, t: Token)
    requires Inv(s) && t in s.objects
    ensures SessionOk(s.objects[t])
  {
  }

  /** o differs from o' in nothing that other threads rely on. */
  predicate Alike(o: DevSession, o': DevSession) {
    o'.trusted == o.trusted && o'.signers == o.signers && o'.signCount == o.signCount && o'.keys == o.keys
  }

  lemma AmendThread(s: State, t: Token, o: DevSession, pc: Pc)
    requires t in s.objects && Alike(s.objects[t], o) && ThreadOk(s, pc)
    ensures ThreadOk(Amended(s, t, o), pc)
  {
  }

  lemma AmendKeepsInv(s: State, t: Token, o: DevSession)
    requires Inv(s) && t in s.objects && Alike(s.objects[t], o) && SessionOk(o)
    ensures Inv(Amended(s, t, o))
  {
    var s' := Amended(s, t, o);
    AmendTables(s, t, o);
    hide Pairs, TablesOk, ThreadOk, SessionOk;
    forall i | 0 <= i < |s.threads| ensures ThreadOk(s', s'.threads[i]) {
      AmendThread(s, t, o, s.threads[i]);
    }
    DebtsFrame(s, s');
    hide DebtsOk, ThreadsOk;
    assert CountsOk(s');
  }

  lemma AmendTables(s: State, t: Token, o: DevSession)
    requires TablesOk(s) && t in s.objects && Alike(s.objects[t], o) && SessionOk(o)
    ensures TablesOk(Amended(s, t, o))
  {
    hide SessionOk;
  }

  lemma SessionOkTouched(o: DevSession, now: int)
    requires SessionOk(o)
    ensures SessionOk(o.(lastUsed := now))
  {
  }

  lemma DebtsFrame(s: State, s': State)
    requires DebtsOk(s) && s'.threads == s.threads && s'.live == s.live && s'.objects.Keys == s.objects.Keys
    requires forall t :: t in s.objects ==> s'.objects[t].signers == s.objects[t].signers
    ensures DebtsOk(s')
  {
  }

  lemma SignThread(s: State, tid: nat, t: Token, pc: Pc)
    requires tid < |s.threads| && ThreadOk(s, pc)
    ensures ThreadOk(SignedOnce(s, tid, t), pc)
  {
  }

  lemma SignCounts(s: State, tid: nat, t: Token)
    requires CountsOk(s) && tid < |s.threads| && Counting(s.threads[tid]) == None
    ensures CountsOk(SignedOnce(s, tid, t))
  {
    hide Pending;
    forall u ensures Pending(SignedOnce(s, tid, t).threads, u) == Pending(s.threads, u) + (if u == t then 1 else 0) {
      PendingUpdate(s.threads, tid, CountWant(t), u);
    }
  }

  lemma SignThreads(s: State, tid: nat, t: Token)
    requires ThreadsOk(s) && tid < |s.threads| && t in s.objects
    ensures ThreadsOk(SignedOnce(s, tid, t))
  {
    var s' := SignedOnce(s, tid, t);
    assert ThreadOk(s', CountWant(t));
    hide ThreadOk;
    forall j | 0 <= j < |s.threads| && j != tid ensures ThreadOk(s', s.threads[j]) {
      SignThread(s, tid, t, s.threads[j]);
    }
    ThreadsAfter(s, s', tid, CountWant(t));
  }

  lemma SignKeepsInv(s: State, tid: nat)
    requires Inv(s) && tid < |s.threads| && s.threads[tid].KeyHeld?
    ensures Inv(SignedOnce(s, tid, s.threads[tid].token))
  {
    OwnThread(s, tid);
    hide Pairs, ThreadsOk, CountsOk, DebtsOk, SessionOk;
    var t := s.threads[tid].token;
    var pc, s' := CountWant(t), SignedOnce(s, tid, t);
    PairsRelease(s.threads, tid, pc);
    SignThreads(s, tid, t);
    SignCounts(s, tid, t);
    DebtsMove(s, tid, pc);
    DebtsFrame(Goto(s, tid, pc), s');
  }

  lemma CountThread(s: State, tid: nat, t: Token, n: nat, pc: Pc)
    requires tid < |s.threads| && t in s.objects && ThreadOk(s, pc) && !Clash(CountRead(t, n), pc)
    ensures ThreadOk(Counted(s, tid, t, n), pc)
  {
  }

  lemma CountThreads(s: State, tid: nat)
    requires Inv(s) && tid < |s.threads| && s.threads[tid].CountRead?
    ensures s.threads[tid].token in s.objects
    ensures ThreadsOk(Counted(s, tid, s.threads[tid].token, s.threads[tid].n))
  {
    hide CountsOk, DebtsOk, TablesOk;
    Parts(s, tid);
    var CountRead(t, n) := s.threads[tid];
    var s' := Counted(s, tid, t, n);
    hide ThreadOk, Clash;
    assert ThreadOk(s', Done(Some(Signed))) by { DoneOk(s', Signed); }
    forall j | 0 <= j < |s.threads| && j != tid ensures ThreadOk(s', s.threads[j]) {
      CountThread(s, tid, t, n, s.threads[j]);
    }
    ThreadsAfter(s, s', tid, Done(Some(Signed)));
  }

  lemma DoneOk(s: State, outcome: Outcome)
    ensures ThreadOk(s, Done(Some(outcome)))
  {
  }

  lemma CountCounts(s: State, tid: nat, t: Token, n: nat)
    requires CountsOk(s) && tid < |s.threads| && s.threads[tid] == CountRead(t, n)
    requires t in s.objects && n == s.objects[t].signCount
    ensures CountsOk(Counted(s, tid, t, n))
  {
    var s' := Counted(s, tid, t, n);
    forall u ensures Pending(s'.threads, u) + (if u == t then 1 else 0) == Pending(s.threads, u) {
      PendingUpdate(s.threads, tid, Done(Some(Signed)), u);
    }
  }

  lemma CountKeepsInv(s: State, tid: nat)
    requires Inv(s) && tid < |s.threads| && s.threads[tid].CountRead?
    ensures s.threads[tid].token in s.objects
    ensures Inv(Counted(s, tid, s.threads[tid].token, s.threads[tid].n))
  {
    OwnThread(s, tid);
    CountThreads(s, tid);
    var CountRead(t, n) := s.threads[tid];
    var s', pc := Counted(s, tid, t, n), Done(Some(Signed));
    CountCounts(s, tid, t, n);
    CountTables(s, tid, t, n);
    PairsRelease(s.threads, tid, pc);
    hide Pairs, ThreadsOk, CountsOk, TablesOk, DebtsOk;
    DebtsMove(s, tid, pc);
    DebtsFrame(Goto(s, tid, pc), s');
  }

  lemma CountTables(s: State, tid: nat, t: Token, n: nat)
    requires TablesOk(s) && tid < |s.threads| && t in s.objects
    ensures TablesOk(Counted(s, tid, t, n))
  {
    hide SessionOk;
    assert SessionOk(s.objects[t].(signCount := n + 1)) by { SessionOkCounted(s.objects[t], n + 1); }
  }

  lemma SessionOkCounted(o: DevSession, n: nat)
    requires SessionOk(o)
    ensures SessionOk(o.(signCount := n))
  {
  }

  lemma RemoveThread(s: State, tid: nat, t: Token, after: Pc, pc: Pc)
    requires tid < |s.threads| && ThreadOk(s, pc) && MgrW(s.threads[tid]) && !Clash(s.threads[tid], pc)
    ensures ThreadOk(Removed(s, tid, t, after), pc)
  {
  }

  /** Taking a session out of the map: EndSession before it erases, cleanup after. */
  lemma RemoveThreads(s: State, tid: nat, t: Token, pc: Pc)
    requires Inv(s) && tid < |s.threads| && MgrW(s.threads[tid])
    requires ThreadOk(Removed(s, tid, t, pc), pc)
    ensures ThreadsOk(Removed(s, tid, t, pc))
  {
    hide CountsOk, DebtsOk, TablesOk;
    Parts(s, tid);
    var s' := Removed(s, tid, t, pc);
    hide ThreadOk, Clash;
    forall j | 0 <= j < |s.threads| && j != tid ensures ThreadOk(s', s.threads[j]) {
      RemoveThread(s, tid, t, pc, s.threads[j]);
    }
    ThreadsAfter(s, s', tid, pc);
  }

  lemma RemovePairs(s: State, tid: nat, t: Token, pc: Pc)
    requires Inv(s) && tid < |s.threads| && t in s.live && pc.WipeWant? && pc.token == t
    ensures Pairs(s.threads[tid := pc])
  {
    hide CountsOk, DebtsOk, TablesOk;
    Parts(s, tid);
    hide ThreadOk, Clash;
    forall j | 0 <= j < |s.threads| && j != tid ensures !Clash(pc, s.threads[j]) && !Clash(s.threads[j], pc) {
      LiveNotWiped(s, t, s.threads[j]);
    }
    PairsUpdate(s.threads, tid, pc);
  }

  lemma RemoveTables(s: State, tid: nat, t: Token, pc: Pc)
    requires TablesOk(s) && tid < |s.threads| && t in s.live
    ensures TablesOk(Removed(s, tid, t, pc))
  {
  }

  lemma CountsMove(s: State, s': State, tid: nat, pc: Pc)
    requires CountsOk(s) && tid < |s.threads| && s'.threads == s.threads[tid := pc] && Counting(pc) == Counting(s.threads[tid])
    requires s'.signatures == s.signatures && s'.objects.Keys == s.objects.Keys
    requires forall t :: t in s.objects ==> s'.objects[t].signCount == s.objects[t].signCount
    ensures CountsOk(s')
  {
    PendingSame(s.threads, tid, pc);
  }

  lemma RemoveKeepsInv(s: State, tid: nat, t: Token, pc: Pc)
    requires Inv(s) && tid < |s.threads| && t in s.live
    requires (s.threads[tid].EndIn? && s.threads[tid].token == t && pc == WipeWant(t, s.threads[tid].expired)) ||
             (s.threads[tid].SweepDelete? && s.threads[tid].token == t && pc == SweepIn(s.threads[tid].at))
    ensures Inv(Removed(s, tid, t, pc))
  {
    var s' := Removed(s, tid, t, pc);
    OwnThread(s, tid);
    if pc.WipeWant? {
      LiveIsWhole(s, tid, t);
      RemovePairs(s, tid, t, pc);
    } else {
      PairsRelease(s.threads, tid, pc);
    }
    RemoveThreads(s, tid, t, pc);
    RemoveTables(s, tid, t, pc);
    CountsMove(s, s', tid, pc);
    DebtsAfter(s, s', tid, pc, t);
    hide Pairs, ThreadsOk, DebtsOk, CountsOk, TablesOk;
  }

  lemma LiveNotWiped(s: State, t: Token, pc: Pc)
    requires ThreadOk(s, pc) && t in s.live
    ensures Wiping(pc) != Some(t) && !Clash(WipeWant(t, true), pc) && !Clash(pc, WipeWant(t, true))
    ensures !Clash(WipeWant(t, false), pc) && !Clash(pc, WipeWant(t, false))
  {
  }

  lemma WipeThread(s: State, tid: nat, t: Token, after: Pc, pc: Pc)
    requires tid < |s.threads| && t in s.objects && ThreadOk(s, pc) && ThreadOk(s, s.threads[tid]) && !Clash(s.threads[tid], pc)
    requires (s.threads[tid].WipeIn? || s.threads[tid].SweepWipeIn?) && s.threads[tid].token == t
    ensures ThreadOk(Wiped(s, tid, t, after), pc)
  {
  }

  /** Erasing the signers: EndSession after removal, cleanup before it. */
  lemma WipeThreads(s: State, tid: nat, t: Token, pc: Pc)
    requires Inv(s) && tid < |s.threads| && t in s.objects && (s.threads[tid].WipeIn? || s.threads[tid].SweepWipeIn?)
    requires s.threads[tid].token == t && ThreadOk(Wiped(s, tid, t, pc), pc)
    ensures ThreadsOk(Wiped(s, tid, t, pc))
  {
    hide CountsOk, DebtsOk, TablesOk;
    Parts(s, tid);
    var s' := Wiped(s, tid, t, pc);
    hide ThreadOk, Clash;
    forall j | 0 <= j < |s.threads| && j != tid ensures ThreadOk(s', s.threads[j]) {
      WipeThread(s, tid, t, pc, s.threads[j]);
    }
    ThreadsAfter(s, s', tid, pc);
  }

  lemma WipeTables(s: State, tid: nat, t: Token, pc: Pc)
    requires TablesOk(s) && tid < |s.threads| && t in s.objects && s.objects[t].signers.Some?
    requires s.objects[t].dropped == s.objects[t].keys
    ensures TablesOk(Wiped(s, tid, t, pc))
  {
    hide SessionOk;
    assert SessionOk(s.objects[t].(signers := None)) by { SessionOkWiped(s.objects[t]); }
  }

  lemma SessionOkWiped(o: DevSession)
    requires SessionOk(o) && o.dropped == o.keys
    ensures SessionOk(o.(signers := None))
  {
  }

  lemma WipeKeepsInv(s: State, tid: nat, pc: Pc)
    requires Inv(s) && tid < |s.threads|
    requires (s.threads[tid].WipeIn? && pc.Done?) ||
             (s.threads[tid].SweepWipeIn? && pc == SweepDelete(s.threads[tid].at, s.threads[tid].token))
    requires var t := s.threads[tid].token; t in s.objects && s.objects[t].dropped == s.objects[t].keys
    ensures Inv(Wiped(s, tid, s.threads[tid].token, pc))
  {
    hide Pairs, ThreadsOk, DebtsOk, CountsOk, TablesOk;
    OwnThread(s, tid);
    var t := s.threads[tid].token;
    var s' := Wiped(s, tid, t, pc);
    PairsRelease(s.threads, tid, pc);
    WipeThreads(s, tid, t, pc);
    WipeTables(s, tid, t, pc);
    CountsMove(s, s', tid, pc);
    DebtsAfter(s, s', tid, pc, t);
  }

  /** Taking the lock that was waited for. */
  lemma AcquireKeepsInv(s: State, tid: nat, pc: Pc)
    requires Inv(s) && tid < |s.threads| && CanAcquire(s.threads, s.threads[tid]) && Acquires(pc, s.threads[tid])
    requires ThreadOk(s, pc) && Deleting(pc) == Deleting(s.threads[tid]) && Counting(pc) == Counting(s.threads[tid])
    requires Wiping(pc) == Wiping(s.threads[tid])
    ensures Inv(Goto(s, tid, pc))
  {
    PairsAcquire(s.threads, tid, pc);
    hide Pairs, ThreadOk;
    MoveKeepsInv(s, tid, pc);
  }

  /** Moving on without a new lock. */
  lemma ReleaseKeepsInv(s: State, tid: nat, pc: Pc)
    requires Inv(s) && tid < |s.threads| && NoMore(pc, s.threads[tid])
    requires ThreadOk(s, pc) && Deleting(pc) == Deleting(s.threads[tid]) && Counting(pc) == Counting(s.threads[tid])
    requires Wiping(pc) == Wiping(s.threads[tid])
    ensures Inv(Goto(s, tid, pc))
  {
    PairsRelease(s.threads, tid, pc);
    hide Pairs, ThreadOk;
    MoveKeepsInv(s, tid, pc);
  }

  lemma OwnThread(s: State, tid: nat)
    requires Inv(s) && tid < |s.threads|
    ensures ThreadOk(s, s.threads[tid]) && s.live <= s.objects.Keys
  {
  }

  lemma AcquireStep(s: State, tid: nat, ok: bool, pick: Token)
    requires Inv(s) && tid < |s.threads| && CanAcquire(s.threads, s.threads[tid])
    requires var pc := s.threads[tid];
             WantsMgrW(pc) || WantsMgrR(pc) || WantsSessW(pc).Some? || WantsSessR(pc).Some?
    ensures var r := Advance(s, tid, s.threads[tid], ok, pick); r.Some? && Inv(r.value)
  {
    hide Inv, CanAcquire, Lower, Reaches, ChainAllowed, Refusal, Permitted;
    OwnThread(s, tid);
    var pc := Advance(s, tid, s.threads[tid], ok, pick).value.threads[tid];
    AcquireKeepsInv(s, tid, pc);
  }

  lemma ReleaseStep(s: State, tid: nat, ok: bool, pick: Token)
    requires Inv(s) && tid < |s.threads| && Advance(s, tid, s.threads[tid], ok, pick).Some?
    requires var pc := s.threads[tid];
             pc.GetIn? || pc.GetFound? || pc.Policy? || pc.CountIn? || (pc.EndIn? && pc.token !in s.live)
    ensures Inv(Advance(s, tid, s.threads[tid], ok, pick).value)
  {
    hide Inv;
    OwnThread(s, tid);
    var pc := Advance(s, tid, s.threads[tid], ok, pick).value.threads[tid];
    ReleaseKeepsInv(s, tid, pc);
  }

  /** From the signer lookup to the copy of the key. */
  lemma SignerStep(s: State, tid: nat, ok: bool, pick: Token)
    requires Inv(s) && tid < |s.threads| && Advance(s, tid, s.threads[tid], ok, pick).Some?
    requires s.threads[tid].FindIn? || s.threads[tid].SignReady? || s.threads[tid].SharesRead?
    ensures Inv(Advance(s, tid, s.threads[tid], ok, pick).value)
  {
    hide Inv, Reaches, Permitted, Lower;
    OwnThread(s, tid);
    StoredOk(s, s.threads[tid].token);
    var pc := Advance(s, tid, s.threads[tid], ok, pick).value.threads[tid];
    ReleaseKeepsInv(s, tid, pc);
  }

  lemma SweepStep(s: State, tid: nat, ok: bool, pick: Token)
    requires Inv(s) && tid < |s.threads| && s.threads[tid].SweepIn? && Advance(s, tid, s.threads[tid], ok, pick).Some?
    ensures Inv(Advance(s, tid, s.threads[tid], ok, pick).value)
  {
    hide Inv;
    var pc := Advance(s, tid, s.threads[tid], ok, pick).value.threads[tid];
    if pc.SweepWipeWant? {
      LiveIsWhole(s, tid, pick);
    }
    ReleaseKeepsInv(s, tid, pc);
  }

  /** The loop over the signers and its end. */
  lemma EraseStep(s: State, tid: nat, pick: Token, pc: Pc)
    requires Inv(s) && tid < |s.threads|
    requires (s.threads[tid].WipeIn? && pc.Done?) ||
             (s.threads[tid].SweepWipeIn? && pc == SweepDelete(s.threads[tid].at, s.threads[tid].token))
    requires s.threads[tid].token in s.objects && Erasing(s, tid, s.threads[tid].token, pick, pc).Some?
    ensures Inv(Erasing(s, tid, s.threads[tid].token, pick, pc).value)
  {
    hide Inv;
    var t := s.threads[tid].token;
    var o := s.objects[t];
    StoredOk(s, t);
    if o.emptied != o.dropped {
      AmendKeepsInv(s, t, o.(dropped := o.emptied));
    } else if o.dropped == o.keys {
      WipeKeepsInv(s, tid, pc);
    } else {
      AmendKeepsInv(s, t, o.(emptied := o.emptied + {pick}));
    }
  }

  lemma SignStep(s: State, tid: nat, ok: bool, pick: Token)
    requires Inv(s) && tid < |s.threads| && s.threads[tid].KeyHeld? && Advance(s, tid, s.threads[tid], ok, pick).Some?
    ensures Inv(Advance(s, tid, s.threads[tid], ok, pick).value)
  {
    hide Inv;
    var pc := Advance(s, tid, s.threads[tid], ok, pick).value.threads[tid];
    if pc.CountWant? {
      SignKeepsInv(s, tid);
    } else {
      ReleaseKeepsInv(s, tid, pc);
    }
  }

  lemma AdvanceKeepsInv(s: State, tid: nat, ok: bool, pick: Token)
    requires Inv(s) && tid < |s.threads| && CanAcquire(s.threads, s.threads[tid])
    requires Advance(s, tid, s.threads[tid], ok, pick).Some?
    ensures Inv(Advance(s, tid, s.threads[tid], ok, pick).value)
  {
    hide Inv, CanAcquire, ThreadOk;
    OwnThread(s, tid);
    match s.threads[tid] {
      case CreateIn(_, _) => InsertKeepsInv(s, tid);
      case UseIn(_, _) => UseKeepsInv(s, tid);
      case SignReady(_, _, _) => SignerStep(s, tid, ok, pick);
      case SharesRead(_, _) => SignerStep(s, tid, ok, pick);
      case KeyHeld(_, _) => SignStep(s, tid, ok, pick);
      case CountRead(_, _) => CountKeepsInv(s, tid);
      case EndIn(t, expired) =>
        if t in s.live { RemoveKeepsInv(s, tid, t, WipeWant(t, expired)); } else { ReleaseStep(s, tid, ok, pick); }
      case WipeIn(_, expired) => EraseStep(s, tid, pick, AfterEnd(expired));
      case SweepIn(_) => SweepStep(s, tid, ok, pick);
      case SweepWipeIn(at, t) => EraseStep(s, tid, pick, SweepDelete(at, t));
      case SweepDelete(at, t) =>
        assert t in s.live by { DeletedIsLive(s, tid); }
        RemoveKeepsInv(s, tid, t, SweepIn(at));
      case GetIn(_, _) => ReleaseStep(s, tid, ok, pick);
      case GetFound(_, _) => ReleaseStep(s, tid, ok, pick);
      case Policy(_, _) => ReleaseStep(s, tid, ok, pick);
      case FindIn(_, _) => SignerStep(s, tid, ok, pick);
      case CountIn(_) => ReleaseStep(s, tid, ok, pick);
      case _ => AcquireStep(s, tid, ok, pick);
    }
  }

  lemma DeletedIsLive(s: State, tid: nat)
    requires Inv(s) && tid < |s.threads| && s.threads[tid].SweepDelete?
    ensures s.threads[tid].token in s.live
  {
    assert ThreadOk(s, s.threads[tid]);
  }

  lemma StartKeepsInv(s: State, tid: nat, pc: Pc)
    requires Inv(s) && tid < |s.threads| && s.threads[tid].Done?
    requires pc.GetWant? || (pc.EndWant? && !pc.expired) || pc.SweepWant?
    ensures Inv(Goto(s, tid, pc))
  {
    hide Inv;
    ReleaseKeepsInv(s, tid, pc);
  }

  lemma CreateKeepsInv(s: State, tid: nat, token: Token, made: DevSession)
    requires Inv(s) && tid < |s.threads| && s.threads[tid].Done? && token !in s.used
    requires made.signers.Some? && made.signCount == 0 && SessionOk(made)
    ensures Inv(Goto(s, tid, CreateWant(token, made)).(used := s.used + {token}))
  {
    Parts(s, tid);
    var u := s.(used := s.used + {token});
    var pc := CreateWant(token, made);
    forall j | 0 <= j < |s.threads| && j != tid ensures !Clash(pc, s.threads[j]) && !Clash(s.threads[j], pc) {
      UnusedNotMade(s, token, made, s.threads[j]);
    }
    PairsUpdate(s.threads, tid, pc);
    hide Pairs, SessionOk;
    UsedKeepsInv(s, token);
    MoveKeepsInv(u, tid, pc);
  }

  lemma UnusedNotMade(s: State, token: Token, made: DevSession, pc: Pc)
    requires ThreadOk(s, pc) && token !in s.used
    ensures !Clash(CreateWant(token, made), pc) && !Clash(pc, CreateWant(token, made))
  {
  }

  lemma UsedKeepsInv(s: State, token: Token)
    requires Inv(s)
    ensures Inv(s.(used := s.used + {token}))
  {
    var u := s.(used := s.used + {token});
    hide Pairs, SessionOk;
    forall i | 0 <= i < |s.threads| ensures ThreadOk(u, u.threads[i]) {
      assert ThreadOk(s, s.threads[i]);
    }
    DebtsFrame(s, u);
  }

  lemma TickKeepsInv(s: State, elapsed: nat)
    requires Inv(s)
    ensures Inv(s.(now := s.now + elapsed))
  {
    var u := s.(now := s.now + elapsed);
    hide Pairs, SessionOk;
    forall i | 0 <= i < |s.threads| ensures ThreadOk(u, u.threads[i]) {
      assert ThreadOk(s, s.threads[i]);
    }
    DebtsFrame(s, u);
  }

  lemma NewSessionOk(now: int, minutes: int, trusted: seq<string>, signers: map<string, string>)
    ensures var made := NewDevSession(now, minutes, trusted, signers);
            made.signers.Some? && made.signCount == 0 && SessionOk(made)
  {
  }

  lemma NextKeepsInv(s: State, a: Action)
    requires Inv(s) && Next(s, a).Some?
    ensures Inv(Next(s, a).value)
  {
    hide Inv, CanAcquire, Advance, SessionOk, NewDevSession;
    match a {
      case Tick(elapsed) => TickKeepsInv(s, elapsed);
      case Create(tid, token, minutes, trusted, signers) =>
        NewSessionOk(s.now, minutes, trusted, signers);
        CreateKeepsInv(s, tid, token, NewDevSession(s.now, minutes, trusted, signers));
      case Sign(tid, token, req) => StartKeepsInv(s, tid, GetWant(token, req));
      case End(tid, token) => StartKeepsInv(s, tid, EndWant(token, false));
      case Sweep(tid) => StartKeepsInv(s, tid, SweepWant);
      case Step(tid, ok, pick) => AdvanceKeepsInv(s, tid, ok, pick);
    }
  }
}
