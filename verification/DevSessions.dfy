/** Developer sessions (internal/app/dev_session.go): auto-signing sessions behind
    a manager lock and one lock per session. Acquiring a lock, leaving a critical
    section and every unguarded access are single steps; threads interleave in
    any order. */
module DevSessions {
  import opened Common
  import opened Steps
  import opened Text
  import opened DevPolicy

  // ----- the interleaved system

  type Token = string

  /** signers maps a lowercased address to the address its signer controls; None
      once the session has been erased. keys are the addresses it was made with:
      the signers of those in emptied have had their shares erased, those in dropped
      do not point to any shares. A thread may go on holding a signer. */
  datatype DevSession = DevSession(createdAt: int, expiresAt: int, lastUsed: int, trusted: seq<string>,
                                   signers: Option<map<string, string>>, signCount: nat,
                                   keys: set<string>, emptied: set<string>, dropped: set<string>)

  function NewDevSession(now: int, minutes: int, trusted: seq<string>, signers: map<string, string>): DevSession {
    DevSession(now, now + ClampMinutes(minutes) * MINUTE, now,
               if trusted == [] then DEFAULT_TRUSTED else trusted, Some(signers), 0, signers.Keys, {}, {})
  }

  /** A new session, on its fields. */
  lemma NewSessionExactly(now: int, minutes: int, trusted: seq<string>, signers: map<string, string>)
    ensures var o := NewDevSession(now, minutes, trusted, signers);
            o.createdAt == now && o.lastUsed == now && o.signCount == 0 &&
            o.expiresAt == now + (if minutes <= 0 then 30 else if minutes > 120 then 120 else minutes) * 60_000_000_000 &&
            o.trusted == (if trusted == [] then ["sepolia", "goerli", "bsc-testnet", "mumbai"] else trusted) &&
            o.signers == Some(signers) && o.keys == signers.Keys && o.emptied == {} && o.dropped == {}
  {
  }

  /** A signing request; a transaction names its chain, a message has none. */
  datatype Request = Request(chainID: Option<int>, address: string)

  /** The call gets to the signer: a transaction has to pass its chain's adapter first. */
  predicate Reaches(req: Request) {
    req.chainID.Some? ==> AdapterTakes(req.chainID.value)
  }

  datatype Outcome = NotFound | SessionExpired | MainnetBlocked | NotTrusted | AddressNotFound | SigningFailed | NilPanic
                   | Signed | Ended | Created

  /** Where a thread is. Want... waits for a lock, ...In is inside the section. */
  datatype Pc =
    | Done(outcome: Option<Outcome>)
    | CreateWant(token: Token, made: DevSession)
    | CreateIn(token: Token, made: DevSession)
    | GetWant(token: Token, req: Request)
    | GetIn(token: Token, req: Request)
    | GetFound(token: Token, req: Request)
    | UseWant(token: Token, req: Request)
    | UseIn(token: Token, req: Request)
    | Policy(token: Token, req: Request)
    | FindWant(token: Token, req: Request)
    | FindIn(token: Token, req: Request)
    | SignReady(token: Token, req: Request, controls: string)
    | SharesRead(token: Token, req: Request)       // the signer still points to its shares
    | KeyHeld(token: Token, req: Request)          // with a copy of the key of its own
    | CountWant(token: Token)
    | CountIn(token: Token)
    | CountRead(token: Token, n: nat)
    | EndWant(token: Token, expired: bool)
    | EndIn(token: Token, expired: bool)
    | WipeWant(token: Token, expired: bool)
    | WipeIn(token: Token, expired: bool)
    | SweepWant
    | SweepIn(at: int)
    | SweepWipeWant(at: int, token: Token)
    | SweepWipeIn(at: int, token: Token)
    | SweepDelete(at: int, token: Token)

  // Locks are held by where the threads are.

  predicate MgrW(pc: Pc) {
    pc.CreateIn? || pc.EndIn? || pc.SweepIn? || pc.SweepWipeWant? || pc.SweepWipeIn? || pc.SweepDelete?
  }

  predicate MgrR(pc: Pc) {
    pc.GetIn?
  }

  /** The session whose lock the thread holds for writing. */
  function SessW(pc: Pc): Option<Token> {
    if pc.UseIn? || pc.CountIn? || pc.CountRead? || pc.WipeIn? || pc.SweepWipeIn? then Some(pc.token) else None
  }

  function SessR(pc: Pc): Option<Token> {
    if pc.FindIn? then Some(pc.token) else None
  }

  predicate WantsMgrW(pc: Pc) {
    pc.CreateWant? || pc.EndWant? || pc.SweepWant?
  }

  predicate WantsMgrR(pc: Pc) {
    pc.GetWant?
  }

  function WantsSessW(pc: Pc): Option<Token> {
    if pc.UseWant? || pc.CountWant? || pc.WipeWant? || pc.SweepWipeWant? then Some(pc.token) else None
  }

  function WantsSessR(pc: Pc): Option<Token> {
    if pc.FindWant? then Some(pc.token) else None
  }

  /** objects holds every session ever stored; the last three components only
      record what happened. */
  datatype State = State(
    now: int,
    threads: seq<Pc>,
    used: set<Token>,
    live: set<Token>,
    objects: map<Token, DevSession>,
    removals: multiset<Token>,
    wipes: multiset<Token>,
    signatures: multiset<Token>)

  datatype Action =
    | Tick(elapsed: nat)
    | Create(tid: nat, token: Token, minutes: int, trusted: seq<string>, signers: map<string, string>)
    | Sign(tid: nat, token: Token, req: Request)
    | End(tid: nat, token: Token)
    | Sweep(tid: nat)
    | Step(tid: nat, ok: bool, pick: Token)

  function Initial(threads: nat, now: int): State {
    State(now, seq(threads, _ => Done(None)), {}, {}, map[], multiset{}, multiset{}, multiset{})
  }

  function Goto(s: State, tid: nat, pc: Pc): State
    requires tid < |s.threads|
  {
    s.(threads := s.threads[tid := pc])
  }

  /** The lock pc waits for is free of conflicting holders; holds when it waits for none. */
  ghost predicate CanAcquire(threads: seq<Pc>, pc: Pc) {
    forall i :: 0 <= i < |threads| ==> !Conflict(threads[i], pc)
  }

  /** holder has the lock that wanter waits for, in a mode that excludes it. */
  predicate Conflict(holder: Pc, wanter: Pc) {
    (WantsMgrW(wanter) && (MgrW(holder) || MgrR(holder))) ||
    (WantsMgrR(wanter) && MgrW(holder)) ||
    (WantsSessW(wanter).Some? && (SessW(holder) == WantsSessW(wanter) || SessR(holder) == WantsSessW(wanter))) ||
    (WantsSessR(wanter).Some? && SessW(holder) == WantsSessR(wanter))
  }

  ghost function Next(s: State, a: Action): Option<State> {
    match a
    case Tick(elapsed) => Some(s.(now := s.now + elapsed))
    case Create(tid, token, minutes, trusted, signers) =>
      if tid < |s.threads| && s.threads[tid].Done? && token !in s.used && signers != map[]
      then Some(Goto(s, tid, CreateWant(token, NewDevSession(s.now, minutes, trusted, signers))).(used := s.used + {token}))
      else None
    case Sign(tid, token, req) =>
      if tid < |s.threads| && s.threads[tid].Done? then Some(Goto(s, tid, GetWant(token, req))) else None
    case End(tid, token) =>
      if tid < |s.threads| && s.threads[tid].Done? then Some(Goto(s, tid, EndWant(token, false))) else None
    case Sweep(tid) =>
      if tid < |s.threads| && s.threads[tid].Done? then Some(Goto(s, tid, SweepWant)) else None
    case Step(tid, ok, pick) =>
      if tid < |s.threads| && CanAcquire(s.threads, s.threads[tid]) then Advance(s, tid, s.threads[tid], ok, pick)
      else None
  }

  function Refusal(chainID: int): Outcome {
    if MainnetName(chainID).Some? then MainnetBlocked else NotTrusted
  }

  function AfterEnd(expired: bool): Pc {
    Done(Some(if expired then SessionExpired else Ended))
  }

  /** One step of a thread whose lock, if it waits for one, is free. ok decides
      whether the cryptography succeeds; pick is the map entry visited next. */
  function Advance(s: State, tid: nat, pc: Pc, ok: bool, pick: Token): Option<State>
    requires tid < |s.threads|
  {
    match pc
    case Done(_) => None
    case CreateWant(t, made) => Some(Goto(s, tid, CreateIn(t, made)))
    case CreateIn(t, made) =>
      Some(Inserted(s, tid, t, made))
    case GetWant(t, req) => Some(Goto(s, tid, GetIn(t, req)))
    case GetIn(t, req) => Some(Goto(s, tid, if t in s.live then GetFound(t, req) else Done(Some(NotFound))))
    case GetFound(t, req) =>
      if t !in s.objects then None
      else Some(Goto(s, tid, if s.now > s.objects[t].expiresAt then EndWant(t, true) else UseWant(t, req)))
    case UseWant(t, req) => Some(Goto(s, tid, UseIn(t, req)))
    case UseIn(t, req) =>
      if t !in s.objects then None
      else Some(Used(Goto(s, tid, Policy(t, req)), t))
    case Policy(t, req) =>
      if t !in s.objects then None
      else if req.chainID.Some? && !ChainAllowed(req.chainID.value, s.objects[t].trusted)
      then Some(Goto(s, tid, Done(Some(Refusal(req.chainID.value)))))
      else Some(Goto(s, tid, FindWant(t, req)))
    case FindWant(t, req) => Some(Goto(s, tid, FindIn(t, req)))
    case FindIn(t, req) =>
      if t !in s.objects then None
      else
        var signers := s.objects[t].signers;
        var key := Lower(req.address);
        Some(Goto(s, tid, if signers.Some? && key in signers.value then SignReady(t, req, signers.value[key])
                          else Done(Some(AddressNotFound))))
    case SignReady(t, req, controls) =>
      if t !in s.objects then None
      else if !Reaches(req) || controls != req.address then Some(Goto(s, tid, Done(Some(SigningFailed))))
      else if Lower(req.address) in s.objects[t].dropped then Some(Goto(s, tid, Done(Some(NilPanic))))
      else Some(Goto(s, tid, SharesRead(t, req)))
    case SharesRead(t, req) =>
      if t !in s.objects then None
      else if Lower(req.address) in s.objects[t].emptied then Some(Goto(s, tid, Done(Some(SigningFailed))))
      else Some(Goto(s, tid, KeyHeld(t, req)))
    case KeyHeld(t, req) =>
      if !ok then Some(Goto(s, tid, Done(Some(SigningFailed)))) else Some(SignedOnce(s, tid, t))
    case CountWant(t) => Some(Goto(s, tid, CountIn(t)))
    case CountIn(t) => if t !in s.objects then None else Some(Goto(s, tid, CountRead(t, s.objects[t].signCount)))
    case CountRead(t, n) =>
      if t !in s.objects then None
      else Some(Counted(s, tid, t, n))
    case EndWant(t, expired) => Some(Goto(s, tid, EndIn(t, expired)))
    case EndIn(t, expired) =>
      if t !in s.live then Some(Goto(s, tid, Done(Some(if expired then SessionExpired else NotFound))))
      else Some(Removed(s, tid, t, WipeWant(t, expired)))
    case WipeWant(t, expired) => Some(Goto(s, tid, WipeIn(t, expired)))
    case WipeIn(t, expired) =>
      if t !in s.objects then None else Erasing(s, tid, t, pick, AfterEnd(expired))
    case SweepWant => Some(Goto(s, tid, SweepIn(s.now)))
    case SweepIn(at) =>
      if pick in s.live && pick in s.objects && at > s.objects[pick].expiresAt then Some(Goto(s, tid, SweepWipeWant(at, pick)))
      else if forall t :: t in s.live && t in s.objects ==> at <= s.objects[t].expiresAt then Some(Goto(s, tid, Done(None)))
      else None
    case SweepWipeWant(at, t) => Some(Goto(s, tid, SweepWipeIn(at, t)))
    case SweepWipeIn(at, t) => if t !in s.objects then None else Erasing(s, tid, t, pick, SweepDelete(at, t))
    case SweepDelete(at, t) =>
      Some(Removed(s, tid, t, SweepIn(at)))
  }

  function Inserted(s: State, tid: nat, t: Token, made: DevSession): State
    requires tid < |s.threads|
  {
    Goto(s, tid, Done(Some(Created))).(live := s.live + {t}, objects := s.objects[t := made])
  }

  function Used(s: State, t: Token): State
    requires t in s.objects
  {
    s.(objects := s.objects[t := s.objects[t].(lastUsed := s.now)])
  }

  function SignedOnce(s: State, tid: nat, t: Token): State
    requires tid < |s.threads|
  {
    Goto(s, tid, CountWant(t)).(signatures := s.signatures + multiset{t})
  }

  function Counted(s: State, tid: nat, t: Token, n: nat): State
    requires tid < |s.threads| && t in s.objects
  {
    Goto(s, tid, Done(Some(Signed))).(objects := s.objects[t := s.objects[t].(signCount := n + 1)])
  }

  /** Takes the session out of the map. */
  function Removed(s: State, tid: nat, t: Token, pc: Pc): State
    requires tid < |s.threads|
  {
    Goto(s, tid, pc).(live := s.live - {t}, removals := s.removals + multiset{t})
  }

  function Amended(s: State, t: Token, o: DevSession): State
    requires t in s.objects
  {
    s.(objects := s.objects[t := o])
  }

  /** One step of the loop over the signers: each has its shares erased and then lets
      go of them; when none is left, the session lets go of its signers. */
  function Erasing(s: State, tid: nat, t: Token, pick: string, pc: Pc): Option<State>
    requires tid < |s.threads| && t in s.objects
  {
    var o := s.objects[t];
    if o.emptied != o.dropped then Some(Amended(s, t, o.(dropped := o.emptied)))
    else if o.dropped == o.keys then Some(Wiped(s, tid, t, pc))
    else if pick in o.keys && pick !in o.emptied then Some(Amended(s, t, o.(emptied := o.emptied + {pick})))
    else None
  }

  /** All signers are zeroized: drops them. */
  function Wiped(s: State, tid: nat, t: Token, pc: Pc): State
    requires tid < |s.threads| && t in s.objects
  {
    Goto(s, tid, pc).(objects := s.objects[t := s.objects[t].(signers := None)], wipes := s.wipes + multiset{t})
  }

  // ----- no deadlock

  /** No thread waits for the manager lock while it holds a session lock: the lock
      order is always manager first. */
  lemma LockOrder(pc: Pc)
    ensures WantsMgrW(pc) || WantsMgrR(pc) ==> SessW(pc).None? && SessR(pc).None?
    ensures WantsSessW(pc).Some? || WantsSessR(pc).Some? ==> SessW(pc).None? && SessR(pc).None?
  {
  }

  /** As Conflict, but a reader also waits for waiting writers, as sync.RWMutex makes it do. */
  predicate HeldUp(other: Pc, wanter: Pc) {
    Conflict(other, wanter) ||
    (WantsMgrR(wanter) && WantsMgrW(other)) ||
    (WantsSessR(wanter).Some? && WantsSessW(other) == WantsSessR(wanter))
  }

  ghost predicate Runnable(threads: seq<Pc>, i: nat) {
    i < |threads| && !threads[i].Done? && forall j :: 0 <= j < |threads| ==> !HeldUp(threads[j], threads[i])
  }

  /** While some thread is inside a call, some thread can go on. */
  lemma NoDeadlock(threads: seq<Pc>, busy: nat) returns (i: nat)
    requires busy < |threads| && !threads[busy].Done?
    ensures Runnable(threads, i)
  {
    if k :| 0 <= k < |threads| && (SessW(threads[k]).Some? || SessR(threads[k]).Some?) {
      i := k;
    } else if k :| 0 <= k < |threads| && (MgrW(threads[k]) || MgrR(threads[k])) {
      i := k;
    } else if k :| 0 <= k < |threads| && (WantsMgrW(threads[k]) || WantsSessW(threads[k]).Some?) {
      i := k;
    } else {
      i := busy;
    }
  }
}
