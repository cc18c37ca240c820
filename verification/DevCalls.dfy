/** The developer session manager one call at a time (internal/app/dev_session.go),
    on session objects that callers may go on holding, and the step system when
    a call is not disturbed: both do the same. */
module DevCalls {
  import opened Common
  import opened Steps
  import opened Text
  import opened DevPolicy
  import opened DevSessions
  import opened DevInvariant
  import opened DevRuns

  // ----- one call at a time

  /** The session with every signer zeroized and let go of. */
  function AfterErasure(o: DevSession): DevSession {
    o.(signers := None, emptied := o.keys, dropped := o.keys)
  }

  /** What SignTransaction or SignMessage leaves of a stored session, and its outcome. */
  function AfterSign(o: DevSession, req: Request, now: int, ok: bool): (DevSession, Outcome) {
    if now > o.expiresAt then (AfterErasure(o), SessionExpired)
    else
      var used := o.(lastUsed := now);
      var key := Lower(req.address);
      if req.chainID.Some? && !ChainAllowed(req.chainID.value, o.trusted) then (used, Refusal(req.chainID.value))
      else if o.signers.None? || key !in o.signers.value then (used, AddressNotFound)
      else if !Reaches(req) || o.signers.value[key] != req.address then (used, SigningFailed)
      else if key in o.dropped then (used, NilPanic)
      else if key in o.emptied || !ok then (used, SigningFailed)
      else (used.(signCount := o.signCount + 1), Signed)
  }

  /** Exactly which requests are signed, and why others are not. */
  lemma SignedExactly(o: DevSession, req: Request, now: int, ok: bool)
    ensures var outcome, key := AfterSign(o, req, now, ok).1, Lower(req.address);
            var tx, live := req.chainID.Some?, now <= o.expiresAt;
            var allowed := tx ==> ChainAllowed(req.chainID.value, o.trusted);
            var known := o.signers.Some? && key in o.signers.value;
            (outcome == SessionExpired <==> !live) &&
            (outcome == MainnetBlocked <==> live && tx && req.chainID.value in {1, 56, 137, 42161, 10, 8453}) &&
            (outcome == NotTrusted <==> live && tx && req.chainID.value !in {1, 56, 137, 42161, 10, 8453} && !allowed) &&
            (outcome == AddressNotFound <==> live && allowed && !known) &&
            (outcome == NilPanic <==> live && allowed && known && Reaches(req) &&
                                      o.signers.value[key] == req.address && key in o.dropped) &&
            (outcome == Signed <==> live && allowed && known && Reaches(req) && o.signers.value[key] == req.address &&
                                    key !in o.dropped && key !in o.emptied && ok) &&
            outcome in {SessionExpired, MainnetBlocked, NotTrusted, AddressNotFound, NilPanic, Signed, SigningFailed}
  {
    hide Reaches, NetworkName, Lower;
    if req.chainID.Some? {
      OtherChains(req.chainID.value, 0, o.trusted);
    }
  }

  /** What a call changes: the time of the last use, the count of a signature, and
      everything an expired session holds. */
  lemma SignLeaves(o: DevSession, req: Request, now: int, ok: bool)
    ensures var (o', outcome) := AfterSign(o, req, now, ok);
            o'.createdAt == o.createdAt && o'.expiresAt == o.expiresAt && o'.trusted == o.trusted && o'.keys == o.keys &&
            o'.signCount == (if outcome == Signed then o.signCount + 1 else o.signCount) &&
            (now <= o.expiresAt ==> o'.lastUsed == now && o'.signers == o.signers &&
                                    o'.emptied == o.emptied && o'.dropped == o.dropped) &&
            (now > o.expiresAt ==> o'.lastUsed == o.lastUsed && o'.signers == None &&
                                   o'.emptied == o.keys && o'.dropped == o.keys)
  {
    hide Reaches, ChainAllowed, Lower;
  }

  /** In a session that trusts Sepolia only, transactions are signed for Sepolia only, and
      Goerli is refused; and the other way round. */
  lemma SignedForTrusted(o: DevSession, chainID: int, from: string, now: int, ok: bool)
    ensures var outcome := AfterSign(o, Request(Some(chainID), from), now, ok).1;
            (outcome == Signed ==> chainID in {5, 11155111}) &&
            (o.trusted == ["sepolia"] ==>
               (outcome == Signed ==> chainID == 11155111) && (chainID == 5 && now <= o.expiresAt ==> outcome == NotTrusted)) &&
            (o.trusted == ["goerli"] ==>
               (outcome == Signed ==> chainID == 5) && (chainID == 11155111 && now <= o.expiresAt ==> outcome == NotTrusted))
  {
    hide Lower, ChainAllowed, AdapterTakes;
    SignedExactly(o, Request(Some(chainID), from), now, ok);
    TrustedChain(chainID);
    SignableExactly(chainID, o.trusted);
  }

  class Session {
    const createdAt: int
    const expiresAt: int
    const trusted: seq<string>
    const keys: set<string>
    var lastUsed: int
    var signers: Option<map<string, string>>
    var signCount: nat

    constructor (now: int, minutes: int, trusted: seq<string>, signers: map<string, string>)
      ensures Value() == NewDevSession(now, minutes, trusted, signers)
    {
      createdAt, expiresAt, lastUsed := now, now + ClampMinutes(minutes) * MINUTE, now;
      this.trusted := if trusted == [] then DEFAULT_TRUSTED else trusted;
      this.signers, signCount, keys := Some(signers), 0, signers.Keys;
    }

    /** The signers are zeroized together with the session. */
    function Value(): DevSession
      reads this
    {
      var zeroized := if signers.None? then keys else {};
      DevSession(createdAt, expiresAt, lastUsed, trusted, signers, signCount, keys, zeroized, zeroized)
    }
  }

  datatype CreateError = InvalidAuth | NoWallet | NoAddresses | NoRandomness | NoSeed | NoMasterKey | NoSigner

  /** How the steps before the signers are made turn out. rows is None for a wallet
      without an address book; the token is fresh random text. */
  datatype Preparation = Preparation(decrypts: bool, loads: bool, rows: Option<seq<Row>>, token: Option<Token>,
                                     seedOk: bool, masterKeyOk: bool) {
    /** The first failure, that no row gives a signer being the last of them. */
    function Failure(): Option<CreateError> {
      if !decrypts then Some(InvalidAuth)
      else if !loads then Some(NoWallet)
      else if rows.None? || rows.value == [] then Some(NoAddresses)
      else if token.None? then Some(NoRandomness)
      else if !seedOk then Some(NoSeed)
      else if !masterKeyOk then Some(NoMasterKey)
      else if forall i :: 0 <= i < |rows.value| ==> !Usable(rows.value[i]) then Some(NoSigner)
      else None
    }
  }

  class DevSessionManager {
    var sessions: map<Token, Session>

    constructor ()
      ensures sessions == map[]
    {
      sessions := map[];
    }

    /** No object is stored under two tokens. */
    ghost predicate Valid()
      reads this
    {
      forall t, u :: t in sessions && u in sessions && t != u ==> sessions[t] != sessions[u]
    }

    /** Stores a session only when nothing has failed, and reports the first failure. */
    method CreateSession(p: Preparation, minutes: int, trusted: seq<string>, now: int)
      returns (r: Result<Session, CreateError>)
      requires Valid()
      modifies this
      ensures Valid()
      ensures p.Failure().Some? ==> r == Err(p.Failure().value) && sessions == old(sessions)
      ensures p.Failure().None? ==> r.Ok? && fresh(r.value) && sessions == old(sessions)[p.token.value := r.value]
      ensures p.Failure().None? ==>
                exists kept :: LastRows(p.rows.value, kept) &&
                  r.value.Value() == NewDevSession(now, minutes, trusted, map k | k in kept :: p.rows.value[kept[k]].address)
    {
      if !p.decrypts {
        return Err(InvalidAuth);
      }
      if !p.loads {
        return Err(NoWallet);
      }
      if p.rows.None? || p.rows.value == [] {
        return Err(NoAddresses);
      }
      if p.token.None? {
        return Err(NoRandomness);
      }
      if !p.seedOk {
        return Err(NoSeed);
      }
      if !p.masterKeyOk {
        return Err(NoMasterKey);
      }
      r := Store(p.token.value, p.rows.value, minutes, trusted, now);
    }

    /** Makes the signers and, if there are any, the session. */
    method Store(token: Token, rows: seq<Row>, minutes: int, trusted: seq<string>, now: int)
      returns (r: Result<Session, CreateError>)
      requires Valid()
      modifies this
      ensures Valid()
      ensures r.Err? <==> forall i :: 0 <= i < |rows| ==> !Usable(rows[i])
      ensures r.Err? ==> r == Err(NoSigner) && sessions == old(sessions)
      ensures r.Ok? ==> fresh(r.value) && sessions == old(sessions)[token := r.value]
      ensures r.Ok? ==>
                exists kept :: LastRows(rows, kept) &&
                  r.value.Value() == NewDevSession(now, minutes, trusted, map k | k in kept :: rows[kept[k]].address)
    {
      var kept := LoadSigners(rows);
      var signers := map k | k in kept :: rows[kept[k]].address;
      if signers == map[] {
        assert forall k :: k in kept ==> k in signers;
        return Err(NoSigner);
      }
      var session := new Session(now, minutes, trusted, signers);
      var k :| k in kept;
      assert Usable(rows[kept[k]]);
      sessions := sessions[token := session];
      return Ok(session);
    }

    /** The session, touched; an overdue one is ended. */
    method GetSession(token: Token, now: int) returns (r: Result<Session, Outcome>)
      requires Valid()
      modifies this, if token in sessions then {sessions[token]} else {}
      ensures Valid()
      ensures token !in old(sessions) ==> r == Err(NotFound) && sessions == old(sessions)
      ensures token in old(sessions) ==>
                var o := old(sessions[token]);
                if now > o.expiresAt
                then r == Err(SessionExpired) && sessions == old(sessions) - {token} && o.Value() == AfterErasure(old(o.Value()))
                else r == Ok(o) && sessions == old(sessions) && o.Value() == old(o.Value()).(lastUsed := now)
    {
      if token !in sessions {
        return Err(NotFound);
      }
      var session := sessions[token];
      if now > session.expiresAt {
        var _ := EndSession(token);
        return Err(SessionExpired);
      }
      session.lastUsed := now;
      return Ok(session);
    }

    /** ok tells whether the cryptography succeeds. */
    method SignTransaction(token: Token, chainID: int, from: string, now: int, ok: bool) returns (r: Outcome)
      requires Valid()
      modifies this, if token in sessions then {sessions[token]} else {}
      ensures Valid()
      ensures token !in old(sessions) ==> r == NotFound && sessions == old(sessions)
      ensures token in old(sessions) ==>
                var o := old(sessions[token]);
                (o.Value(), r) == AfterSign(old(o.Value()), Request(Some(chainID), from), now, ok) &&
                sessions == if r == SessionExpired then old(sessions) - {token} else old(sessions)
      ensures token in old(sessions) ==>
                var o := old(sessions[token]);
                (r == Signed ==> chainID in {5, 11155111}) &&
                (o.trusted == ["sepolia"] ==>
                   (r == Signed ==> chainID == 11155111) && (chainID == 5 && now <= o.expiresAt ==> r == NotTrusted))
    {
      ghost var before := if token in sessions then Some(sessions[token].Value()) else None;
      if before.Some? {
        SignedForTrusted(before.value, chainID, from, now, ok);
      }
      var got := GetSession(token, now);
      if got.Err? {
        return got.error;
      }
      var session := got.value;
      if MainnetName(chainID).Some? {
        return MainnetBlocked;
      }
      if NetworkName(chainID) !in session.trusted {
        return NotTrusted;
      }
      r := SignWith(session, Request(Some(chainID), from), ok);
    }

    method SignMessage(token: Token, address: string, now: int, ok: bool) returns (r: Outcome)
      requires Valid()
      modifies this, if token in sessions then {sessions[token]} else {}
      ensures Valid()
      ensures token !in old(sessions) ==> r == NotFound && sessions == old(sessions)
      ensures token in old(sessions) ==>
                var o := old(sessions[token]);
                (o.Value(), r) == AfterSign(old(o.Value()), Request(None, address), now, ok) &&
                sessions == if r == SessionExpired then old(sessions) - {token} else old(sessions)
    {
      var got := GetSession(token, now);
      if got.Err? {
        return got.error;
      }
      r := SignWith(got.value, Request(None, address), ok);
    }

    /** Finds the signer, signs, a transaction through its adapter, and counts: the
        common end of both. */
    static method SignWith(session: Session, req: Request, ok: bool) returns (r: Outcome)
      modifies session
      ensures var signers, key := old(session.signers), Lower(req.address);
              r == if signers.None? || key !in signers.value then AddressNotFound
                   else if !Reaches(req) || signers.value[key] != req.address || !ok then SigningFailed
                   else Signed
      ensures session.Value() == if r == Signed then old(session.Value()).(signCount := old(session.signCount) + 1)
                                 else old(session.Value())
    {
      var key := Lower(req.address);
      if session.signers.None? || key !in session.signers.value {
        return AddressNotFound;
      }
      if !Reaches(req) || session.signers.value[key] != req.address || !ok {
        return SigningFailed;
      }
      session.signCount := session.signCount + 1;
      return Signed;
    }

    /** Takes the session out and erases its signers, in the object that others may hold. */
    method EndSession(token: Token) returns (r: Outcome)
      requires Valid()
      modifies this, if token in sessions then {sessions[token]} else {}
      ensures Valid() && sessions == old(sessions) - {token}
      ensures r == if token in old(sessions) then Ended else NotFound
      ensures token in old(sessions) ==>
                old(sessions[token]).Value() == AfterErasure(old(sessions[token].Value()))
    {
      if token !in sessions {
        return NotFound;
      }
      var session := sessions[token];
      sessions := sessions - {token};
      session.signers := None;
      return Ended;
    }

    /** One round of the cleanup: what is past its end is erased and taken out, the
        rest is left alone. */
    method CleanupRound(now: int)
      requires Valid()
      modifies this, sessions.Values
      ensures Valid()
      ensures sessions == map t | t in old(sessions) && now <= old(sessions)[t].expiresAt :: old(sessions)[t]
      ensures forall t :: t in old(sessions) ==>
                var o := old(sessions)[t];
                o.Value() == if now > o.expiresAt then AfterErasure(old(o.Value())) else old(o.Value())
    {
      hide Visiting, SweptSoFar;
      ghost var all, before := sessions, map t | t in sessions :: sessions[t].Value();
      var todo := sessions.Keys;
      Unvisited(all, before, now);
      while todo != {}
        invariant Visiting(all, sessions, todo, now)
        invariant SweptSoFar(all, before, todo, now)
        decreases |todo|
      {
        var token :| token in todo;
        VisitStep(all, sessions, todo, token, now);
        var session := sessions[token];
        if now > session.expiresAt {
          Erase(all, before, todo, token, now, session);
          sessions := sessions - {token};
        } else {
          Spare(all, before, todo, token, now);
        }
        todo := todo - {token};
      }
      AllVisited(all, before, sessions, now);
    }

    static lemma Unvisited(all: map<Token, Session>, before: map<Token, DevSession>, now: int)
      requires before.Keys == all.Keys && forall t :: t in all ==> before[t] == all[t].Value()
      ensures Visiting(all, all, all.Keys, now) && SweptSoFar(all, before, all.Keys, now)
    {
    }

    static lemma AllVisited(all: map<Token, Session>, before: map<Token, DevSession>, sessions: map<Token, Session>, now: int)
      requires Visiting(all, sessions, {}, now) && SweptSoFar(all, before, {}, now)
      ensures sessions == map t | t in all && now <= all[t].expiresAt :: all[t]
      ensures forall t :: t in all ==>
                t in before && before[t].expiresAt == all[t].expiresAt &&
                all[t].Value() == if now > all[t].expiresAt then AfterErasure(before[t]) else before[t]
    {
    }

    static lemma Spare(all: map<Token, Session>, before: map<Token, DevSession>, todo: set<Token>, token: Token, now: int)
      requires SweptSoFar(all, before, todo, now) && token in all && now <= all[token].expiresAt
      ensures SweptSoFar(all, before, todo - {token}, now)
    {
    }

    /** Of the sessions visited, those not overdue are left. */
    static ghost predicate Visiting(all: map<Token, Session>, sessions: map<Token, Session>, todo: set<Token>, now: int) {
      todo <= sessions.Keys <= all.Keys &&
      (forall t :: t in sessions ==> sessions[t] == all[t]) &&
      (forall t :: t in all && t !in todo ==> (t in sessions <==> now <= all[t].expiresAt))
    }

    static lemma VisitStep(all: map<Token, Session>, sessions: map<Token, Session>, todo: set<Token>, token: Token, now: int)
      requires Visiting(all, sessions, todo, now) && token in todo
      ensures token in sessions && token in all && sessions[token] == all[token]
      ensures Visiting(all, if now > all[token].expiresAt then sessions - {token} else sessions, todo - {token}, now)
    {
    }

    /** Every session still has its old value, or has been visited and, if overdue, erased. */
    static ghost predicate SweptSoFar(all: map<Token, Session>, before: map<Token, DevSession>, todo: set<Token>, now: int)
      reads all.Values
    {
      forall t :: t in all ==>
        t in before && before[t].expiresAt == all[t].expiresAt &&
        all[t].Value() == if t !in todo && now > all[t].expiresAt then AfterErasure(before[t]) else before[t]
    }

    static method Erase(ghost all: map<Token, Session>, ghost before: map<Token, DevSession>, ghost todo: set<Token>,
                        token: Token, ghost now: int, session: Session)
      requires token in todo && token in all && all[token] == session && now > session.expiresAt
      requires forall t, u :: t in all && u in all && t != u ==> all[t] != all[u]
      requires SweptSoFar(all, before, todo, now)
      modifies session
      ensures SweptSoFar(all, before, todo - {token}, now)
    {
      session.signers := None;
    }
  }

  // ----- the step system, undisturbed

  predicate HoldsNothing(pc: Pc) {
    !MgrW(pc) && !MgrR(pc) && SessW(pc).None? && SessR(pc).None?
  }

  /** Every other thread is outside the critical sections. */
  ghost predicate Alone(s: State, tid: nat) {
    tid < |s.threads| && forall j :: 0 <= j < |s.threads| && j != tid ==> HoldsNothing(s.threads[j])
  }

  /** All actions are steps of one thread: nothing disturbs it. */
  predicate OwnSteps(actions: seq<Action>, tid: nat) {
    forall i :: 0 <= i < |actions| ==> actions[i].Step? && actions[i].tid == tid
  }

  lemma MovesOne(s: State, tid: nat, ok: bool, pick: Token)
    requires tid < |s.threads| && Advance(s, tid, s.threads[tid], ok, pick).Some?
    ensures var r := Advance(s, tid, s.threads[tid], ok, pick).value; r.threads == s.threads[tid := r.threads[tid]]
  {
  }

  /** One step of a thread that is alone; it stays alone. */
  lemma TakeStep(start: State, actions: seq<Action>, s: State, tid: nat, ok: bool, pick: Token)
    returns (all: seq<Action>, next: State)
    requires Run(Next, start, actions) == Some(s) && Alone(s, tid) && Advance(s, tid, s.threads[tid], ok, pick).Some?
    ensures OwnSteps(actions, tid) ==> OwnSteps(all, tid)
    ensures Run(Next, start, all) == Some(next) && Some(next) == Advance(s, tid, s.threads[tid], ok, pick) && Alone(next, tid)
  {
    hide Run, Advance;
    assert CanAcquire(s.threads, s.threads[tid]) by {
      forall j | 0 <= j < |s.threads| ensures !Conflict(s.threads[j], s.threads[tid]) {
        LockOrder(s.threads[tid]);
      }
    }
    next := Take(Next, start, actions, s, Step(tid, ok, pick));
    all := actions + [Step(tid, ok, pick)];
    MovesOne(s, tid, ok, pick);
  }

  lemma GotoTwice(s: State, tid: nat, pc: Pc, pc': Pc)
    requires tid < |s.threads|
    ensures Goto(Goto(s, tid, pc), tid, pc') == Goto(s, tid, pc')
  {
    assert s.threads[tid := pc][tid := pc'] == s.threads[tid := pc'];
  }

  // Single steps of Advance, so that the phases need not look into it.

  /** The step only moves the thread. */
  ghost predicate Goes(s: State, tid: nat, pc: Pc, to: Pc, ok: bool) {
    tid < |s.threads| && Advance(s, tid, pc, ok, "") == Some(Goto(s, tid, to))
  }

  lemma GetMoves(s: State, tid: nat, t: Token, req: Request, ok: bool)
    requires tid < |s.threads|
    ensures Goes(s, tid, GetWant(t, req), GetIn(t, req), ok)
    ensures Goes(s, tid, GetIn(t, req), if t in s.live then GetFound(t, req) else Done(Some(NotFound)), ok)
    ensures t in s.objects ==>
              Goes(s, tid, GetFound(t, req), if s.now > s.objects[t].expiresAt then EndWant(t, true) else UseWant(t, req), ok)
  {
  }

  lemma UseMoves(s: State, tid: nat, t: Token, req: Request, ok: bool)
    requires tid < |s.threads|
    ensures Goes(s, tid, UseWant(t, req), UseIn(t, req), ok)
    ensures t in s.objects ==> Advance(s, tid, UseIn(t, req), ok, "") == Some(Used(Goto(s, tid, Policy(t, req)), t))
  {
  }

  lemma FindMoves(s: State, tid: nat, t: Token, req: Request, ok: bool)
    requires tid < |s.threads| && t in s.objects
    ensures Goes(s, tid, Policy(t, req),
                 if req.chainID.Some? && !ChainAllowed(req.chainID.value, s.objects[t].trusted)
                 then Done(Some(Refusal(req.chainID.value))) else FindWant(t, req), ok)
    ensures Goes(s, tid, FindWant(t, req), FindIn(t, req), ok)
    ensures Goes(s, tid, FindIn(t, req),
                 if s.objects[t].signers.Some? && Lower(req.address) in s.objects[t].signers.value
                 then SignReady(t, req, s.objects[t].signers.value[Lower(req.address)]) else Done(Some(AddressNotFound)), ok)
  {
    hide ChainAllowed, Lower, Refusal;
  }

  lemma KeyMoves(s: State, tid: nat, t: Token, req: Request, controls: string, ok: bool)
    requires tid < |s.threads| && t in s.objects
    ensures Goes(s, tid, SignReady(t, req, controls),
                 if !Reaches(req) || controls != req.address then Done(Some(SigningFailed))
                 else if Lower(req.address) in s.objects[t].dropped then Done(Some(NilPanic)) else SharesRead(t, req), ok)
    ensures Goes(s, tid, SharesRead(t, req),
                 if Lower(req.address) in s.objects[t].emptied then Done(Some(SigningFailed)) else KeyHeld(t, req), ok)
    ensures !ok ==> Goes(s, tid, KeyHeld(t, req), Done(Some(SigningFailed)), ok)
    ensures ok ==> Advance(s, tid, KeyHeld(t, req), ok, "") == Some(SignedOnce(s, tid, t))
  {
    hide Reaches, Lower;
  }

  lemma CountMoves(s: State, tid: nat, t: Token, n: nat, ok: bool)
    requires tid < |s.threads| && t in s.objects
    ensures Goes(s, tid, CountWant(t), CountIn(t), ok) && Goes(s, tid, CountIn(t), CountRead(t, s.objects[t].signCount), ok)
    ensures Advance(s, tid, CountRead(t, n), ok, "") == Some(Counted(s, tid, t, n))
  {
  }

  lemma EndMoves(s: State, tid: nat, t: Token, expired: bool)
    requires tid < |s.threads|
    ensures Goes(s, tid, EndWant(t, expired), EndIn(t, expired), true)
    ensures t !in s.live ==> Goes(s, tid, EndIn(t, expired), Done(Some(if expired then SessionExpired else NotFound)), true)
    ensures t in s.live ==> Advance(s, tid, EndIn(t, expired), true, "") == Some(Removed(s, tid, t, WipeWant(t, expired)))
    ensures Goes(s, tid, WipeWant(t, expired), WipeIn(t, expired), true)
  {
  }

  lemma SweepMoves(s: State, tid: nat, at: int, t: Token)
    requires tid < |s.threads|
    ensures Goes(s, tid, SweepWant, SweepIn(s.now), true)
    ensures Overdue(s, at, t) ==> Advance(s, tid, SweepIn(at), true, t) == Some(Goto(s, tid, SweepWipeWant(at, t)))
    ensures Goes(s, tid, SweepWipeWant(at, t), SweepWipeIn(at, t), true)
    ensures Advance(s, tid, SweepDelete(at, t), true, "") == Some(Removed(s, tid, t, SweepIn(at)))
  {
  }

  /** A step that only moves the thread on from where it was moved before. */
  lemma MoveOn(start: State, actions: seq<Action>, base: State, s: State, tid: nat, pc: Pc, to: Pc, ok: bool)
    returns (all: seq<Action>, next: State)
    requires Run(Next, start, actions) == Some(s) && tid < |base.threads| && s == Goto(base, tid, pc) && Alone(s, tid)
    requires Goes(s, tid, pc, to, ok)
    ensures OwnSteps(actions, tid) ==> OwnSteps(all, tid)
    ensures Run(Next, start, all) == Some(next) && Alone(next, tid) && next == Goto(base, tid, to)
  {
    hide Run, Alone, OwnSteps, Advance;
    all, next := TakeStep(start, actions, s, tid, ok, "");
    GotoTwice(base, tid, pc, to);
  }

  lemma GotoHere(s: State, tid: nat)
    requires tid < |s.threads|
    ensures s == Goto(s, tid, s.threads[tid])
  {
  }

  // The phases of a call, each from a state the run has reached.

  lemma LookupPhase(start: State, actions: seq<Action>, s: State, tid: nat, token: Token, req: Request, ok: bool)
    returns (all: seq<Action>, next: State)
    requires Run(Next, start, actions) == Some(s) && tid < |s.threads| && Alone(s, tid) && s.threads[tid] == GetWant(token, req)
    ensures OwnSteps(actions, tid) ==> OwnSteps(all, tid)
    ensures Run(Next, start, all) == Some(next) && Alone(next, tid)
    ensures next == Goto(s, tid, if token in s.live then GetFound(token, req) else Done(Some(NotFound)))
  {
    hide Run, Alone, OwnSteps, Advance, Goes;
    GotoHere(s, tid);
    GetMoves(s, tid, token, req, ok);
    all, next := MoveOn(start, actions, s, s, tid, GetWant(token, req), GetIn(token, req), ok);
    GetMoves(next, tid, token, req, ok);
    all, next := MoveOn(start, all, s, next, tid, GetIn(token, req),
                        if token in s.live then GetFound(token, req) else Done(Some(NotFound)), ok);
  }

  lemma TouchPhase(start: State, actions: seq<Action>, s: State, tid: nat, token: Token, req: Request, ok: bool)
    returns (all: seq<Action>, next: State)
    requires Run(Next, start, actions) == Some(s) && tid < |s.threads| && Alone(s, tid) && s.threads[tid] == GetFound(token, req)
    requires token in s.objects && s.now <= s.objects[token].expiresAt
    ensures OwnSteps(actions, tid) ==> OwnSteps(all, tid)
    ensures Run(Next, start, all) == Some(next) && Alone(next, tid)
    ensures next == Used(Goto(s, tid, Policy(token, req)), token)
  {
    hide Run, Alone, OwnSteps, Advance, Goes;
    GotoHere(s, tid);
    GetMoves(s, tid, token, req, ok);
    all, next := MoveOn(start, actions, s, s, tid, GetFound(token, req), UseWant(token, req), ok);
    UseMoves(next, tid, token, req, ok);
    all, next := MoveOn(start, all, s, next, tid, UseWant(token, req), UseIn(token, req), ok);
    UseMoves(next, tid, token, req, ok);
    all, next := TakeStep(start, all, next, tid, ok, "");
    GotoTwice(s, tid, UseIn(token, req), Policy(token, req));
  }

  /** The erasing loop has been reached, and leads on to after. */
  predicate InLoop(pc: Pc, t: Token, after: Pc) {
    (pc.WipeIn? && pc.token == t && after == AfterEnd(pc.expired)) ||
    (pc.SweepWipeIn? && pc.token == t && after == SweepDelete(pc.at, t))
  }

  lemma LoopStep(s: State, tid: nat, t: Token, after: Pc, pick: string)
    requires tid < |s.threads| && InLoop(s.threads[tid], t, after) && t in s.objects
    ensures Advance(s, tid, s.threads[tid], true, pick) == Erasing(s, tid, t, pick, after)
  {
  }

  /** The rest of the loop over the signers of a session. */
  lemma {:induction false} EraseRest(start: State, actions: seq<Action>, s: State, tid: nat, t: Token, after: Pc)
    returns (all: seq<Action>, end: State)
    requires Run(Next, start, actions) == Some(s) && tid < |s.threads| && Alone(s, tid)
    requires InLoop(s.threads[tid], t, after) && t in s.objects
    requires s.objects[t].dropped <= s.objects[t].emptied <= s.objects[t].keys
    ensures OwnSteps(actions, tid) ==> OwnSteps(all, tid)
    ensures Run(Next, start, all) == Some(end) && Alone(end, tid)
    ensures end.now == s.now && end.live == s.live && end.threads == s.threads[tid := after]
    ensures end.objects == s.objects[t := AfterErasure(s.objects[t])]
    decreases s.objects[t].keys - s.objects[t].emptied, s.objects[t].keys - s.objects[t].dropped
  {
    hide Run, Alone, OwnSteps, Advance, InLoop;
    var o := s.objects[t];
    var pick := "";
    if o.emptied == o.dropped && o.dropped != o.keys {
      pick :| pick in o.keys && pick !in o.emptied;
    }
    LoopStep(s, tid, t, after, pick);
    all, end := TakeStep(start, actions, s, tid, true, pick);
    if o.emptied != o.dropped || o.dropped != o.keys {
      assert end.threads == s.threads;
      assert s.objects[t := end.objects[t]][t := AfterErasure(o)] == s.objects[t := AfterErasure(o)];
      all, end := EraseRest(start, all, end, tid, t, after);
    }
  }

  /** The end of EndSession; an overdue GetSession ends the same way. */
  lemma EndPhase(start: State, actions: seq<Action>, s: State, tid: nat, token: Token, expired: bool)
    returns (all: seq<Action>, end: State)
    requires Run(Next, start, actions) == Some(s) && tid < |s.threads| && Alone(s, tid)
    requires s.threads[tid] == EndWant(token, expired) && token in s.live && token in s.objects
    requires s.objects[token].dropped <= s.objects[token].emptied <= s.objects[token].keys
    ensures OwnSteps(actions, tid) ==> OwnSteps(all, tid)
    ensures Run(Next, start, all) == Some(end) && Alone(end, tid)
    ensures end.now == s.now && end.live == s.live - {token} && end.threads == s.threads[tid := AfterEnd(expired)]
    ensures end.objects == s.objects[token := AfterErasure(s.objects[token])]
  {
    hide Run, Alone, OwnSteps, AfterErasure, Advance, Goes;
    GotoHere(s, tid);
    EndMoves(s, tid, token, expired);
    all, end := MoveOn(start, actions, s, s, tid, EndWant(token, expired), EndIn(token, expired), true);
    EndMoves(end, tid, token, expired);
    all, end := TakeStep(start, all, end, tid, true, "");
    var removed := end;
    assert removed.threads == s.threads[tid := WipeWant(token, expired)];
    GotoHere(removed, tid);
    EndMoves(removed, tid, token, expired);
    all, end := MoveOn(start, all, removed, removed, tid, WipeWant(token, expired), WipeIn(token, expired), true);
    all, end := EraseRest(start, all, end, tid, token, AfterEnd(expired));
    assert end.threads == s.threads[tid := AfterEnd(expired)];
  }

  /** Where the policy and the signer lookup lead. */
  function Chosen(o: DevSession, token: Token, req: Request): Pc {
    var key := Lower(req.address);
    if req.chainID.Some? && !ChainAllowed(req.chainID.value, o.trusted) then Done(Some(Refusal(req.chainID.value)))
    else if o.signers.None? || key !in o.signers.value then Done(Some(AddressNotFound))
    else SignReady(token, req, o.signers.value[key])
  }

  lemma FindPhase(start: State, actions: seq<Action>, s: State, tid: nat, token: Token, req: Request, ok: bool)
    returns (all: seq<Action>, next: State)
    requires Run(Next, start, actions) == Some(s) && tid < |s.threads| && Alone(s, tid) && s.threads[tid] == Policy(token, req) && token in s.objects
    ensures OwnSteps(actions, tid) ==> OwnSteps(all, tid)
    ensures Run(Next, start, all) == Some(next) && Alone(next, tid)
    ensures next == Goto(s, tid, Chosen(s.objects[token], token, req))
  {
    hide Run, Alone, OwnSteps, ChainAllowed, Refusal, Advance, Goes, Lower;
    GotoHere(s, tid);
    FindMoves(s, tid, token, req, ok);
    if req.chainID.Some? && !ChainAllowed(req.chainID.value, s.objects[token].trusted) {
      all, next := MoveOn(start, actions, s, s, tid, Policy(token, req), Done(Some(Refusal(req.chainID.value))), ok);
    } else {
      all, next := MoveOn(start, actions, s, s, tid, Policy(token, req), FindWant(token, req), ok);
      FindMoves(next, tid, token, req, ok);
      all, next := MoveOn(start, all, s, next, tid, FindWant(token, req), FindIn(token, req), ok);
      FindMoves(next, tid, token, req, ok);
      all, next := MoveOn(start, all, s, next, tid, FindIn(token, req), Chosen(s.objects[token], token, req), ok);
    }
  }

  /** What comes of a signature with a fetched signer. */
  function Attempted(o: DevSession, req: Request, controls: string, ok: bool): Outcome {
    var key := Lower(req.address);
    if !Reaches(req) || controls != req.address then SigningFailed
    else if key in o.dropped then NilPanic
    else if key in o.emptied || !ok then SigningFailed
    else Signed
  }

  lemma SignPhase(start: State, actions: seq<Action>, s: State, tid: nat, token: Token, req: Request, controls: string, ok: bool)
    returns (all: seq<Action>, next: State)
    requires Run(Next, start, actions) == Some(s) && tid < |s.threads| && Alone(s, tid)
    requires s.threads[tid] == SignReady(token, req, controls) && token in s.objects
    ensures OwnSteps(actions, tid) ==> OwnSteps(all, tid)
    ensures Run(Next, start, all) == Some(next) && next.now == s.now && next.live == s.live
    ensures var outcome := Attempted(s.objects[token], req, controls, ok);
            next.threads == s.threads[tid := Done(Some(outcome))] &&
            next.objects == if outcome == Signed
                            then s.objects[token := s.objects[token].(signCount := s.objects[token].signCount + 1)]
                            else s.objects
  {
    hide Run, Alone, OwnSteps, Reaches, Lower, Advance, Goes;
    var key := Lower(req.address);
    GotoHere(s, tid);
    KeyMoves(s, tid, token, req, controls, ok);
    if !Reaches(req) || controls != req.address {
      all, next := MoveOn(start, actions, s, s, tid, SignReady(token, req, controls), Done(Some(SigningFailed)), ok);
    } else if key in s.objects[token].dropped {
      all, next := MoveOn(start, actions, s, s, tid, SignReady(token, req, controls), Done(Some(NilPanic)), ok);
    } else {
      all, next := MoveOn(start, actions, s, s, tid, SignReady(token, req, controls), SharesRead(token, req), ok);
      KeyMoves(next, tid, token, req, controls, ok);
      if key in s.objects[token].emptied {
        all, next := MoveOn(start, all, s, next, tid, SharesRead(token, req), Done(Some(SigningFailed)), ok);
      } else {
        all, next := MoveOn(start, all, s, next, tid, SharesRead(token, req), KeyHeld(token, req), ok);
        all, next := HeldPhase(start, all, next, tid, token, req, ok);
        assert next.threads == s.threads[tid := Done(Some(if ok then Signed else SigningFailed))];
      }
    }
  }

  lemma HeldPhase(start: State, actions: seq<Action>, s: State, tid: nat, token: Token, req: Request, ok: bool)
    returns (all: seq<Action>, next: State)
    requires Run(Next, start, actions) == Some(s) && tid < |s.threads| && Alone(s, tid)
    requires s.threads[tid] == KeyHeld(token, req) && token in s.objects
    ensures OwnSteps(actions, tid) ==> OwnSteps(all, tid)
    ensures Run(Next, start, all) == Some(next) && next.now == s.now && next.live == s.live
    ensures next.threads == s.threads[tid := Done(Some(if ok then Signed else SigningFailed))]
    ensures next.objects == if ok then s.objects[token := s.objects[token].(signCount := s.objects[token].signCount + 1)]
                            else s.objects
  {
    hide Run, Alone, OwnSteps, Reaches, Lower, Advance, Goes;
    GotoHere(s, tid);
    KeyMoves(s, tid, token, req, "", ok);
    if ok {
      all, next := TakeStep(start, actions, s, tid, ok, "");
      all, next := CountPhase(start, all, next, tid, token, ok);
      assert next.threads == s.threads[tid := Done(Some(Signed))];
    } else {
      all, next := MoveOn(start, actions, s, s, tid, KeyHeld(token, req), Done(Some(SigningFailed)), ok);
    }
  }

  lemma CountPhase(start: State, actions: seq<Action>, s: State, tid: nat, token: Token, ok: bool)
    returns (all: seq<Action>, next: State)
    requires Run(Next, start, actions) == Some(s) && tid < |s.threads| && Alone(s, tid)
    requires s.threads[tid] == CountWant(token) && token in s.objects
    ensures OwnSteps(actions, tid) ==> OwnSteps(all, tid)
    ensures Run(Next, start, all) == Some(next) && next.now == s.now && next.live == s.live
    ensures next.threads == s.threads[tid := Done(Some(Signed))]
    ensures next.objects == s.objects[token := s.objects[token].(signCount := s.objects[token].signCount + 1)]
  {
    hide Run, Alone, OwnSteps, Advance, Goes;
    var n := s.objects[token].signCount;
    GotoHere(s, tid);
    CountMoves(s, tid, token, n, ok);
    all, next := MoveOn(start, actions, s, s, tid, CountWant(token), CountIn(token), ok);
    CountMoves(next, tid, token, n, ok);
    all, next := MoveOn(start, all, s, next, tid, CountIn(token), CountRead(token, n), ok);
    CountMoves(next, tid, token, n, ok);
    all, next := TakeStep(start, all, next, tid, ok, "");
    assert next.threads == s.threads[tid := Done(Some(Signed))];
  }

  /** An undisturbed signing call does to the session, the map and the caller what
      the sequential method does. */
  lemma UndisturbedSign(s: State, tid: nat, token: Token, req: Request, ok: bool)
    returns (all: seq<Action>, end: State)
    requires Inv(s) && tid < |s.threads| && Alone(s, tid) && s.threads[tid] == GetWant(token, req)
    ensures OwnSteps(all, tid) && Run(Next, s, all) == Some(end) && end.now == s.now
    ensures token !in s.live ==>
              end.objects == s.objects && end.live == s.live && end.threads == s.threads[tid := Done(Some(NotFound))]
    ensures token in s.live ==>
              var (o, outcome) := AfterSign(s.objects[token], req, s.now, ok);
              end.objects == s.objects[token := o] && end.threads == s.threads[tid := Done(Some(outcome))] &&
              end.live == if outcome == SessionExpired then s.live - {token} else s.live
  {
    assert OwnSteps([], tid);
    hide Run, Inv, Alone, OwnSteps, Advance, Goes, Ordered;
    RunEmpty(Next, s);
    WholeWhenAlone(s, tid);
    all, end := LookupPhase(s, [], s, tid, token, req, ok);
    if token in s.live {
      GotoHere(end, tid);
      GetMoves(end, tid, token, req, ok);
      if s.now > s.objects[token].expiresAt {
        all, end := MoveOn(s, all, s, end, tid, GetFound(token, req), EndWant(token, true), ok);
        OrderedAt(s, token);
        all, end := EndPhase(s, all, end, tid, token, true);
        assert end.threads == s.threads[tid := AfterEnd(true)];
      } else {
        all, end := TouchPhase(s, all, end, tid, token, req, ok);
        GotoTwice(s, tid, GetFound(token, req), Policy(token, req));
        all, end := SignEnd(s, all, s, end, tid, token, req, ok);
      }
    }
  }

  lemma OrderedAt(s: State, t: Token)
    requires Ordered(s) && t in s.objects
    ensures s.objects[t].dropped <= s.objects[t].emptied <= s.objects[t].keys
  {
  }

  /** With nobody else in a critical section, what is in the map still has its signers. */
  lemma WholeWhenAlone(s: State, tid: nat)
    requires Inv(s) && tid < |s.threads| && Alone(s, tid) && HoldsNothing(s.threads[tid])
    ensures s.live <= s.objects.Keys
    ensures forall t :: t in s.live ==> s.objects[t].signers.Some?
    ensures Ordered(s)
  {
    forall t | t in s.live ensures t in s.objects && s.objects[t].signers.Some? {
      assert forall i :: 0 <= i < |s.threads| ==> HoldsNothing(s.threads[i]);
    }
    AllOrdered(s);
  }

  /** No signer lets go of its shares before it erases them. */
  ghost predicate Ordered(s: State) {
    forall t :: t in s.objects ==> s.objects[t].dropped <= s.objects[t].emptied <= s.objects[t].keys
  }

  lemma AllOrdered(s: State)
    requires Inv(s)
    ensures Ordered(s)
  {
    hide Inv;
    forall t | t in s.objects ensures s.objects[t].dropped <= s.objects[t].emptied <= s.objects[t].keys {
      StoredOk(s, t);
    }
  }

  lemma SignEnd(start: State, actions: seq<Action>, s: State, used: State, tid: nat, token: Token, req: Request, ok: bool)
    returns (all: seq<Action>, end: State)
    requires Run(Next, start, actions) == Some(used) && Alone(used, tid)
    requires tid < |s.threads| && token in s.objects && s.now <= s.objects[token].expiresAt
    requires used == Used(Goto(s, tid, Policy(token, req)), token)
    ensures OwnSteps(actions, tid) ==> OwnSteps(all, tid)
    ensures Run(Next, start, all) == Some(end) && end.now == s.now && end.live == s.live
    ensures var (o, outcome) := AfterSign(s.objects[token], req, s.now, ok);
            outcome != SessionExpired &&
            end.objects == s.objects[token := o] && end.threads == s.threads[tid := Done(Some(outcome))]
  {
    hide Run, Alone, OwnSteps, ChainAllowed, Reaches, Lower, Advance, Goes;
    all, end := FindPhase(start, actions, used, tid, token, req, ok);
    var pc := Chosen(used.objects[token], token, req);
    assert used.objects[token] == s.objects[token].(lastUsed := s.now);
    assert end.threads == s.threads[tid := pc];
    if pc.SignReady? {
      all, end := SignPhase(start, all, end, tid, token, req, pc.controls, ok);
    }
  }

  /** So does an undisturbed EndSession. */
  lemma UndisturbedEnd(s: State, tid: nat, token: Token)
    returns (all: seq<Action>, end: State)
    requires Inv(s) && tid < |s.threads| && Alone(s, tid) && s.threads[tid] == EndWant(token, false)
    ensures OwnSteps(all, tid) && Run(Next, s, all) == Some(end) && end.now == s.now && end.live == s.live - {token}
    ensures end.threads == s.threads[tid := Done(Some(if token in s.live then Ended else NotFound))]
    ensures end.objects == if token in s.live && token in s.objects
                           then s.objects[token := AfterErasure(s.objects[token])] else s.objects
  {
    assert OwnSteps([], tid);
    hide Run, Inv, Alone, OwnSteps, Advance, Goes, Ordered;
    RunEmpty(Next, s);
    WholeWhenAlone(s, tid);
    if token in s.live {
      OrderedAt(s, token);
      all, end := EndPhase(s, [], s, tid, token, false);
    } else {
      GotoHere(s, tid);
      EndMoves(s, tid, token, false);
      all, end := MoveOn(s, [], s, s, tid, EndWant(token, false), EndIn(token, false), true);
      EndMoves(end, tid, token, false);
      all, end := MoveOn(s, all, s, end, tid, EndIn(token, false), Done(Some(NotFound)), true);
    }
  }

  /** An undisturbed insertion stores the session that was made. */
  lemma UndisturbedCreate(s: State, tid: nat, token: Token, made: DevSession)
    returns (all: seq<Action>, end: State)
    requires tid < |s.threads| && Alone(s, tid) && s.threads[tid] == CreateWant(token, made)
    ensures OwnSteps(all, tid) && Run(Next, s, all) == Some(end) && end.now == s.now && end.live == s.live + {token}
    ensures end.objects == s.objects[token := made] && end.threads == s.threads[tid := Done(Some(Created))]
  {
    assert OwnSteps([], tid);
    hide Run, Alone, OwnSteps;
    RunEmpty(Next, s);
    all, end := TakeStep(s, [], s, tid, true, "");
    assert end == Goto(s, tid, CreateIn(token, made));
    all, end := TakeStep(s, all, end, tid, true, "");
    GotoTwice(s, tid, CreateIn(token, made), Done(Some(Created)));
  }

  // ----- a cleanup round

  predicate Overdue(s: State, at: int, t: Token) {
    t in s.live && t in s.objects && at > s.objects[t].expiresAt
  }

  function SweptObjects(s: State, at: int): map<Token, DevSession> {
    map t | t in s.objects :: if Overdue(s, at, t) then AfterErasure(s.objects[t]) else s.objects[t]
  }

  function SweptLive(s: State, at: int): set<Token> {
    set t | t in s.live && !Overdue(s, at, t)
  }

  /** Erases one overdue session and takes it out. */
  lemma SweepOne(start: State, actions: seq<Action>, s: State, tid: nat, at: int, t: Token)
    returns (all: seq<Action>, next: State)
    requires Run(Next, start, actions) == Some(s) && tid < |s.threads| && Alone(s, tid) && s.threads[tid] == SweepIn(at)
    requires Overdue(s, at, t) && Ordered(s)
    ensures OwnSteps(actions, tid) ==> OwnSteps(all, tid)
    ensures Run(Next, start, all) == Some(next) && Alone(next, tid) && next.now == s.now && next.threads == s.threads
    ensures next.live == s.live - {t} && next.objects == s.objects[t := AfterErasure(s.objects[t])]
  {
    hide Run, Alone, OwnSteps, Advance, Goes, Ordered, AfterErasure;
    SweepMoves(s, tid, at, t);
    OrderedAt(s, t);
    all, next := TakeStep(start, actions, s, tid, true, t);
    assert next == Goto(s, tid, SweepWipeWant(at, t));
    SweepMoves(next, tid, at, t);
    all, next := MoveOn(start, all, s, next, tid, SweepWipeWant(at, t), SweepWipeIn(at, t), true);
    all, next := EraseRest(start, all, next, tid, t, SweepDelete(at, t));
    assert next.threads == s.threads[tid := SweepDelete(at, t)];
    SweepMoves(next, tid, at, t);
    all, next := TakeStep(start, all, next, tid, true, "");
    assert next.threads == s.threads;
  }

  lemma {:induction false} SweepRest(start: State, actions: seq<Action>, s: State, tid: nat, at: int)
    returns (all: seq<Action>, end: State)
    requires Run(Next, start, actions) == Some(s) && tid < |s.threads| && Alone(s, tid) && s.threads[tid] == SweepIn(at)
    requires Ordered(s)
    ensures OwnSteps(actions, tid) ==> OwnSteps(all, tid)
    ensures Run(Next, start, all) == Some(end) && end.now == s.now && end.threads == s.threads[tid := Done(None)]
    ensures end.live == SweptLive(s, at) && end.objects == SweptObjects(s, at)
    decreases |s.live|
  {
    hide Run, Alone, OwnSteps;
    if t :| Overdue(s, at, t) {
      var next;
      all, next := SweepOne(start, actions, s, tid, at, t);
      all, end := SweepRest(start, all, next, tid, at);
      assert SweptLive(next, at) == SweptLive(s, at);
      assert SweptObjects(next, at) == SweptObjects(s, at);
    } else {
      assert forall t :: t in s.live && t in s.objects ==> !Overdue(s, at, t);
      all, end := TakeStep(start, actions, s, tid, true, "");
      assert SweptLive(s, at) == s.live && SweptObjects(s, at) == s.objects;
    }
  }

  /** An undisturbed cleanup round erases and takes out exactly what is overdue. */
  lemma UndisturbedSweep(s: State, tid: nat)
    returns (all: seq<Action>, end: State)
    requires Inv(s) && tid < |s.threads| && Alone(s, tid) && s.threads[tid] == SweepWant
    ensures OwnSteps(all, tid) && Run(Next, s, all) == Some(end) && end.now == s.now && end.threads == s.threads[tid := Done(None)]
    ensures end.live == SweptLive(s, s.now) && end.objects == SweptObjects(s, s.now)
  {
    assert OwnSteps([], tid);
    hide Run, Inv, Alone, OwnSteps, Advance, Goes, Ordered, SweptLive, SweptObjects;
    RunEmpty(Next, s);
    AllOrdered(s);
    GotoHere(s, tid);
    SweepMoves(s, tid, s.now, "");
    all, end := MoveOn(s, [], s, s, tid, SweepWant, SweepIn(s.now), true);
    AsSwept(s, end, tid);
    all, end := SweepRest(s, all, end, tid, s.now);
  }

  lemma AsSwept(s: State, s': State, tid: nat)
    requires tid < |s.threads| && s' == Goto(s, tid, SweepIn(s.now))
    ensures SweptLive(s', s.now) == SweptLive(s, s.now) && SweptObjects(s', s.now) == SweptObjects(s, s.now)
    ensures Ordered(s) ==> Ordered(s') && (s.threads[tid := SweepIn(s.now)][tid := Done(None)] == s.threads[tid := Done(None)])
  {
  }
}
